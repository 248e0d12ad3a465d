/** The task record shared by the store, the reminder logic and the view rules:
    the two enumerations and the record with its default values (src/Task.h). */
module TaskModel {

  /** One byte of a std::string or of a file. */
  newtype byte = b: int | 0 <= b < 256

  type Bytes = seq<byte>

  /** A C++ `enum class` holds any value of its underlying `int`; the named
      enumerators are the ordinals 0, 1, 2 (and 0 .. 3 for Category). */
  newtype Priority = p: int | -0x8000_0000 <= p < 0x8000_0000

  const HIGH: Priority := 0
  const MEDIUM: Priority := 1
  const LOW: Priority := 2

  newtype Category = c: int | -0x8000_0000 <= c < 0x8000_0000

  const STUDY: Category := 0
  const ENTERTAINMENT: Category := 1
  const LIFE: Category := 2
  const OTHER: Category := 3

  predicate IsNamedPriority(p: Priority) {
    p == HIGH || p == MEDIUM || p == LOW
  }

  predicate IsNamedCategory(c: Category) {
    c == STUDY || c == ENTERTAINMENT || c == LIFE || c == OTHER
  }

  /** The id a task carries before the store has assigned one. */
  const NOT_PERSISTED_ID: int := -1

  /** `name` is kept as the bytes of the std::string, since the store writes
      them to disk verbatim. `duration` (minutes) and `reminderOption` are read
      and written by the dialogs but have no declaration in the header; they
      are part of the record here and are never persisted. */
  datatype Task = Task(
    id: int,
    name: Bytes,
    startTime: int,
    priority: Priority,
    category: Category,
    customCategory: string,
    reminderTime: int,
    reminded: bool,
    duration: int,
    reminderOption: string)

  /** A reminder time of 0 means "no reminder". */
  predicate HasReminder(t: Task) {
    t.reminderTime != 0
  }

  /** The task the default constructor builds. */
  function DefaultTask(): (t: Task)
    ensures t.id == NOT_PERSISTED_ID
    ensures t.startTime == 0 && !HasReminder(t)
    ensures t.priority == MEDIUM && t.category == STUDY
    ensures !t.reminded && t.name == [] && t.customCategory == ""
  {
    Task(NOT_PERSISTED_ID, [], 0, MEDIUM, STUDY, "", 0, false, 0, "")
  }

  /** The named priorities are ordered by urgency, HIGH first. */
  lemma PriorityOrder()
    ensures HIGH < MEDIUM < LOW
    ensures forall p: Priority :: IsNamedPriority(p) <==> 0 <= p <= 2
  {
  }

  /** Category has exactly four named values, OTHER being the last. */
  lemma CategoryValues()
    ensures forall c: Category :: IsNamedCategory(c) <==> 0 <= c <= 3
    ensures forall c: Category :: IsNamedCategory(c) ==> c <= OTHER
  {
  }
}
