# SchedulerApp core in Dafny

SchedulerApp is a desktop schedule manager written in C++. Each user keeps a list of
tasks. A task has a name, a start time, a priority, a category, an optional reminder and
a duration. The tasks live in memory, sorted by start time, and in one binary file per
user. A background loop marks due reminders once each.

This project models the logic under the GTK window:

- **`task.dfy`, module `TaskModel`**: the task record and its enumerations (`src/Task.h`).
- **`codec.dfy`, module `TaskCodec`**: the binary record format of `<user>_tasks.dat`.
  - It is written record by record, in the host's byte order through `reinterpret_cast`;
    the model fixes that order as little-endian, as on an x86-64 or ARM64 host. Each record is the 8-byte id,
    the 8-byte start time, the 4-byte priority and category ordinals, the 8-byte reminder
    time, an 8-byte name length and the name bytes.
  - When the file is read back, a truncated tail is dropped.
- **`store.dfy`, module `TaskStore`**: the task manager of `src/TaskManager.cpp`, as a class.
  - Its fields are the task list, the next id, the current user, the file name and the
    reminder flag.
  - The file system is a map from file names to bytes.
  - It covers loading, appending, rewriting, unique-key checks, sorting, deletion and the
    body of the reminder loop.
  - Two invariants describe a consistent store:
    - `Valid`: ids are distinct and below `nextId`, no two tasks share a (name, start time)
      key, and the list is sorted.
    - `Mirrored`: the file decodes to the list, up to order and the fields that are not stored.
  - Adding, deleting, marking reminders and the reminder pass keep both invariants.
  - Switching user reloads from the user's file. The result is `Valid` when that file's ids
    and keys are unique, and `Mirrored` when the file has no truncated tail. Switching back to
    the same file keeps both.
  - `LoadTasks` on its own states what the list and the next id become, not the invariants;
    `SetCurrentUser` is the operation that calls it.
- **`text.dfy`, modules `Wrappers` and `Text`**: the C library behaviour the dialog code
  relies on. This covers `isspace`, decimal digits, `std::to_string`, `strtol` and
  `std::stoi`, trimming and substring search.
- **`rules.dfy`, module `SchedulerRules`**: the domain helpers of `src/SchedulerApp.cpp`.
  - The category and priority labels, the task and reminder status texts, and the
    reminder parser of the add dialog ("N分钟前", "N小时前", "N天前" or a bare number of minutes).
  - The checks the add dialog makes before it calls the task manager.
  - The normaliser of the reminder entry field.
  - The per-day filter.
- **`calendar.dfy`, module `Calendar`**: the prev/next paging of the month and week calendar
  views, on a proleptic Gregorian calendar.
  - Dates carry `tm`-style fields: months 0-11 and any day, which is then normalised.
  - Both the code as written and a corrected version are modelled.
- **`resources.dfy`, module `ResourceEmitter`**: the C array emitter of
  `src/generate_resources.cpp`.
  - It writes 16 lowercase `0xNN` tokens per line, separated by commas, followed by the
    `_size` line.
  - Its output is proved to read back to the input bytes.

The GUI pointer checks, clocks, file I/O failures, threads and the regex engine are not
part of the model; see "Left out".

Facts about the code that the model follows:

- The reminder normaliser keeps the text exactly as typed, untrimmed, when that text already
  names an offset.
- `reminded`, `duration` and the reminder option text are not written to the file.
- The code has no `updateTask` or `getById`.
- `src/Task.h` declares no `duration` or `reminderOption` field, but src/SchedulerApp.cpp uses
  both (lines 96, 1213 and 1243). The model's `Task` adds them, with defaults 0 and "".
- Two handlers take the reading they run as a parameter:
  - `SchedulerRules.AddTaskFromDialog` takes an `Arithmetic`. `Int32Wrap` is the code as
    compiled, and `Exact` is the corrected product.
  - `Calendar.CalendarView.OnPrev` and `OnNext` take a `MonthStep`. `KeepDay` is the code as
    written, and `FirstDay` is the corrected step.

## Model

| member | source | states |
|---|---|---|
| TaskModel.DefaultTask | src/Task.h:26 | the default task has id -1, start time 0, no reminder, priority MEDIUM, category STUDY, is not reminded and has empty name and custom category |
| TaskModel.PriorityOrder | src/Task.h:9 | HIGH, MEDIUM, LOW are the ordinals 0, 1, 2 and exactly the named priorities |
| TaskModel.CategoryValues | src/Task.h:12 | STUDY, ENTERTAINMENT, LIFE, OTHER are the ordinals 0-3 and exactly the named categories |
| TaskCodec.DecodeEncodeLE | src/TaskManager.cpp:113-126 | reading n little-endian bytes gives back any value below 256^n that was written |
| TaskCodec.DecodeEncodeSigned | src/TaskManager.cpp:113-126 | a signed value in range survives the two's-complement byte layout |
| TaskCodec.EncodeTask | src/TaskManager.cpp:159-167 | a record is the 40-byte header (five fields and the name length) followed by the name bytes |
| TaskCodec.Stored | src/TaskManager.cpp:159-167 | the stored view keeps id, name, start, priority, category and reminder time, and clears the custom category and the reminded flag |
| TaskCodec.DecodeRecord | src/TaskManager.cpp:113-126 | every decoded record fits the C++ field widths and is its own stored view |
| TaskCodec.DecodeAll | src/TaskManager.cpp:111-134 | every task read from a file fits the field widths and carries only stored fields |
| TaskCodec.EncodeStored | src/TaskManager.cpp:159-167 | fields that are not stored do not change the bytes written |
| TaskCodec.EncodeAllStored | src/TaskManager.cpp:184-194 | rewriting a list writes the same bytes as rewriting its stored view |
| TaskCodec.EncodeAll | src/TaskManager.cpp:184-194 | the rewritten file is empty exactly for an empty list, and holds at least one 40-byte header per task |
| TaskCodec.EncodeAllAppend | src/TaskManager.cpp:184-194 | the file of a concatenation is the concatenation of the files |
| TaskCodec.SaveTaskAppends | src/TaskManager.cpp:152-170 | appending one record to the file of a list gives the file of the list extended by that task |
| TaskCodec.DecodeRecordFront | src/TaskManager.cpp:111-134 | decoding reads the first whole record as the stored view of its task and goes on with the rest |
| TaskCodec.DecodeEncodedPrefix | src/TaskManager.cpp:111-134 | a written prefix reads back as its stored view, whatever follows it |
| TaskCodec.RoundTrip | src/TaskManager.cpp:111-134 | reading back a written list gives the stored view of each task, in order |
| TaskCodec.TruncatedRecord | src/TaskManager.cpp:119-128 | a strict prefix of one record reads as no task |
| TaskCodec.TruncatedTailIsDropped | src/TaskManager.cpp:111-134 | a truncated last record is ignored and the whole records before it are kept |
| TaskCodec.EncodedHasNoTruncatedTail | src/TaskManager.cpp:175-196 | a rewritten file consists of whole records only |
| TaskStore.MaxId | src/TaskManager.cpp:109-133 | the largest id read is non-negative, bounds every id and is 0 or the id of some task |
| TaskStore.MaxIdSnoc | src/TaskManager.cpp:130-133 | reading one more record raises the maximum to its id exactly when that id is larger |
| TaskStore.FirstIndexWithId | src/TaskManager.cpp:73-75 | the find_if position is the first task with that id, or the end when there is none |
| TaskStore.InsertByStart | src/TaskManager.cpp:60-62 | inserting adds exactly that task to the list's multiset of tasks |
| TaskStore.InsertKeepsSorted | src/TaskManager.cpp:60-62 | inserting into a list sorted by start time leaves it sorted |
| TaskStore.KeyTaken | src/TaskManager.cpp:42-47 | the scan answers taken exactly when some task has the same name and start time |
| TaskStore.SortByStart | src/TaskManager.cpp:141-143 | the result is sorted by start time and is a permutation of the input |
| TaskStore.PermutationKeepsNoClash | src/TaskManager.cpp:60-62 | reordering keeps ids distinct and keys unique |
| TaskStore.PermutationKeepsIdsBelow | src/TaskManager.cpp:60-62 | reordering keeps every id below the next id |
| TaskStore.PermutationKeepsRepresentable | src/TaskManager.cpp:60-62 | reordering keeps every task within the field widths |
| TaskStore.PermutationKeepsStored | src/TaskManager.cpp:141-143 | a permutation of the list is a permutation of its stored view |
| TaskStore.AppendFreshKeepsInvariants | src/TaskManager.cpp:42-54 | a task with a fresh key and the next id keeps ids distinct, below the raised bound, and keys unique |
| TaskStore.AppendKeepsStoredPermutation | src/TaskManager.cpp:54-62 | adding the same task to two reorderings keeps them reorderings of each other |
| TaskStore.StoredKeepsNoClash | src/TaskManager.cpp:159-167 | id and key uniqueness hold for a list exactly when they hold for its stored view |
| TaskStore.DueTasks | src/TaskManager.cpp:265-267 | the due tasks are exactly those with a reminder at or before now that were not yet reminded |
| TaskStore.AfterRemindersCompose | src/TaskManager.cpp:273-281 | marking two id sets one after the other is marking their union |
| TaskStore.AfterRemindersStored | src/TaskManager.cpp:273-281 | marking reminders leaves the file contents unchanged, because the flag is not stored |
| TaskStore.ReminderPassMarksDue | src/TaskManager.cpp:264-281 | a task's id is selected exactly when it is due, and the first task with a due id is marked |
| TaskStore.NoneDueSelectsNothing | src/TaskManager.cpp:265-267 | with no due task the pass selects nothing |
| TaskStore.ReminderPassIsOneShot | src/TaskManager.cpp:264-281 | with distinct ids, each task due at a pass is never due again at any later time, and no task is left due at that instant |
| TaskStore.ReminderPassIdempotent | src/TaskManager.cpp:264-281 | a second pass at the same time changes nothing |
| TaskStore.AddKeepsInvariant | src/TaskManager.cpp:42-62 | a successful add keeps the store invariant with the next id one higher |
| TaskStore.AppendedRecordFile | src/TaskManager.cpp:152-170 | appending to a mirrored file yields the file of the extended order |
| TaskStore.AppendKeepsRepresentable | src/TaskManager.cpp:54 | adding a task within the widths keeps the list within the widths |
| TaskStore.AddKeepsMirror | src/TaskManager.cpp:54-62 | after add, the appended file still mirrors the sorted list |
| TaskStore.AddedStore | src/TaskManager.cpp:49-62 | giving a task with a free key the next id, appending its record and re-sorting keeps the invariant (with the bound raised by one) and the mirror |
| TaskStore.RemoveKeepsStore | src/TaskManager.cpp:76-80 | erasing one task keeps the store invariant, and the rewritten file mirrors the list |
| TaskStore.RemoveAtKeepsInvariants | src/TaskManager.cpp:78 | erasing one task keeps ids distinct and below the bound, keys unique and the list sorted |
| TaskStore.MirroredFileReadsBack | src/TaskManager.cpp:101-143 | a mirrored file has no truncated tail, reads back to a permutation of the stored list, and keeps the uniqueness of ids and keys |
| TaskStore.LoadedStore | src/TaskManager.cpp:101-143 | a loaded, sorted list with next id = max id + 1 meets the invariant when the file's ids and keys are unique, and is mirrored when the file has no truncated tail |
| TaskStore.SwitchedStore | src/TaskManager.cpp:23-35 | after a reload, the list meets the invariant when the file's ids and keys are unique and mirrors the file when it has no truncated tail. Reloading a file the old list mirrored gives back the stored view of that list and keeps the invariant |
| TaskStore.AfterRemindersKeepsStore | src/TaskManager.cpp:273-281 | marking reminders keeps the invariant and the mirror |
| TaskStore.ReadRecords | src/TaskManager.cpp:108-134 | the read loop returns exactly the decoded records and their maximum id |
| TaskStore.TaskManager.constructor | src/TaskManager.cpp:16-20 | a new manager has no tasks, next id 1, no user and no running reminder loop, and is valid |
| TaskStore.TaskManager.SetCurrentUser | src/TaskManager.cpp:23-35 | switching user names the user's file and loads it. The list is a sorted permutation of the file's records and the next id is max + 1. Switching to the same file keeps the invariants |
| TaskStore.TaskManager.LoadTasks | src/TaskManager.cpp:101-146 | a missing file leaves the list, the next id and the file order as they were. Otherwise the list is a sorted permutation of the decoded file and the next id is max + 1 |
| TaskStore.TaskManager.SaveTask | src/TaskManager.cpp:152-170 | the user's file gains exactly the task's record at its end, and no other file changes |
| TaskStore.TaskManager.RewriteTasksFile | src/TaskManager.cpp:175-196 | the user's file becomes the encoding of the current list, and no other file changes |
| TaskStore.TaskManager.AddTask | src/TaskManager.cpp:38-66 | the add succeeds exactly when no task has the same name and start. A rejected add changes nothing. A successful add adds the task with the next id, raises the next id, keeps the list sorted, appends its record and keeps both invariants |
| TaskStore.TaskManager.DeleteTask | src/TaskManager.cpp:69-87 | the delete succeeds exactly when some task has the id. It removes the first such task, keeps the order of the rest, rewrites the file and keeps both invariants, and otherwise changes nothing |
| TaskStore.TaskManager.GetAllTasks | src/TaskManager.cpp:90-94 | returns the current list |
| TaskStore.TaskManager.FindById | src/TaskManager.cpp:73-75 | returns the first position with the id, or the length |
| TaskStore.TaskManager.StartReminderThread | src/TaskManager.cpp:219-229 | the reminder loop is running afterwards and nothing else changes |
| TaskStore.TaskManager.StopReminderThread | src/TaskManager.cpp:232-244 | the reminder loop is stopped afterwards and nothing else changes |
| TaskStore.TaskManager.MarkReminded | src/TaskManager.cpp:276-280 | the first task with the id is marked reminded and nothing else changes |
| TaskStore.TaskManager.ReminderCheck | src/TaskManager.cpp:249-283 | while the loop runs, one pass marks the first task of every due id; otherwise nothing changes. Both invariants are kept |
| Text.DecimalString | src/SchedulerApp.cpp:1443 | to_string yields at least one digit, with a leading zero only for 0 |
| Text.DecimalRoundTrip | src/SchedulerApp.cpp:1443 | the digits of to_string(n) denote n |
| Text.DigitsStart | src/SchedulerApp.cpp:1432 | the digits start after the leading blanks, one position later exactly when a sign stands there |
| Text.ParseLeadingInteger | src/SchedulerApp.cpp:1432 | strtol reads nothing exactly when no digit follows the blanks and the optional sign. Otherwise it stops at the end of that digit run, and the value is the run's decimal value, negated after a minus sign |
| Text.Stoi | src/SchedulerApp.cpp:1263 | stoi gives a value exactly when strtol reads digits whose value fits int, and then that value, whatever text follows; otherwise it throws |
| Text.DecimalPrefixParses | src/SchedulerApp.cpp:1251-1263 | the decimal text of n followed by a non-digit reads as n, ending after the digits. stoi gives n when n fits int and throws otherwise |
| Text.LastNotSpace | src/SchedulerApp.cpp:1417 | the position is the last non-blank character, or -1 when there is none |
| Text.Trim | src/SchedulerApp.cpp:1408-1419 | the trimmed text is empty exactly for blank input. Otherwise it neither starts nor ends with a blank, and it is the input from its first to its last non-blank character |
| Text.TrimIdempotent | src/SchedulerApp.cpp:1408-1419 | trimming twice is trimming once |
| SchedulerRules.PriorityLabel | src/SchedulerApp.cpp:56-69 | each named priority has its own label, and "未知" is returned exactly for the unnamed ordinals |
| SchedulerRules.CategoryLabel | src/SchedulerApp.cpp:72-87 | STUDY, ENTERTAINMENT and LIFE have fixed labels, OTHER shows the custom category, and any other ordinal shows "未知" |
| SchedulerRules.TaskStatus | src/SchedulerApp.cpp:90-105 | "未开始" exactly before the start, "进行中" exactly from the start to the end (start + 60 × duration), "已结束" exactly after the end |
| SchedulerRules.ReminderStatus | src/SchedulerApp.cpp:108-119 | "不提醒" exactly with no reminder time, "已提醒" exactly for a reminded task with one, "未提醒" otherwise |
| SchedulerRules.FindOffsetMatch | src/SchedulerApp.cpp:1249 | a found position is the leftmost place where a digit run is followed by the suffix, and none is returned only when no such place exists |
| SchedulerRules.Wrap32 | src/SchedulerApp.cpp:1251 | an int product wraps into the int range and leaves values in range alone |
| SchedulerRules.CapturedOffset | src/SchedulerApp.cpp:1249-1259 | a match gives an offset exactly when its number fits int, as stoi throws otherwise. The offset is the number times the unit: exact in the corrected reading, and as written wrapped into int, equal to the product when that fits |
| SchedulerRules.ReminderOffsetWith | src/SchedulerApp.cpp:1248-1273 | the patterns are tried in order: a minutes match decides; otherwise an hours match; otherwise a days match, each giving its captured offset. With no match, the bare-number branch: no offset exactly when stoi gives a value of 0 or less, the exception path exactly when stoi throws, and otherwise N × 60 seconds. An exact offset is never negative |
| SchedulerRules.ParseReminderWith | src/SchedulerApp.cpp:1243-1297 | empty text or "不提醒" means no reminder. Otherwise the option is reset to "不提醒" exactly on the exception path, the reminder time is start minus the offset when there is one, and 0 when there is none |
| SchedulerRules.ParseReminderAsWritten | src/SchedulerApp.cpp:1243-1278 | the parser as compiled keeps the same option text as the exact reading, and sets the same reminder time unless the exact offset overflows int |
| SchedulerRules.NumberThenSuffix | src/SchedulerApp.cpp:1249-1259 | the leftmost match in "N" + suffix is at 0 with N captured, for every suffix form |
| SchedulerRules.MinutesTextReadsBack | src/SchedulerApp.cpp:1249-1252 | "N分钟前" sets the reminder N minutes before the start |
| SchedulerRules.HoursTextReadsBack | src/SchedulerApp.cpp:1253-1256 | "N小时前" sets the reminder N hours before the start |
| SchedulerRules.DaysTextReadsBack | src/SchedulerApp.cpp:1257-1260 | "N天前" sets the reminder N × 86400 seconds before the start, wrapped as int in the code as written and exact in the corrected reading |
| SchedulerRules.BareNumberReadsBack | src/SchedulerApp.cpp:1261-1272 | a bare 0 means no offset, a bare N in int range means N minutes before, and a larger N means no reminder |
| SchedulerRules.OverflowingCountIsUnparsable | src/SchedulerApp.cpp:1249-1278 | "N分钟前", "N小时前" or "N天前" with N above INT_MAX makes stoi throw, so there is no reminder and the option is "不提醒", in either arithmetic |
| SchedulerRules.BlankBeforeSuffix | src/SchedulerApp.cpp:1249-1251 | "5 分钟前" is 5 minutes before the start: blanks may stand between the number and the suffix |
| SchedulerRules.MinutesPatternComesFirst | src/SchedulerApp.cpp:1249-1256 | "1小时30分钟前" is 30 minutes before the start, because the minutes pattern is tried before the hours pattern |
| SchedulerRules.TextBeforeMatch | src/SchedulerApp.cpp:1249-1251 | "提前5分钟前" is 5 minutes before the start: the search finds the pattern after other text |
| SchedulerRules.TextWithoutDigitsIsUnparsable | src/SchedulerApp.cpp:1274-1278 | a text without digits falls into the catch branch and is stored with no reminder |
| SchedulerRules.PriorityFromText | src/SchedulerApp.cpp:1214-1220 | "高" is HIGH, "低" is LOW and anything else is MEDIUM |
| SchedulerRules.CategoryFromText | src/SchedulerApp.cpp:1221-1237 | the three fixed labels map to their categories, anything else is OTHER, and only OTHER keeps a custom text |
| SchedulerRules.LabelsReadBack | src/SchedulerApp.cpp:1214-1230 | the labels shown for a named priority or fixed category select that priority or category again |
| SchedulerRules.BuildNewTaskWith | src/SchedulerApp.cpp:1193-1297 | the dialog gives a task exactly when all checks pass. The empty-name, no-start and start-not-in-future rejections happen exactly in their cases. An accepted task has the entered fields, start after now, and either no reminder or one strictly between now and the start |
| SchedulerRules.ZeroMinutesIsRejected | src/SchedulerApp.cpp:1279-1291 | "0分钟前" puts the reminder at the start and is refused |
| SchedulerRules.WrappedDaysOffset | src/SchedulerApp.cpp:1257-1260 | "49711天前" sets the reminder 63104 s before the start as written, and 4295030400 s before in the corrected reading |
| SchedulerRules.WrappedDaysAcceptedAsWritten | src/SchedulerApp.cpp:1257-1291 | with now in the gap, the code as written accepts "49711天前" with a reminder 63104 s before the start, while the corrected reading refuses it as not after now |
| SchedulerRules.AddTaskFromDialog | src/SchedulerApp.cpp:1193-1308 | with the arithmetic given: a rejected dialog leaves the store alone. An accepted one calls add and reports a duplicate exactly when a task has the same name and start. A duplicate changes neither the list, the next id nor the files. An added task gets the next id, which is raised by one, and the list stays sorted, gains exactly that task and its record is appended to the user's file, no other file changing. The user, the file name and the reminder flag stay the same. `Valid` is kept, and so is `Mirrored` when the task fits the field widths |
| SchedulerRules.NormaliseReminderEntry | src/SchedulerApp.cpp:1402-1451 | blank input becomes "不提醒", and text already naming an offset is kept as typed. Otherwise a trimmed text that stol reads whole, within long, as a positive value v becomes "v分钟前", and every other text becomes "不提醒" |
| SchedulerRules.NormaliseIdempotent | src/SchedulerApp.cpp:1402-1451 | normalising a normalised entry changes nothing |
| SchedulerRules.TrailingTextIsDropped | src/SchedulerApp.cpp:1429-1448 | "5x" becomes "不提醒": stol reads 5 but stops before the end, which throws |
| SchedulerRules.NumericEntryBecomesMinutes | src/SchedulerApp.cpp:1429-1449 | a typed number v becomes "v分钟前", or "不提醒" when v is 0 |
| SchedulerRules.NormalisedEntryReadsBack | src/SchedulerApp.cpp:1443 | a rewritten entry parses to its number of minutes before the start |
| SchedulerRules.TasksOnDay | src/SchedulerApp.cpp:938-942 | the day's tasks are exactly those whose start lies in that day, and no more than all tasks |
| SchedulerRules.DaysAreDisjoint | src/SchedulerApp.cpp:938-942 | no task is listed on two different days |
| SchedulerRules.TasksOnDaySorted | src/SchedulerApp.cpp:990-996 | filtering a list sorted by start keeps it sorted |
| Calendar.DaysInMonth | src/SchedulerApp.cpp:663 | every month has 28 to 31 days |
| Calendar.NormaliseUp | src/SchedulerApp.cpp:663 | carrying an overlong day into later months gives a valid date with the same day number |
| Calendar.NormaliseDown | src/SchedulerApp.cpp:663 | borrowing for a day below 1 from earlier months gives a valid date with the same day number |
| Calendar.Normalise | src/SchedulerApp.cpp:663 | mktime's normalisation gives a valid date denoting the same day |
| Calendar.DayNumberBounds | src/SchedulerApp.cpp:663 | a valid date's day number lies within its year and within its month |
| Calendar.DayNumberInjective | src/SchedulerApp.cpp:663 | distinct valid dates have distinct day numbers |
| Calendar.NormaliseValid | src/SchedulerApp.cpp:663 | a valid date normalises to itself |
| Calendar.PrevMonthOf | src/SchedulerApp.cpp:647-656 | the month before January is December of the previous year, and otherwise it is one month back in the same year |
| Calendar.NextMonthOf | src/SchedulerApp.cpp:671-680 | the month after December is January of the next year, and otherwise it is one month on in the same year |
| Calendar.PrevMonthAsWritten | src/SchedulerApp.cpp:647-663 | as written: the valid date mktime gives for the previous month with the day kept, which is that date itself when the month has the day |
| Calendar.NextMonthAsWritten | src/SchedulerApp.cpp:671-687 | as written: the valid date mktime gives for the next month with the day kept, which is that date itself when the month has the day |
| Calendar.PrevMonthAsWrittenStaysInMarch | src/SchedulerApp.cpp:647-663 | as written, going back from 31 March 2025 shows 3 March 2025 |
| Calendar.NextMonthAsWrittenSkipsFebruary | src/SchedulerApp.cpp:671-687 | as written, going forward from 31 January 2025 shows 3 March 2025 |
| Calendar.PrevMonth | src/SchedulerApp.cpp:647-664 | corrected: a valid first day of the previous month |
| Calendar.NextMonth | src/SchedulerApp.cpp:671-688 | corrected: a valid first day of the next month |
| Calendar.MonthPagingRoundTrip | src/SchedulerApp.cpp:644-690 | next after prev, and prev after next, return to the first day of the month shown |
| Calendar.AsWrittenAgreesWhenDayFits | src/SchedulerApp.cpp:647-663 | as written, paging keeps the day and stays in the adjacent month when that month has the day |
| Calendar.PrevWeek | src/SchedulerApp.cpp:659-663 | a week back is the valid date seven days earlier |
| Calendar.NextWeek | src/SchedulerApp.cpp:683-687 | a week on is the valid date seven days later |
| Calendar.WeekPagingRoundTrip | src/SchedulerApp.cpp:644-690 | a week on and a week back return to the date shown |
| Calendar.CalendarView.constructor | src/SchedulerApp.cpp:692-697 | the view starts showing and selecting today |
| Calendar.CalendarView.OnPrev | src/SchedulerApp.cpp:644-666 | the shown date moves back one month or one week, and stays valid. The month step is the one chosen: the day kept and normalised as written, or the first day as corrected. The view mode stays and the selection follows |
| Calendar.CalendarView.OnNext | src/SchedulerApp.cpp:668-690 | the shown date moves on one month or one week, and stays valid. The month step is the one chosen: the day kept and normalised as written, or the first day as corrected. The view mode stays and the selection follows |
| ResourceEmitter.HexToken | src/generate_resources.cpp:78 | each byte becomes "0x" and two lowercase hex digits whose value is the byte |
| ResourceEmitter.AppendPiece | src/generate_resources.cpp:76-82 | one loop step appends the indent at a line start, the token, the comma when not last and the newline after every 16th byte |
| ResourceEmitter.EmitArrayBody | src/generate_resources.cpp:74-85 | the loop writes exactly the array body, with a final newline when the last line is short |
| ResourceEmitter.PieceCounts | src/generate_resources.cpp:76-82 | one step writes one comma unless last and one newline after every 16th byte |
| ResourceEmitter.CommaCount | src/generate_resources.cpp:79-80 | n bytes are separated by n - 1 commas, or none when n = 0 |
| ResourceEmitter.LineCount | src/generate_resources.cpp:81-85 | n bytes take ⌈n / 16⌉ lines |
| ResourceEmitter.BodyEndsLine | src/generate_resources.cpp:81-85 | a non-empty body ends with a newline |
| ResourceEmitter.ArrayBodyReadsBack | src/generate_resources.cpp:74-85 | reading the hex tokens of the body back gives exactly the input bytes |
| ResourceEmitter.Section | src/generate_resources.cpp:68-87 | a resource without data writes nothing, and one with data writes a non-empty section |
| ResourceEmitter.AppendSection | src/generate_resources.cpp:72-87 | one resource appends its comment, array declaration, body, closing and size line |
| ResourceEmitter.EmitResources | src/generate_resources.cpp:66-88 | the loop over resources writes exactly the concatenation of their sections |
| ResourceEmitter.EmptyResourcesVanish | src/generate_resources.cpp:68-70 | adding a file that reads empty changes nothing in the output |
| ResourceEmitter.SizeLineDenotesLength | src/generate_resources.cpp:87 | the size line states the decimal length of the data |

## Left out

- **The GTK layer**:
  - windows, dialogs, widgets and drawing, including the add dialog's widget pointer checks
    at src/SchedulerApp.cpp:1188-1192;
  - the functions that lay out or draw views from a task list.

  The dialog's field values are inputs of `SchedulerRules.DialogInput`.
- **Clocks and time zones**:
  - `time`, `localtime`, `mktime` and `strftime` are not modelled.
  - Times are integers, and the current time is a parameter.
  - Calendar dates carry only year, month and day. The time of day, daylight saving time and
    the start-of-day computation are not modelled; the start of the day is a parameter of
    `SchedulerRules.TasksOnDay`.
- **Threads**: the reminder thread, its mutex, the 30-second sleep and the popup are not
  modelled.
  - `TaskStore.TaskManager.ReminderCheck` is one pass of the loop body. It copies the list,
    then marks each due task of the copy by id in the live list.
  - The code holds the lock only for the copy and for each mark
    (src/TaskManager.cpp:258-261 and 274). Other operations may run between those steps.
    The model runs the pass with nothing interleaved.
- **The regex engine**: `std::regex_search` for "(\d+)分钟前" and the other forms is modelled
  by a leftmost digits-then-suffix search. This is exact for these patterns, because each
  suffix starts with a character that is neither a digit nor a blank.
- **File failures**:
  - Failures to open or write a file are not modelled. A present file is read, and a write
    always succeeds.
  - In the code, a huge name length in a corrupt file makes the name buffer allocation throw.
    The model treats it as a truncated record.
  - A record may end inside its 8-byte name length, leaving 32 to 39 bytes from the record's
    start (src/TaskManager.cpp:121-124). The code's read of the length then fails part-way,
    so the length is indeterminate, and so is the allocation that follows. The model treats
    this as a truncated record too.
- **Other code**: `UserManager`, `md5`, the headers and `SchedulerApp.h` are not part of this
  model. Nor are the header boilerplate, the helper functions, the `main` and the
  `readBinaryFile` I/O of src/generate_resources.cpp; the file contents are a parameter.
- **The today button**: src/SchedulerApp.cpp:692-697 is modelled only as the initial state of
  `Calendar.CalendarView.constructor`. View switching and selection by clicking are not modelled.
- TaskStore.TaskManager.AddTask: the next id and the stored times are unbounded integers. The
  model does not wrap the 64-bit next id, and `Mirrored` is kept only for tasks whose fields fit
  the C++ widths.
- TaskStore.SortByStart: states only "sorted by start and a permutation". `std::sort` is not
  stable, so the order of tasks with equal start times is not specified.
- TaskStore.TaskManager.ReminderCheck: the `reminded` flag is not written to the file (as in
  the code), so after a reload every past reminder is due again.
- SchedulerRules.TaskStatus: the end time `start + duration * 60` is computed without
  overflow. In the dialog, the duration is limited to 1..999999 (src/SchedulerApp.cpp:260), so
  the product cannot overflow there.
- SchedulerRules.ParseReminderWith: the subtraction `start - offset` on `time_t` is exact;
  64-bit overflow of `time_t` is not modelled.

## Findings

| source | as written | input that shows it | evidently intended | confidence | as-written member | corrected member |
|---|---|---|---|---|---|---|
| src/SchedulerApp.cpp:647-663 | month paging changes only `tm_mon` and keeps `tm_mday`, then `mktime` carries a day the target month lacks into the month after | displayed 31 March 2025: "prev" shows 3 March 2025; displayed 31 January 2025: "next" shows 3 March 2025, skipping February | show the adjacent month and select its first day (the comment on line 664 says the first day is selected) | not executed | Calendar.PrevMonthAsWrittenStaysInMarch | Calendar.PrevMonth |
| src/SchedulerApp.cpp:1259 | the day offset `std::stoi(...) * 86400` is an `int` product and wraps (likewise at lines 1251, 1255 and 1266 for larger counts) | "49711天前": 49711 × 86400 = 4295030400 wraps to 63104, so reminder = start - 63104 s and the dialog accepts it when now lies before that | a reminder 49711 days before the start, which is refused as not after now | not executed | SchedulerRules.WrappedDaysAcceptedAsWritten | SchedulerRules.DaysTextReadsBack |
