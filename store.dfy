/** The task store of src/TaskManager.cpp: the TaskManager object holding the
    current user's task list, its id counter and its file, plus the reminder
    flag and one pass of the reminder poll. */
module TaskStore {
  import opened TaskModel
  import opened TaskCodec

  /** The per-user file is `<user>_tasks.dat`. */
  const TASKS_FILE_SUFFIX: string := "_tasks.dat"

  predicate SameId(a: Task, b: Task) {
    a.id == b.id
  }

  /** The store's uniqueness key: name and start time. */
  predicate SameKey(a: Task, b: Task) {
    a.name == b.name && a.startTime == b.startTime
  }

  /** No two entries at different positions clash. */
  ghost predicate NoClash(ts: seq<Task>, clash: (Task, Task) -> bool) {
    forall i, j :: 0 <= i < |ts| && 0 <= j < |ts| && i != j ==> !clash(ts[i], ts[j])
  }

  ghost predicate DistinctIds(ts: seq<Task>) {
    NoClash(ts, SameId)
  }

  ghost predicate UniqueKeys(ts: seq<Task>) {
    NoClash(ts, SameKey)
  }

  ghost predicate IdsBelow(ts: seq<Task>, bound: int) {
    forall i :: 0 <= i < |ts| ==> ts[i].id < bound
  }

  ghost predicate SortedByStart(ts: seq<Task>) {
    forall i, j :: 0 <= i < j < |ts| ==> ts[i].startTime <= ts[j].startTime
  }

  /** Some task of ts has the name and start time of t. */
  ghost predicate HasKey(ts: seq<Task>, t: Task) {
    exists i :: 0 <= i < |ts| && SameKey(ts[i], t)
  }

  /** The largest id in ts, or 0 when there is none larger (loadTasks's max_id). */
  function MaxId(ts: seq<Task>): (m: int)
    ensures m >= 0
    ensures forall i :: 0 <= i < |ts| ==> ts[i].id <= m
    ensures m == 0 || exists i :: 0 <= i < |ts| && ts[i].id == m
  {
    if ts == [] then 0
    else
      var m := MaxId(ts[..|ts| - 1]);
      if ts[|ts| - 1].id > m then ts[|ts| - 1].id else m
  }

  lemma MaxIdSnoc(ts: seq<Task>, t: Task)
    ensures MaxId(ts + [t]) == if t.id > MaxId(ts) then t.id else MaxId(ts)
  {
    assert (ts + [t])[..|ts|] == ts;
  }

  /** The position of the first task with the given id (find_if), or |ts| if none. */
  function FirstIndexWithId(ts: seq<Task>, id: int): (i: nat)
    ensures i <= |ts|
    ensures forall k :: 0 <= k < i ==> ts[k].id != id
    ensures i < |ts| ==> ts[i].id == id
  {
    if ts == [] then 0
    else if ts[0].id == id then 0
    else 1 + FirstIndexWithId(ts[1..], id)
  }

  // ---------------------------------------------------------------------
  // Sorting by start time (std::sort with `a.startTime < b.startTime`)

  function InsertByStart(s: seq<Task>, x: Task): (r: seq<Task>)
    ensures multiset(r) == multiset(s) + multiset{x}
  {
    if s == [] then [x]
    else if x.startTime <= s[0].startTime then [x] + s
    else
      assert s == [s[0]] + s[1..];
      [s[0]] + InsertByStart(s[1..], x)
  }

  /** Inserting keeps a list sorted by start time sorted. */
  lemma {:induction false} InsertKeepsSorted(s: seq<Task>, x: Task)
    requires SortedByStart(s)
    ensures SortedByStart(InsertByStart(s, x))
  {
    if s == [] {
    } else if x.startTime <= s[0].startTime {
      ConsSorted(x, s);
    } else {
      var t := InsertByStart(s[1..], x);
      InsertKeepsSorted(s[1..], x);
      forall k | 0 <= k < |t| ensures s[0].startTime <= t[k].startTime {
        assert t[k] in multiset(s[1..]) + multiset{x};
      }
      ConsSorted(s[0], t);
    }
  }

  /** A task no later than every task of a sorted list can go in front of it. */
  lemma ConsSorted(h: Task, t: seq<Task>)
    requires SortedByStart(t) && forall k :: 0 <= k < |t| ==> h.startTime <= t[k].startTime
    ensures SortedByStart([h] + t)
  {
    var r := [h] + t;
    assert forall k :: 1 <= k < |r| ==> r[k] == t[k - 1];
  }

  /** addTask's uniqueness scan: whether a task with the same name and start
      time is already in the list. */
  method KeyTaken(ts: seq<Task>, task: Task) returns (taken: bool)
    ensures taken <==> HasKey(ts, task)
  {
    var i := 0;
    while i < |ts|
      invariant 0 <= i <= |ts|
      invariant forall k :: 0 <= k < i ==> !SameKey(ts[k], task)
    {
      if ts[i].name == task.name && ts[i].startTime == task.startTime {
        return true;
      }
      i := i + 1;
    }
    return false;
  }

  /** The source uses an unstable sort, so only sortedness and permutation are promised. */
  method SortByStart(s: seq<Task>) returns (r: seq<Task>)
    ensures SortedByStart(r)
    ensures multiset(r) == multiset(s)
  {
    r := [];
    for i := 0 to |s|
      invariant SortedByStart(r)
      invariant multiset(r) == multiset(s[..i])
    {
      InsertKeepsSorted(r, s[i]);
      r := InsertByStart(r, s[i]);
      assert s[..i + 1] == s[..i] + [s[i]];
    }
    assert s[..|s|] == s;
  }

  // ---------------------------------------------------------------------
  // Permutations keep the store's invariants

  lemma CountAtLeastTwo(s: seq<Task>, i: int, j: int)
    requires 0 <= i < |s| && 0 <= j < |s| && i != j && s[i] == s[j]
    ensures multiset(s)[s[i]] >= 2
  {
    var lo, hi := if i < j then i else j, if i < j then j else i;
    assert s == s[..hi] + [s[hi]] + s[hi + 1..];
    assert s[lo] in s[..hi];
  }

  lemma TwoOccurrences(s: seq<Task>, x: Task)
    requires multiset(s)[x] >= 2
    ensures exists i, j :: 0 <= i < |s| && 0 <= j < |s| && i != j && s[i] == x && s[j] == x
  {
    assert x in multiset(s);
    var i :| 0 <= i < |s| && s[i] == x;
    var r := s[..i] + s[i + 1..];
    assert s == s[..i] + [s[i]] + s[i + 1..];
    assert multiset(r)[x] >= 1;
    assert x in multiset(r);
    var k :| 0 <= k < |r| && r[k] == x;
    var j := if k < i then k else k + 1;
    assert s[j] == x;
  }

  lemma PermutationKeepsNoClash(a: seq<Task>, b: seq<Task>, clash: (Task, Task) -> bool)
    requires multiset(a) == multiset(b) && NoClash(a, clash)
    ensures NoClash(b, clash)
  {
    forall i, j | 0 <= i < |b| && 0 <= j < |b| && i != j
      ensures !clash(b[i], b[j])
    {
      if b[i] == b[j] {
        CountAtLeastTwo(b, i, j);
        TwoOccurrences(a, b[i]);
      } else {
        assert b[i] in multiset(a) && b[j] in multiset(a);
        var i' :| 0 <= i' < |a| && a[i'] == b[i];
        var j' :| 0 <= j' < |a| && a[j'] == b[j];
        assert i' != j';
      }
    }
  }

  lemma PermutationKeepsIdsBelow(a: seq<Task>, b: seq<Task>, bound: int)
    requires multiset(a) == multiset(b) && IdsBelow(a, bound)
    ensures IdsBelow(b, bound)
  {
    forall i | 0 <= i < |b| ensures b[i].id < bound {
      assert b[i] in multiset(a);
    }
  }

  lemma PermutationKeepsRepresentable(a: seq<Task>, b: seq<Task>)
    requires multiset(a) == multiset(b) && AllRepresentable(a)
    ensures AllRepresentable(b)
  {
    forall i | 0 <= i < |b| ensures Representable(b[i]) {
      assert b[i] in multiset(a);
    }
  }

  lemma StoredAllAppend(a: seq<Task>, b: seq<Task>)
    ensures StoredAll(a + b) == StoredAll(a) + StoredAll(b)
  {
  }

  lemma SplitAt<T>(s: seq<T>, k: int)
    requires 0 <= k < |s|
    ensures s == s[..k] + [s[k]] + s[k + 1..]
  {
  }

  lemma SnocAssoc<T>(a: seq<T>, x: T, b: seq<T>, c: seq<T>)
    requires c == [x] + b
    ensures (a + [x]) + b == a + c
  {
  }

  lemma RemoveOne<T>(s: seq<T>, k: int)
    requires 0 <= k < |s|
    ensures multiset(s[..k] + s[k + 1..]) == multiset(s) - multiset{s[k]}
  {
    assert s == s[..k] + [s[k]] + s[k + 1..];
  }

  lemma StoredMultisetAppend(a: seq<Task>, b: seq<Task>)
    ensures multiset(StoredAll(a + b)) == multiset(StoredAll(a)) + multiset(StoredAll(b))
  {
    StoredAllAppend(a, b);
  }

  /** Taking one task out of a list and persisting commute, counted as multisets. */
  lemma StoredRemoveOne(front: seq<Task>, x: Task, back: seq<Task>)
    ensures multiset(StoredAll(front + [x] + back)) == multiset(StoredAll(front + back)) + multiset{Stored(x)}
  {
    StoredMultisetAppend(front + [x], back);
    StoredMultisetAppend(front, [x]);
    StoredMultisetAppend(front, back);
    assert StoredAll([x]) == [Stored(x)];
  }

  /** Taking away a[0] from a, and the same task at position k from b,
      leaves permutations of each other. */
  lemma RemoveMatching(a: seq<Task>, b: seq<Task>, k: int)
    requires multiset(a) == multiset(b) && a != [] && 0 <= k < |b| && b[k] == a[0]
    ensures multiset(a[1..]) == multiset(b[..k] + b[k + 1..])
  {
    assert a == [a[0]] + a[1..];
    assert multiset(a[1..]) == multiset(a) - multiset{a[0]};
    RemoveOne(b, k);
  }

  lemma StoredRemoveFirst(a: seq<Task>)
    requires a != []
    ensures multiset(StoredAll(a)) == multiset(StoredAll(a[1..])) + multiset{Stored(a[0])}
  {
    assert a == [a[0]] + a[1..];
    StoredMultisetAppend([a[0]], a[1..]);
    assert StoredAll([a[0]]) == [Stored(a[0])];
  }

  lemma {:induction false} PermutationKeepsStored(a: seq<Task>, b: seq<Task>)
    requires multiset(a) == multiset(b)
    ensures multiset(StoredAll(a)) == multiset(StoredAll(b))
    decreases |a|
  {
    if a == [] {
      assert |b| == |multiset(b)| == 0;
    } else {
      assert a[0] in multiset(b);
      var k :| 0 <= k < |b| && b[k] == a[0];
      var rest := b[..k] + b[k + 1..];
      RemoveMatching(a, b, k);
      PermutationKeepsStored(a[1..], rest);
      StoredRemoveFirst(a);
      SplitAt(b, k);
      StoredRemoveOne(b[..k], b[k], b[k + 1..]);
    }
  }

  /** Appending a task with a fresh id and an unused key keeps the store's invariants. */
  lemma AppendFreshKeepsInvariants(ts: seq<Task>, t: Task, bound: int)
    requires IdsBelow(ts, bound) && DistinctIds(ts) && UniqueKeys(ts)
    requires t.id == bound && !HasKey(ts, t)
    ensures IdsBelow(ts + [t], bound + 1) && DistinctIds(ts + [t]) && UniqueKeys(ts + [t])
  {
    var r := ts + [t];
    forall a, b | 0 <= a < |r| && 0 <= b < |r| && a != b
      ensures !SameId(r[a], r[b]) && !SameKey(r[a], r[b])
    {
      if a < |ts| && b < |ts| {
        assert !SameId(ts[a], ts[b]) && !SameKey(ts[a], ts[b]);
      } else if a < |ts| {
        assert !SameKey(ts[a], t);
      } else {
        assert !SameKey(ts[b], t);
      }
    }
  }

  lemma AppendKeepsStoredPermutation(a: seq<Task>, b: seq<Task>, t: Task)
    requires multiset(StoredAll(a)) == multiset(StoredAll(b))
    ensures multiset(StoredAll(a + [t])) == multiset(StoredAll(b + [t]))
  {
    StoredAllAppend(a, [t]);
    StoredAllAppend(b, [t]);
  }

  /** Persisting keeps ids, names and start times, so the invariants carry over. */
  lemma StoredKeepsDistinctIds(ts: seq<Task>)
    ensures DistinctIds(ts) <==> DistinctIds(StoredAll(ts))
  {
    var s := StoredAll(ts);
    forall i | 0 <= i < |ts| ensures s[i].id == ts[i].id {
    }
  }

  lemma StoredKeepsUniqueKeys(ts: seq<Task>)
    ensures UniqueKeys(ts) <==> UniqueKeys(StoredAll(ts))
  {
    var s := StoredAll(ts);
    forall i | 0 <= i < |ts| ensures s[i].name == ts[i].name && s[i].startTime == ts[i].startTime {
    }
  }

  lemma StoredKeepsNoClash(ts: seq<Task>)
    ensures DistinctIds(ts) <==> DistinctIds(StoredAll(ts))
    ensures UniqueKeys(ts) <==> UniqueKeys(StoredAll(ts))
  {
    StoredKeepsDistinctIds(ts);
    StoredKeepsUniqueKeys(ts);
  }



  // ---------------------------------------------------------------------
  // The reminder poll (one sequential pass of reminderCheckLoop)

  /** The poll's selection condition. */
  predicate Due(t: Task, now: int) {
    t.reminderTime > 0 && t.reminderTime <= now && !t.reminded
  }

  /** The tasks the poll selects, in list order. */
  function DueTasks(ts: seq<Task>, now: int): (r: seq<Task>)
    ensures forall t :: t in r <==> t in ts && Due(t, now)
    ensures |r| <= |ts|
  {
    if ts == [] then []
    else (if Due(ts[0], now) then [ts[0]] else []) + DueTasks(ts[1..], now)
  }

  /** The ids of the due tasks among the first k. */
  ghost function DueIdsBefore(ts: seq<Task>, k: int, now: int): set<int> {
    set i | 0 <= i < k && i < |ts| && Due(ts[i], now) :: ts[i].id
  }

  ghost function DueIds(ts: seq<Task>, now: int): set<int> {
    DueIdsBefore(ts, |ts|, now)
  }

  lemma DueIdsBeforeStep(ts: seq<Task>, k: int, now: int)
    requires 0 <= k < |ts|
    ensures DueIdsBefore(ts, k + 1, now) ==
      DueIdsBefore(ts, k, now) + (if Due(ts[k], now) then {ts[k].id} else {})
  {
  }

  ghost predicate IsFirstWithId(ts: seq<Task>, j: int)
    requires 0 <= j < |ts|
  {
    forall k :: 0 <= k < j ==> ts[k].id != ts[j].id
  }

  /** The list after the first task with each id in `ids` is marked reminded
      (the poll looks each task up again by id with find_if). */
  ghost function AfterReminders(ts: seq<Task>, ids: set<int>): (r: seq<Task>)
    ensures |r| == |ts|
  {
    seq(|ts|, j requires 0 <= j < |ts| =>
      if ts[j].id in ids && IsFirstWithId(ts, j) then ts[j].(reminded := true) else ts[j])
  }

  lemma AfterRemindersCompose(ts: seq<Task>, s: set<int>, t: set<int>)
    ensures AfterReminders(AfterReminders(ts, s), t) == AfterReminders(ts, s + t)
  {
    var r := AfterReminders(ts, s);
    assert forall j :: 0 <= j < |ts| ==> r[j].id == ts[j].id;
    assert forall j :: 0 <= j < |ts| ==> (IsFirstWithId(r, j) <==> IsFirstWithId(ts, j));
  }

  /** A pass changes nothing that is persisted. */
  lemma AfterRemindersStored(ts: seq<Task>, ids: set<int>)
    ensures StoredAll(AfterReminders(ts, ids)) == StoredAll(ts)
  {
    var r := AfterReminders(ts, ids);
    assert forall j :: 0 <= j < |ts| ==> Stored(r[j]) == Stored(ts[j]);
  }

  /** With distinct ids, one pass marks exactly the due tasks and changes
      nothing else. */
  lemma ReminderPassMarksDue(ts: seq<Task>, now: int)
    requires DistinctIds(ts)
    ensures forall j :: 0 <= j < |ts| ==>
      AfterReminders(ts, DueIds(ts, now))[j] ==
        if Due(ts[j], now) then ts[j].(reminded := true) else ts[j]
  {
    forall j | 0 <= j < |ts|
      ensures ts[j].id in DueIds(ts, now) <==> Due(ts[j], now)
      ensures IsFirstWithId(ts, j)
    {
      if ts[j].id in DueIds(ts, now) {
        var i :| 0 <= i < |ts| && Due(ts[i], now) && ts[i].id == ts[j].id;
        assert i == j;
      }
      assert forall k :: 0 <= k < j ==> !SameId(ts[k], ts[j]);
    }
  }

  lemma {:induction false} NoneDueSelectsNothing(ts: seq<Task>, now: int)
    requires forall j :: 0 <= j < |ts| ==> !Due(ts[j], now)
    ensures DueTasks(ts, now) == []
  {
    if ts != [] {
      NoneDueSelectsNothing(ts[1..], now);
    }
  }

  /** A task the pass marked is never selected again, and with distinct ids no
      task is left due at the same instant. */
  lemma ReminderPassIsOneShot(ts: seq<Task>, now: int, later: int)
    requires DistinctIds(ts)
    ensures forall j :: 0 <= j < |ts| && Due(ts[j], now) ==>
      !Due(AfterReminders(ts, DueIds(ts, now))[j], later)
    ensures DueTasks(AfterReminders(ts, DueIds(ts, now)), now) == []
  {
    ReminderPassMarksDue(ts, now);
    var r := AfterReminders(ts, DueIds(ts, now));
    NoneDueSelectsNothing(r, now);
  }

  /** A second pass at the same instant changes nothing. */
  lemma ReminderPassIdempotent(ts: seq<Task>, now: int)
    ensures AfterReminders(AfterReminders(ts, DueIds(ts, now)), DueIds(AfterReminders(ts, DueIds(ts, now)), now))
         == AfterReminders(ts, DueIds(ts, now))
  {
    var r := AfterReminders(ts, DueIds(ts, now));
    var r2 := AfterReminders(r, DueIds(r, now));
    assert forall j :: 0 <= j < |ts| ==> r[j].id == ts[j].id;
    assert forall j :: 0 <= j < |ts| ==> (IsFirstWithId(r, j) <==> IsFirstWithId(ts, j));
    forall j | 0 <= j < |ts| ensures r2[j] == r[j] {
      if r[j].id in DueIds(r, now) && IsFirstWithId(r, j) {
        var i :| 0 <= i < |r| && Due(r[i], now) && r[i].id == r[j].id;
        assert Due(ts[i], now) && ts[i].id == r[j].id;
        assert ts[j].id in DueIds(ts, now);
      }
    }
  }

  // ---------------------------------------------------------------------
  // The store's invariants, stated on values

  /** Distinct ids, all below the counter, unique (name, startTime), sorted by start. */
  ghost predicate StoreInvariant(ts: seq<Task>, nextId: int) {
    nextId >= 1 && IdsBelow(ts, nextId) && DistinctIds(ts) && UniqueKeys(ts) && SortedByStart(ts)
  }

  /** The file holds exactly the records of the tasks, in the order `order`. */
  ghost predicate FileMirrors(file: Bytes, order: seq<Task>, ts: seq<Task>) {
    file == EncodeAll(order) && AllRepresentable(order) && AllRepresentable(ts) &&
    multiset(StoredAll(order)) == multiset(StoredAll(ts))
  }

  /** addTask keeps the invariant: a fresh id, an unused key, then a sort. */
  lemma AddKeepsInvariant(before: seq<Task>, t: Task, bound: int, after: seq<Task>)
    requires StoreInvariant(before, bound)
    requires t.id == bound && !HasKey(before, t)
    requires SortedByStart(after) && multiset(after) == multiset(before + [t])
    ensures StoreInvariant(after, bound + 1)
  {
    AppendFreshKeepsInvariants(before, t, bound);
    PermutationKeepsIdsBelow(before + [t], after, bound + 1);
    PermutationKeepsNoClash(before + [t], after, SameId);
    PermutationKeepsNoClash(before + [t], after, SameKey);
  }

  lemma AppendedRecordFile(file: Bytes, order: seq<Task>, t: Task)
    requires file == EncodeAll(order) && AllRepresentable(order) && Representable(t)
    ensures file + EncodeTask(t) == EncodeAll(order + [t]) && AllRepresentable(order + [t])
  {
    SaveTaskAppends(order, t);
    AppendKeepsRepresentable(order, t);
  }

  lemma AppendedRecordList(order: seq<Task>, before: seq<Task>, t: Task, after: seq<Task>)
    requires multiset(StoredAll(order)) == multiset(StoredAll(before))
    requires AllRepresentable(before) && Representable(t)
    requires multiset(after) == multiset(before + [t])
    ensures multiset(StoredAll(order + [t])) == multiset(StoredAll(after)) && AllRepresentable(after)
  {
    assert multiset(StoredAll(order + [t])) == multiset(StoredAll(after)) by {
      AppendKeepsStoredPermutation(order, before, t);
      PermutationKeepsStored(before + [t], after);
    }
    assert AllRepresentable(after) by {
      AppendKeepsRepresentable(before, t);
      PermutationKeepsRepresentable(before + [t], after);
    }
  }

  lemma AppendKeepsRepresentable(ts: seq<Task>, t: Task)
    requires AllRepresentable(ts) && Representable(t)
    ensures AllRepresentable(ts + [t])
  {
    forall i | 0 <= i < |ts| + 1 ensures Representable((ts + [t])[i]) {
      if i < |ts| {
        assert (ts + [t])[i] == ts[i];
      }
    }
  }

  /** What addTask ends with, from whatever store it started with. */
  lemma AddedStore(file: Bytes, order: seq<Task>, before: seq<Task>, t: Task, bound: int, after: seq<Task>)
    requires t.id == bound && !HasKey(before, t)
    requires SortedByStart(after) && multiset(after) == multiset(before + [t])
    ensures StoreInvariant(before, bound) ==> StoreInvariant(after, bound + 1)
    ensures FileMirrors(file, order, before) && Representable(t) ==>
      FileMirrors(file + EncodeTask(t), order + [t], after)
  {
    if StoreInvariant(before, bound) {
      AddKeepsInvariant(before, t, bound, after);
    }
    if FileMirrors(file, order, before) && Representable(t) {
      AddKeepsMirror(file, order, before, t, after);
    }
  }

  lemma AddKeepsMirror(file: Bytes, order: seq<Task>, before: seq<Task>, t: Task, after: seq<Task>)
    requires FileMirrors(file, order, before) && Representable(t)
    requires multiset(after) == multiset(before + [t])
    ensures FileMirrors(file + EncodeTask(t), order + [t], after)
  {
    AppendedRecordFile(file, order, t);
    AppendedRecordList(order, before, t, after);
  }

  /** deleteTask keeps the invariant and, after the rewrite, the mirror. */
  lemma RemoveKeepsStore(ts: seq<Task>, i: int, bound: int, file: Bytes, order: seq<Task>)
    requires 0 <= i < |ts|
    ensures StoreInvariant(ts, bound) ==> StoreInvariant(ts[..i] + ts[i + 1..], bound)
    ensures FileMirrors(file, order, ts) ==>
      FileMirrors(EncodeAll(ts[..i] + ts[i + 1..]), ts[..i] + ts[i + 1..], ts[..i] + ts[i + 1..])
  {
    RemoveAtKeepsInvariants(ts, i, bound);
  }

  /** Reading back a mirrored file yields the persisted fields of the list,
      and the list's invariant carries over to the records read. */
  lemma MirroredFileReadsBack(file: Bytes, order: seq<Task>, ts: seq<Task>)
    requires FileMirrors(file, order, ts)
    ensures NoTruncatedTail(file)
    ensures multiset(DecodeAll(file)) == multiset(StoredAll(ts))
    ensures DistinctIds(ts) ==> DistinctIds(DecodeAll(file))
    ensures UniqueKeys(ts) ==> UniqueKeys(DecodeAll(file))
  {
    RoundTrip(order);
    EncodedHasNoTruncatedTail(order);
    StoredKeepsNoClash(ts);
    if DistinctIds(ts) {
      PermutationKeepsNoClash(StoredAll(ts), DecodeAll(file), SameId);
    }
    if UniqueKeys(ts) {
      PermutationKeepsNoClash(StoredAll(ts), DecodeAll(file), SameKey);
    }
  }

  /** What loadTasks builds from a file: the invariant when the records have
      distinct ids and keys, and the mirror when the file has no truncated tail. */
  lemma LoadedStore(file: Bytes, ts: seq<Task>, nextId: int)
    requires SortedByStart(ts) && multiset(ts) == multiset(DecodeAll(file))
    requires nextId == MaxId(DecodeAll(file)) + 1
    ensures DistinctIds(DecodeAll(file)) && UniqueKeys(DecodeAll(file)) ==> StoreInvariant(ts, nextId)
    ensures NoTruncatedTail(file) ==> FileMirrors(file, DecodeAll(file), ts)
  {
    var loaded := DecodeAll(file);
    if DistinctIds(loaded) && UniqueKeys(loaded) {
      assert StoreInvariant(ts, nextId) by {
        PermutationKeepsIdsBelow(loaded, ts, nextId);
        PermutationKeepsNoClash(loaded, ts, SameId);
        PermutationKeepsNoClash(loaded, ts, SameKey);
      }
    }
    if NoTruncatedTail(file) {
      assert AllRepresentable(ts) by {
        PermutationKeepsRepresentable(loaded, ts);
      }
      assert multiset(StoredAll(loaded)) == multiset(StoredAll(ts)) by {
        PermutationKeepsStored(loaded, ts);
      }
    }
  }

  /** What setCurrentUser ends with: the store loadTasks builds from `file`,
      related to a store that mirrored the same file beforehand. */
  lemma SwitchedStore(file: Bytes, order: seq<Task>, ts: seq<Task>, nextId: int,
                      oldOrder: seq<Task>, oldTasks: seq<Task>, oldNext: int)
    requires SortedByStart(ts) && multiset(ts) == multiset(DecodeAll(file))
    requires nextId == MaxId(DecodeAll(file)) + 1 && order == DecodeAll(file)
    ensures DistinctIds(order) && UniqueKeys(order) ==> StoreInvariant(ts, nextId)
    ensures NoTruncatedTail(file) ==> FileMirrors(file, order, ts)
    ensures FileMirrors(file, oldOrder, oldTasks) ==> multiset(ts) == multiset(StoredAll(oldTasks))
    ensures StoreInvariant(oldTasks, oldNext) && FileMirrors(file, oldOrder, oldTasks) ==>
      StoreInvariant(ts, nextId) && FileMirrors(file, order, ts)
  {
    LoadedStore(file, ts, nextId);
    if FileMirrors(file, oldOrder, oldTasks) {
      MirroredFileReadsBack(file, oldOrder, oldTasks);
    }
  }

  /** Two lists that agree position by position on id, name and start time. */
  ghost predicate SameKeysAt(a: seq<Task>, b: seq<Task>) {
    |a| == |b| && forall j :: 0 <= j < |a| ==> a[j].id == b[j].id && SameKey(a[j], b[j])
  }

  lemma SameKeysKeepInvariant(a: seq<Task>, b: seq<Task>, bound: int)
    requires SameKeysAt(a, b) && StoreInvariant(a, bound)
    ensures StoreInvariant(b, bound)
  {
    assert IdsBelow(b, bound);
    assert DistinctIds(b) by {
      forall i, j | 0 <= i < |b| && 0 <= j < |b| && i != j ensures !SameId(b[i], b[j]) {
        assert !SameId(a[i], a[j]);
      }
    }
    assert UniqueKeys(b) by {
      forall i, j | 0 <= i < |b| && 0 <= j < |b| && i != j ensures !SameKey(b[i], b[j]) {
        assert !SameKey(a[i], a[j]);
      }
    }
    assert SortedByStart(b);
  }

  lemma AfterRemindersKeepsStore(ts: seq<Task>, ids: set<int>, bound: int, file: Bytes, order: seq<Task>)
    ensures StoreInvariant(ts, bound) ==> StoreInvariant(AfterReminders(ts, ids), bound)
    ensures FileMirrors(file, order, ts) ==> FileMirrors(file, order, AfterReminders(ts, ids))
  {
    var r := AfterReminders(ts, ids);
    assert SameKeysAt(ts, r);
    if StoreInvariant(ts, bound) {
      SameKeysKeepInvariant(ts, r, bound);
    }
    if FileMirrors(file, order, ts) {
      assert AllRepresentable(r) by {
        forall j | 0 <= j < |r| ensures Representable(r[j]) {
          assert Representable(ts[j]);
        }
      }
      AfterRemindersStored(ts, ids);
    }
  }


  // ---------------------------------------------------------------------
  // Removing one element keeps the rest in order.

  lemma RemoveAtKeepsInvariants(s: seq<Task>, i: int, bound: int)
    requires 0 <= i < |s|
    ensures var r := s[..i] + s[i + 1..];
      (DistinctIds(s) ==> DistinctIds(r)) && (UniqueKeys(s) ==> UniqueKeys(r)) &&
      (IdsBelow(s, bound) ==> IdsBelow(r, bound)) && (SortedByStart(s) ==> SortedByStart(r)) &&
      (AllRepresentable(s) ==> AllRepresentable(r))
  {
    var r := s[..i] + s[i + 1..];
    if DistinctIds(s) {
      RemoveAtKeepsDistinctIds(s, i, r);
    }
    if UniqueKeys(s) {
      RemoveAtKeepsUniqueKeys(s, i, r);
    }
    if IdsBelow(s, bound) || SortedByStart(s) || AllRepresentable(s) {
      RemoveAtShape(s, i, r);
    }
  }

  /** Position k of the shortened list is position k or k + 1 of the original. */
  lemma RemoveAtShape(s: seq<Task>, i: int, r: seq<Task>)
    requires 0 <= i < |s| && r == s[..i] + s[i + 1..]
    ensures |r| == |s| - 1
    ensures forall k :: 0 <= k < |r| ==> r[k] == s[if k < i then k else k + 1]
  {
  }

  lemma RemoveAtKeepsDistinctIds(s: seq<Task>, i: int, r: seq<Task>)
    requires 0 <= i < |s| && r == s[..i] + s[i + 1..] && DistinctIds(s)
    ensures DistinctIds(r)
  {
    RemoveAtShape(s, i, r);
    forall a, b | 0 <= a < |r| && 0 <= b < |r| && a != b
      ensures !SameId(r[a], r[b])
    {
      assert !SameId(s[if a < i then a else a + 1], s[if b < i then b else b + 1]);
    }
  }

  lemma RemoveAtKeepsUniqueKeys(s: seq<Task>, i: int, r: seq<Task>)
    requires 0 <= i < |s| && r == s[..i] + s[i + 1..] && UniqueKeys(s)
    ensures UniqueKeys(r)
  {
    RemoveAtShape(s, i, r);
    forall a, b | 0 <= a < |r| && 0 <= b < |r| && a != b
      ensures !SameKey(r[a], r[b])
    {
      assert !SameKey(s[if a < i then a else a + 1], s[if b < i then b else b + 1]);
    }
  }

  lemma EmptyFront<T>(s: seq<T>)
    ensures [] + s == s
  {
  }

  lemma EmptyBack<T>(s: seq<T>)
    ensures s + [] == s
  {
  }

  /** loadTasks's read loop: records are read until the end of the file or
      until a record's fixed fields, name length or name are cut short, while
      the largest id is tracked. */
  method ReadRecords(bytes: Bytes) returns (loaded: seq<Task>, maxId: int)
    ensures loaded == DecodeAll(bytes)
    ensures maxId == MaxId(loaded)
  {
    loaded := [];
    maxId := 0;
    var rest := bytes;
    EmptyFront(DecodeAll(bytes));
    while |rest| > 0
      invariant loaded + DecodeAll(rest) == DecodeAll(bytes)
      invariant maxId == MaxId(loaded)
      decreases |rest|
    {
      if |rest| < FIXED_FIELDS {
        // the fixed fields are cut short
        CutShort(rest);
        break;
      }
      if |rest| < HEADER_SIZE {
        // the name length is cut short
        CutShort(rest);
        break;
      }
      var nameLen := DecodeLE(rest[FIXED_FIELDS..HEADER_SIZE]);
      if |rest| - HEADER_SIZE < nameLen {
        // the name is cut short
        CutShort(rest);
        break;
      }
      DecodeStep(rest);
      var t := DecodeRecord(rest[..HEADER_SIZE], rest[HEADER_SIZE..HEADER_SIZE + nameLen]);
      var next := rest[HEADER_SIZE + nameLen..];
      SnocAssoc(loaded, t, DecodeAll(next), DecodeAll(rest));
      MaxIdSnoc(loaded, t);
      loaded := loaded + [t];
      if t.id > maxId {
        maxId := t.id;
      }
      rest := next;
    }
    assert DecodeAll(rest) == [];
    EmptyBack(loaded);
  }

  class TaskManager {
    var tasks: seq<Task>
    var nextId: int
    var currentUser: string
    var tasksFile: string
    /** The file system the store reads and writes: path to contents, a
        missing path being a file that does not exist. */
    var disk: map<string, Bytes>
    /** m_running: whether the reminder thread is running. */
    var reminderRunning: bool
    /** The tasks whose records the current file holds, in file order. */
    ghost var fileOrder: seq<Task>

    /** The current user's file; a missing file reads as empty. */
    function File(): Bytes
      reads this
    {
      if tasksFile in disk then disk[tasksFile] else []
    }

    ghost predicate Valid()
      reads this
    {
      StoreInvariant(tasks, nextId)
    }

    ghost predicate Mirrored()
      reads this
    {
      FileMirrors(File(), fileOrder, tasks)
    }

    constructor (files: map<string, Bytes>)
      ensures tasks == [] && nextId == 1 && currentUser == "" && tasksFile == ""
      ensures disk == files && !reminderRunning
      ensures Valid()
    {
      tasks := [];
      nextId := 1;
      currentUser := "";
      tasksFile := "";
      disk := files;
      reminderRunning := false;
      fileOrder := [];
    }

    /** Switches to a user: resets the list and the counter, then loads the
        user's file. Reloading the same file gives back the persisted fields
        of the tasks that were in memory. */
    method SetCurrentUser(username: string)
      modifies this
      ensures currentUser == username && tasksFile == username + TASKS_FILE_SUFFIX
      ensures disk == old(disk) && reminderRunning == old(reminderRunning)
      ensures SortedByStart(tasks) && multiset(tasks) == multiset(DecodeAll(File()))
      ensures nextId == MaxId(DecodeAll(File())) + 1
      ensures DistinctIds(DecodeAll(File())) && UniqueKeys(DecodeAll(File())) ==> Valid()
      ensures NoTruncatedTail(File()) ==> Mirrored()
      ensures old(Mirrored()) && old(tasksFile) == tasksFile ==>
        multiset(tasks) == multiset(StoredAll(old(tasks)))
      ensures old(Valid()) && old(Mirrored()) && old(tasksFile) == tasksFile ==> Valid() && Mirrored()
    {
      ghost var oldTasks, oldOrder, oldNext := tasks, fileOrder, nextId;
      currentUser := username;
      tasksFile := username + TASKS_FILE_SUFFIX;
      tasks := [];
      nextId := 1;
      fileOrder := [];
      LoadTasks();
      if tasksFile !in disk {
        assert DecodeAll(File()) == [];
      }
      SwitchedStore(File(), fileOrder, tasks, nextId, oldOrder, oldTasks, oldNext);
    }

    /** loadTasks: nothing when the file cannot be opened; otherwise the
        records it reads become the list, sorted by start time, and the
        counter resumes after the largest id read. */
    method LoadTasks()
      modifies this`tasks, this`nextId, this`fileOrder
      ensures tasksFile !in disk ==>
        tasks == old(tasks) && nextId == old(nextId) && fileOrder == old(fileOrder)
      ensures tasksFile in disk ==> SortedByStart(tasks)
      ensures tasksFile in disk ==> multiset(tasks) == multiset(DecodeAll(File()))
      ensures tasksFile in disk ==> nextId == MaxId(DecodeAll(File())) + 1
      ensures tasksFile in disk ==> fileOrder == DecodeAll(File())
    {
      if tasksFile !in disk {
        return;
      }
      var loaded, maxId := ReadRecords(disk[tasksFile]);
      nextId := maxId + 1;
      tasks := SortByStart(loaded);
      fileOrder := loaded;
    }

    /** saveTask: appends one record to the current file (creating it). */
    method SaveTask(t: Task)
      modifies this`disk
      ensures disk == old(disk)[tasksFile := old(File()) + EncodeTask(t)]
    {
      disk := disk[tasksFile := File() + EncodeTask(t)];
    }

    /** rewriteTasksFile: replaces the current file by the records of all tasks. */
    method RewriteTasksFile()
      modifies this`disk
      ensures disk == old(disk)[tasksFile := EncodeAll(tasks)]
    {
      var ts := tasks;
      var out: Bytes := [];
      for i := 0 to |ts|
        invariant out == EncodeAll(ts[..i])
        invariant disk == old(disk)
      {
        SaveTaskAppends(ts[..i], ts[i]);
        assert ts[..i + 1] == ts[..i] + [ts[i]];
        out := out + EncodeTask(ts[i]);
      }
      assert ts[..|ts|] == ts;
      disk := disk[tasksFile := out];
    }

    /** addTask: refuses a task whose name and start time are taken; otherwise
        stores it under the next id, appends its record and re-sorts. */
    method AddTask(task: Task) returns (ok: bool)
      modifies this
      ensures ok <==> !HasKey(old(tasks), task)
      ensures !ok ==> tasks == old(tasks) && nextId == old(nextId) && disk == old(disk)
      ensures ok ==> nextId == old(nextId) + 1
      ensures ok ==> SortedByStart(tasks)
      ensures ok ==> multiset(tasks) == multiset(old(tasks)) + multiset{task.(id := old(nextId))}
      ensures ok ==> disk == old(disk)[tasksFile := old(File()) + EncodeTask(task.(id := old(nextId)))]
      ensures currentUser == old(currentUser) && tasksFile == old(tasksFile)
      ensures reminderRunning == old(reminderRunning)
      ensures old(Valid()) ==> Valid()
      ensures old(Mirrored()) && Representable(task.(id := old(nextId))) ==> Mirrored()
    {
      var taken := KeyTaken(tasks, task);
      if taken {
        ok := false;
        return;
      }
      ghost var before, order, file := tasks, fileOrder, File();
      var newTask := task.(id := nextId);
      assert !HasKey(before, newTask);
      nextId := nextId + 1;
      tasks := tasks + [newTask];
      SaveTask(newTask);
      fileOrder := fileOrder + [newTask];
      tasks := SortByStart(tasks);
      ok := true;
      AddedStore(file, order, before, newTask, nextId - 1, tasks);
    }

    /** deleteTask: removes the first task with the id and rewrites the file. */
    method DeleteTask(taskId: int) returns (ok: bool)
      modifies this
      ensures ok <==> exists i :: 0 <= i < |old(tasks)| && old(tasks)[i].id == taskId
      ensures !ok ==> tasks == old(tasks) && disk == old(disk)
      ensures ok ==> var i := FirstIndexWithId(old(tasks), taskId);
        tasks == old(tasks)[..i] + old(tasks)[i + 1..]
      ensures ok ==> disk == old(disk)[tasksFile := EncodeAll(tasks)]
      ensures nextId == old(nextId) && currentUser == old(currentUser) && tasksFile == old(tasksFile)
      ensures reminderRunning == old(reminderRunning)
      ensures old(Valid()) ==> Valid()
      ensures old(Mirrored()) ==> Mirrored()
    {
      var i := FindById(taskId);
      if i < |tasks| {
        RemoveKeepsStore(tasks, i, nextId, File(), fileOrder);
        tasks := tasks[..i] + tasks[i + 1..];
        RewriteTasksFile();
        fileOrder := tasks;
        ok := true;
      } else {
        ok := false;
      }
    }

    /** getAllTasks: a copy of the (sorted) list. */
    method GetAllTasks() returns (r: seq<Task>)
      ensures r == tasks
    {
      r := tasks;
    }

    /** The find_if by id shared by deleteTask and the reminder poll. */
    method FindById(taskId: int) returns (i: nat)
      ensures i == FirstIndexWithId(tasks, taskId)
    {
      i := 0;
      while i < |tasks| && tasks[i].id != taskId
        invariant i <= |tasks|
        invariant forall k :: 0 <= k < i ==> tasks[k].id != taskId
      {
        i := i + 1;
      }
    }

    /** startReminderThread: a no-op when already running. */
    method StartReminderThread()
      modifies this`reminderRunning
      ensures reminderRunning
    {
      if reminderRunning {
        return;
      }
      reminderRunning := true;
    }

    /** stopReminderThread: a no-op when already stopped. */
    method StopReminderThread()
      modifies this`reminderRunning
      ensures !reminderRunning
    {
      if !reminderRunning {
        return;
      }
      reminderRunning := false;
    }

    /** Marks the first task with the id as reminded, if there is one. */
    method MarkReminded(taskId: int)
      modifies this`tasks
      ensures tasks == AfterReminders(old(tasks), {taskId})
    {
      var i := FindById(taskId);
      if i < |tasks| {
        tasks := tasks[i := tasks[i].(reminded := true)];
      }
    }

    /** One iteration of the reminder loop after its sleep: nothing when the
        thread has been stopped, otherwise every task of the snapshot whose
        reminder is due is looked up by id and marked. */
    method ReminderCheck(now: int)
      modifies this`tasks
      ensures tasks == if old(reminderRunning)
                       then AfterReminders(old(tasks), DueIds(old(tasks), now))
                       else old(tasks)
      ensures old(Valid()) ==> Valid()
      ensures old(Mirrored()) ==> Mirrored()
    {
      if !reminderRunning {
        return;
      }
      var snapshot := tasks;
      for k := 0 to |snapshot|
        invariant tasks == AfterReminders(snapshot, DueIdsBefore(snapshot, k, now))
      {
        if Due(snapshot[k], now) {
          MarkReminded(snapshot[k].id);
          AfterRemindersCompose(snapshot, DueIdsBefore(snapshot, k, now), {snapshot[k].id});
        }
        DueIdsBeforeStep(snapshot, k, now);
      }
      AfterRemindersKeepsStore(snapshot, DueIdsBefore(snapshot, |snapshot|, now), nextId, File(), fileOrder);
    }
  }
}
