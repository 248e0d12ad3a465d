/** The private record format of `<user>_tasks.dat` (src/TaskManager.cpp):
    each record is id (8 bytes), startTime (8), priority (4), category (4),
    reminderTime (8), the name length (8, a size_t) and the name bytes, each
    integer in the native little-endian two's complement of a 64-bit build. */
module TaskCodec {
  import opened TaskModel

  /** Bytes before the name length: id, startTime, priority, category, reminderTime. */
  const FIXED_FIELDS: nat := 32
  /** Bytes before the name itself. */
  const HEADER_SIZE: nat := 40

  function Pow256(n: nat): (r: nat)
    ensures r >= 1
  {
    if n == 0 then 1 else 256 * Pow256(n - 1)
  }

  /** The low n bytes of x, least significant first. */
  function EncodeLE(x: nat, n: nat): (r: Bytes)
    ensures |r| == n
  {
    if n == 0 then [] else [(x % 256) as byte] + EncodeLE(x / 256, n - 1)
  }

  function DecodeLE(b: Bytes): (r: nat)
    ensures r < Pow256(|b|)
  {
    if b == [] then 0 else b[0] as int + 256 * DecodeLE(b[1..])
  }

  lemma {:induction false} DecodeEncodeLE(x: nat, n: nat)
    requires x < Pow256(n)
    ensures DecodeLE(EncodeLE(x, n)) == x
  {
    if n > 0 {
      var e := EncodeLE(x, n);
      assert e[1..] == EncodeLE(x / 256, n - 1);
      assert x / 256 < Pow256(n - 1);
      DecodeEncodeLE(x / 256, n - 1);
    }
  }

  /** n bytes of x in two's complement (what writing an n-byte signed integer stores). */
  function EncodeSigned(x: int, n: nat): (r: Bytes)
    ensures |r| == n
  {
    EncodeLE(x % Pow256(n), n)
  }

  function DecodeSigned(b: Bytes): (r: int)
    requires |b| > 0
    ensures -(Pow256(|b|) / 2) <= r < Pow256(|b|) / 2
  {
    var u := DecodeLE(b);
    Pow256Even(|b|);
    if u >= Pow256(|b|) / 2 then u - Pow256(|b|) else u
  }

  lemma Pow256Even(n: nat)
    requires n > 0
    ensures Pow256(n) % 2 == 0
  {
    var k := 128 * Pow256(n - 1);
    assert Pow256(n) == 2 * k;
  }

  lemma DecodeEncodeSigned(x: int, n: nat)
    requires n == 4 || n == 8
    requires -(Pow256(n) / 2) <= x < Pow256(n) / 2
    ensures DecodeSigned(EncodeSigned(x, n)) == x
  {
    Pow256Values();
    var u := x % Pow256(n);
    if n == 4 {
      assert u == if x < 0 then x + 0x1_0000_0000 else x;
    } else {
      assert u == if x < 0 then x + 0x1_0000_0000_0000_0000 else x;
    }
    DecodeEncodeLE(u, n);
  }

  lemma Pow256Values()
    ensures Pow256(4) == 0x1_0000_0000
    ensures Pow256(8) == 0x1_0000_0000_0000_0000
  {
  }

  predicate InInt64(x: int) {
    -0x8000_0000_0000_0000 <= x < 0x8000_0000_0000_0000
  }

  /** The 64-bit field widths of the C++ record: every field of a real Task fits. */
  predicate Representable(t: Task) {
    InInt64(t.id) && InInt64(t.startTime) && InInt64(t.reminderTime) &&
    |t.name| < 0x1_0000_0000_0000_0000
  }

  predicate AllRepresentable(ts: seq<Task>) {
    forall i :: 0 <= i < |ts| ==> Representable(ts[i])
  }

  /** saveTask's record for one task. */
  function EncodeTask(t: Task): (r: Bytes)
    ensures |r| == HEADER_SIZE + |t.name|
  {
    EncodeSigned(t.id, 8) + (EncodeSigned(t.startTime, 8) +
    (EncodeSigned(t.priority as int, 4) + (EncodeSigned(t.category as int, 4) +
    (EncodeSigned(t.reminderTime, 8) + (EncodeLE(|t.name|, 8) + t.name)))))
  }

  /** The records rewriteTasksFile writes, in list order. */
  function EncodeAll(ts: seq<Task>): (r: Bytes)
    ensures r == [] <==> ts == []
    ensures |r| >= HEADER_SIZE * |ts|
  {
    if ts == [] then [] else EncodeTask(ts[0]) + EncodeAll(ts[1..])
  }

  /** What survives a save and a load: the persisted fields, on a default Task. */
  function Stored(t: Task): (r: Task)
    ensures r.id == t.id && r.name == t.name && r.startTime == t.startTime
    ensures r.priority == t.priority && r.category == t.category && r.reminderTime == t.reminderTime
    ensures r.customCategory == "" && !r.reminded
  {
    DefaultTask().(id := t.id, name := t.name, startTime := t.startTime, priority := t.priority,
                   category := t.category, reminderTime := t.reminderTime)
  }

  function StoredAll(ts: seq<Task>): (r: seq<Task>)
    ensures |r| == |ts|
    ensures forall i {:trigger r[i]} :: 0 <= i < |ts| ==> r[i] == Stored(ts[i])
  {
    if ts == [] then [] else [Stored(ts[0])] + StoredAll(ts[1..])
  }

  /** One record read by loadTasks from its 40 header bytes and its name bytes. */
  function DecodeRecord(header: Bytes, name: Bytes): (t: Task)
    requires |header| == HEADER_SIZE && |name| < 0x1_0000_0000_0000_0000
    ensures Representable(t) && Stored(t) == t
  {
    Pow256Values();
    DefaultTask().(
      id := DecodeSigned(header[0..8]),
      startTime := DecodeSigned(header[8..16]),
      priority := DecodeSigned(header[16..20]) as Priority,
      category := DecodeSigned(header[20..24]) as Category,
      reminderTime := DecodeSigned(header[24..32]),
      name := name)
  }

  /** The record list loadTasks reads: it stops at end of file, and also keeps
      every complete record before a record whose fixed fields, length or name
      are cut short by the end of the file. */
  function DecodeAll(b: Bytes): (r: seq<Task>)
    ensures AllRepresentable(r)
    ensures forall i :: 0 <= i < |r| ==> Stored(r[i]) == r[i]
    decreases |b|
  {
    if |b| < HEADER_SIZE then []
    else
      var len := DecodeLE(b[FIXED_FIELDS..HEADER_SIZE]);
      Pow256Values();
      if |b| - HEADER_SIZE < len then []
      else [DecodeRecord(b[..HEADER_SIZE], b[HEADER_SIZE..HEADER_SIZE + len])] + DecodeAll(b[HEADER_SIZE + len..])
  }

  /** Reading stops at a record whose header or name is cut short. */
  lemma CutShort(b: Bytes)
    requires |b| < HEADER_SIZE || |b| - HEADER_SIZE < DecodeLE(b[FIXED_FIELDS..HEADER_SIZE])
    ensures DecodeAll(b) == []
  {
  }

  /** One step of the read loop: a whole record at the front is read and
      reading goes on after it. */
  lemma DecodeStep(b: Bytes)
    requires |b| >= HEADER_SIZE && |b| - HEADER_SIZE >= DecodeLE(b[FIXED_FIELDS..HEADER_SIZE])
    ensures var len := DecodeLE(b[FIXED_FIELDS..HEADER_SIZE]);
      len < 0x1_0000_0000_0000_0000 &&
      DecodeAll(b) == [DecodeRecord(b[..HEADER_SIZE], b[HEADER_SIZE..HEADER_SIZE + len])] + DecodeAll(b[HEADER_SIZE + len..])
  {
    Pow256Values();
  }

  /** The file holds only complete records. */
  predicate NoTruncatedTail(b: Bytes) {
    EncodeAll(DecodeAll(b)) == b
  }

  lemma EncodeStored(t: Task)
    ensures EncodeTask(Stored(t)) == EncodeTask(t)
  {
  }

  lemma {:induction false} EncodeAllStored(ts: seq<Task>)
    ensures EncodeAll(StoredAll(ts)) == EncodeAll(ts)
  {
    if ts != [] {
      assert StoredAll(ts)[1..] == StoredAll(ts[1..]);
      EncodeAllStored(ts[1..]);
    }
  }

  /** Appending a record (saveTask) to the encoding of a list encodes the longer list. */
  lemma {:induction false} EncodeAllAppend(a: seq<Task>, b: seq<Task>)
    ensures EncodeAll(a + b) == EncodeAll(a) + EncodeAll(b)
  {
    if a != [] {
      assert (a + b)[1..] == a[1..] + b;
      EncodeAllAppend(a[1..], b);
    } else {
      assert a + b == b;
    }
  }

  lemma SaveTaskAppends(ts: seq<Task>, t: Task)
    ensures EncodeAll(ts) + EncodeTask(t) == EncodeAll(ts + [t])
  {
    EncodeAllAppend(ts, [t]);
    assert [t][1..] == [];
  }

  /** Where each field lies in a record. */
  lemma RecordLayout(t: Task)
    ensures var e := EncodeTask(t);
      e[0..8] == EncodeSigned(t.id, 8) && e[8..16] == EncodeSigned(t.startTime, 8) &&
      e[16..20] == EncodeSigned(t.priority as int, 4) && e[20..24] == EncodeSigned(t.category as int, 4) &&
      e[24..32] == EncodeSigned(t.reminderTime, 8) && e[FIXED_FIELDS..HEADER_SIZE] == EncodeLE(|t.name|, 8) &&
      e[HEADER_SIZE..] == t.name
  {
    var e := EncodeTask(t);
    var r1 := EncodeSigned(t.startTime, 8) + (EncodeSigned(t.priority as int, 4) +
      (EncodeSigned(t.category as int, 4) + (EncodeSigned(t.reminderTime, 8) + (EncodeLE(|t.name|, 8) + t.name))));
    var r2 := EncodeSigned(t.priority as int, 4) +
      (EncodeSigned(t.category as int, 4) + (EncodeSigned(t.reminderTime, 8) + (EncodeLE(|t.name|, 8) + t.name)));
    var r3 := EncodeSigned(t.category as int, 4) + (EncodeSigned(t.reminderTime, 8) + (EncodeLE(|t.name|, 8) + t.name));
    var r4 := EncodeSigned(t.reminderTime, 8) + (EncodeLE(|t.name|, 8) + t.name);
    var r5 := EncodeLE(|t.name|, 8) + t.name;
    FieldAt(e, 0, EncodeSigned(t.id, 8), r1);
    FieldAt(e, 8, EncodeSigned(t.startTime, 8), r2);
    FieldAt(e, 16, EncodeSigned(t.priority as int, 4), r3);
    FieldAt(e, 20, EncodeSigned(t.category as int, 4), r4);
    FieldAt(e, 24, EncodeSigned(t.reminderTime, 8), r5);
    FieldAt(e, 32, EncodeLE(|t.name|, 8), t.name);
  }

  /** A field that starts at offset k of s occupies s[k..k + |a|]. */
  lemma FieldAt(s: Bytes, k: nat, a: Bytes, rest: Bytes)
    requires k <= |s| && s[k..] == a + rest
    ensures s[k..k + |a|] == a && s[k + |a|..] == rest
  {
    assert s[k..k + |a|] == (a + rest)[..|a|];
  }

  /** The fixed fields of a record decode to the stored view of its task. */
  lemma DecodeRecordOfEncoding(t: Task)
    requires Representable(t)
    ensures |t.name| < 0x1_0000_0000_0000_0000
    ensures DecodeRecord(EncodeTask(t)[..HEADER_SIZE], t.name) == Stored(t)
  {
    Pow256Values();
    var h := EncodeTask(t)[..HEADER_SIZE];
    RecordLayout(t);
    assert h[0..8] == EncodeSigned(t.id, 8);
    assert h[8..16] == EncodeSigned(t.startTime, 8);
    assert h[16..20] == EncodeSigned(t.priority as int, 4);
    assert h[20..24] == EncodeSigned(t.category as int, 4);
    assert h[24..32] == EncodeSigned(t.reminderTime, 8);
    DecodeEncodeSigned(t.id, 8);
    DecodeEncodeSigned(t.startTime, 8);
    DecodeEncodeSigned(t.priority as int, 4);
    DecodeEncodeSigned(t.category as int, 4);
    DecodeEncodeSigned(t.reminderTime, 8);
  }

  /** Reading the record of t from the front of any byte string. */
  lemma DecodeRecordFront(t: Task, rest: Bytes)
    requires Representable(t)
    ensures DecodeAll(EncodeTask(t) + rest) == [Stored(t)] + DecodeAll(rest)
  {
    var e := EncodeTask(t);
    var b := e + rest;
    var n := |t.name|;
    Pow256Values();
    RecordLayout(t);
    DecodeRecordOfEncoding(t);
    assert b[..HEADER_SIZE] == e[..HEADER_SIZE];
    assert b[FIXED_FIELDS..HEADER_SIZE] == EncodeLE(n, 8);
    DecodeEncodeLE(n, 8);
    assert b[HEADER_SIZE..HEADER_SIZE + n] == t.name;
    assert b[HEADER_SIZE + n..] == rest;
  }

  /** Records in front of any tail decode to their persisted fields. */
  lemma ConcatAssoc<T>(a: seq<T>, b: seq<T>, c: seq<T>)
    ensures (a + b) + c == a + (b + c)
  {
  }

  lemma {:induction false} DecodeEncodedPrefix(ts: seq<Task>, rest: Bytes)
    requires AllRepresentable(ts)
    ensures DecodeAll(EncodeAll(ts) + rest) == StoredAll(ts) + DecodeAll(rest)
  {
    if ts != [] {
      var head, more := EncodeTask(ts[0]), EncodeAll(ts[1..]);
      assert EncodeAll(ts) == head + more;
      ConcatAssoc(head, more, rest);
      DecodeRecordFront(ts[0], more + rest);
      DecodeEncodedPrefix(ts[1..], rest);
      assert StoredAll(ts) == [Stored(ts[0])] + StoredAll(ts[1..]);
      ConcatAssoc([Stored(ts[0])], StoredAll(ts[1..]), DecodeAll(rest));
    } else {
      assert EncodeAll(ts) + rest == rest;
    }
  }

  /** The round trip: loading what rewriteTasksFile wrote gives back the list
      on id, name, startTime, priority, category and reminderTime, with an
      empty customCategory and reminded == false. */
  lemma RoundTrip(ts: seq<Task>)
    requires AllRepresentable(ts)
    ensures DecodeAll(EncodeAll(ts)) == StoredAll(ts)
  {
    DecodeEncodedPrefix(ts, []);
    assert EncodeAll(ts) + [] == EncodeAll(ts);
  }

  /** A record cut short by the end of the file decodes to nothing. */
  lemma TruncatedRecord(u: Task, p: Bytes)
    requires Representable(u)
    requires |p| < |EncodeTask(u)| && p == EncodeTask(u)[..|p|]
    ensures DecodeAll(p) == []
  {
    if |p| >= HEADER_SIZE {
      var e := EncodeTask(u);
      PrefixSlice(e, p, FIXED_FIELDS, HEADER_SIZE);
      assert e[FIXED_FIELDS..HEADER_SIZE] == EncodeLE(|u.name|, 8) by {
        RecordLayout(u);
      }
      Pow256Values();
      DecodeEncodeLE(|u.name|, 8);
      assert |p| - HEADER_SIZE < DecodeLE(p[FIXED_FIELDS..HEADER_SIZE]);
    }
  }

  /** A slice inside a prefix of e is the same slice of e. */
  lemma PrefixSlice(e: Bytes, p: Bytes, i: nat, j: nat)
    requires i <= j <= |p| <= |e| && p == e[..|p|]
    ensures p[i..j] == e[i..j]
  {
  }

  /** loadTasks keeps every complete record before a truncated trailing one. */
  lemma TruncatedTailIsDropped(ts: seq<Task>, u: Task, p: Bytes)
    requires AllRepresentable(ts) && Representable(u)
    requires |p| < |EncodeTask(u)| && p == EncodeTask(u)[..|p|]
    ensures DecodeAll(EncodeAll(ts) + p) == StoredAll(ts)
  {
    DecodeEncodedPrefix(ts, p);
    TruncatedRecord(u, p);
  }

  /** A file written only by saveTask and rewriteTasksFile has no truncated tail. */
  lemma EncodedHasNoTruncatedTail(ts: seq<Task>)
    requires AllRepresentable(ts)
    ensures NoTruncatedTail(EncodeAll(ts))
  {
    RoundTrip(ts);
    EncodeAllStored(ts);
  }
}
