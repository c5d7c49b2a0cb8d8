/** The byte-keyed tree represents one contiguous Raft log, through every disciplined run of operations. */
module LogRefinement {
  import opened Wrappers
  import opened Bytes
  import opened OrderedTree
  import opened RaftTypes
  import opened LogStore

  // ------------------------------------------------------------------ the tree seen by index

  ghost function At(t: Tree, i: u64): Option<Json> {
    if EncodeIndex(i) in t then Some(t[EncodeIndex(i)]) else None
  }

  lemma AtRemoval(t: Tree, range: Range, i: u64)
    requires WellKeyed(t)
    ensures At(AfterRemoval(t, range), i) == if range.Contains(i) then None else At(t, i)
  {
    IndexRoundTrip(i);
  }

  /** Entries with consecutive indices from `start` on. */
  ghost predicate Consecutive(es: seq<Entry>, start: nat) {
    forall i :: 0 <= i < |es| ==> es[i].logId.index == start + i
  }

  lemma {:induction false} AtInsert(t: Tree, es: seq<Entry>, start: nat, i: u64)
    requires WellKeyed(t) && Consecutive(es, start)
    ensures At(InsertAll(t, es), i) ==
      if start <= i < start + |es| then Some(EntryJson(es[i - start])) else At(t, i)
  {
    if es == [] {
    } else {
      AtInsert(t, es[..|es| - 1], start, i);
      IndexRoundTrip(i);
      IndexRoundTrip(es[|es| - 1].logId.index);
    }
  }

  function KeySeq(es: seq<Entry>): (keys: seq<Bytes>)
    ensures |keys| == |es|
    ensures forall i :: 0 <= i < |es| ==> keys[i] == KeyOf(es[i])
  {
    seq(|es|, i requires 0 <= i < |es| => KeyOf(es[i]))
  }

  lemma KeySeqAscending(es: seq<Entry>, start: nat)
    requires Consecutive(es, start)
    ensures Ascending(KeySeq(es))
  {
    var keys := KeySeq(es);
    forall i, j | 0 <= i < j < |keys| ensures LexLess(keys[i], keys[j]) {
      IndexRoundTrip(es[i].logId.index);
      IndexRoundTrip(es[j].logId.index);
      KeyOrder(keys[i], keys[j]);
    }
  }

  lemma KeySeqIterates(es: seq<Entry>, start: nat, s: set<Bytes>)
    requires Consecutive(es, start)
    requires forall k :: k in s ==> |k| == 8 && start <= DecodeIndex(k) < start + |es|
    requires forall i :: 0 <= i < |es| ==> KeyOf(es[i]) in s
    ensures SortedKeys(s) == KeySeq(es)
  {
    hide EncodeIndex, DecodeIndex;
    var keys := KeySeq(es);
    KeySeqAscending(es, start);
    forall k ensures k in keys <==> k in s {
      if k in s {
        KeyRoundTrip(k);
        assert keys[DecodeIndex(k) - start] == k;
      }
    }
    IterationUnique(keys, SortedKeys(s), s);
  }

  /** `es` are exactly the entries that the tree holds in the range. */
  ghost predicate Holds(t: Tree, range: Range, es: seq<Entry>, start: nat) {
    && Consecutive(es, start)
    && (forall i: u64 :: range.Contains(i) && At(t, i).Some? ==> start <= i < start + |es|)
    && (forall i: nat :: i < |es| ==>
          range.Contains(es[i].logId.index) && At(t, es[i].logId.index) == Some(EntryJson(es[i])))
  }

  lemma KeysHeld(t: Tree, range: Range, es: seq<Entry>, start: nat)
    requires WellKeyed(t) && Holds(t, range, es, start)
    ensures SortedKeys(KeysIn(t, range)) == KeySeq(es)
  {
    var s := KeysIn(t, range);
    forall k | k in s ensures |k| == 8 && start <= DecodeIndex(k) < start + |es| {
      KeyRoundTrip(k);
      assert At(t, DecodeIndex(k)).Some?;
    }
    forall i | 0 <= i < |es| ensures KeyOf(es[i]) in s {
      IndexRoundTrip(es[i].logId.index);
      assert At(t, es[i].logId.index).Some?;
    }
    KeySeqIterates(es, start, s);
  }

  lemma {:induction false} CollectHeld(t: Tree, es: seq<Entry>)
    requires KeysOf(t, KeySeq(es))
    requires forall i :: 0 <= i < |es| ==> t[KeyOf(es[i])] == EntryJson(es[i])
    ensures Collect(t, KeySeq(es)) == Ok(es)
  {
    if es == [] {
    } else {
      var init := es[..|es| - 1];
      assert KeySeq(es)[..|es| - 1] == KeySeq(init);
      CollectHeld(t, init);
      assert es == init + [es[|es| - 1]];
    }
  }

  /** A range read returns exactly what the tree holds there, in log order, whatever lies outside the range. */
  lemma ReadHeld(t: Tree, range: Range, es: seq<Entry>, start: nat)
    requires WellKeyed(t) && Holds(t, range, es, start)
    ensures ReadRange(t, range) == Ok(es)
  {
    KeysHeld(t, range, es, start);
    SortedKeysOf(t, KeysIn(t, range));
    forall i | 0 <= i < |es| ensures t[KeyOf(es[i])] == EntryJson(es[i]) {
      assert At(t, es[i].logId.index) == Some(EntryJson(es[i]));
    }
    CollectHeld(t, es);
    SortIsNoOp(es);
  }

  /** After n of the removals the first n held entries of the range are gone, and nothing else. */
  lemma AtRemovalSteps(t: Tree, range: Range, es: seq<Entry>, start: nat, n: nat, i: u64)
    requires WellKeyed(t) && Holds(t, range, es, start) && n <= |es|
    ensures |SortedKeys(KeysIn(t, range))| == |es|
    ensures At(RemovalSteps(t, range, n), i) == if start <= i < start + n then None else At(t, i)
  {
    KeysHeld(t, range, es, start);
    var gone := KeySeq(es)[..n];
    IndexRoundTrip(i);
    if EncodeIndex(i) in gone {
      var j :| 0 <= j < n && gone[j] == EncodeIndex(i);
      IndexRoundTrip(es[j].logId.index);
    }
    if start <= i < start + n {
      assert gone[i - start] == EncodeIndex(i);
    }
  }

  // ------------------------------------------------------------------ the abstract log

  /** A Raft log: the last purge recorded, the index of the first kept entry, and the kept entries. */
  datatype Log = Log(purged: Option<LogId>, first: nat, entries: seq<Entry>) {
    function AfterPurge(): nat {
      if purged.None? then 0 else purged.value.index + 1
    }

    function End(): nat {
      first + |entries|
    }

    /** Where openraft appends next. */
    function NextIndex(): nat {
      if entries == [] then AfterPurge() else End()
    }

    function At(i: nat): Option<Json> {
      if first <= i < End() then Some(EntryJson(entries[i - first])) else None
    }

    ghost predicate Valid() {
      AfterPurge() <= first && Consecutive(entries, first)
    }
  }

  function Clamp(x: int, len: nat): (c: nat)
    ensures c <= len
  {
    if x < 0 then 0 else if x > len then len else x
  }

  /** The metadata names the last purge. */
  predicate Recorded(meta: map<string, Json>, purged: Option<LogId>) {
    if purged.None? then "last_purged" !in meta
    else "last_purged" in meta && meta["last_purged"] == LogIdJson(purged.value)
  }

  /** The store holds the log: its keys are exactly the kept indices, each with its own entry. */
  ghost predicate Represents(t: Tree, meta: map<string, Json>, log: Log) {
    && log.Valid()
    && WellKeyed(t)
    && (forall i: u64 :: At(t, i) == log.At(i))
    && Recorded(meta, log.purged)
  }

  // ------------------------------------------------------------------ reads

  function RangeStart(r: Range): nat {
    match r.start case Included(a) => a case Excluded(a) => a + 1 case Unbounded => 0
  }

  function RangeEnd(r: Range): nat {
    match r.end case Included(b) => b + 1 case Excluded(b) => b case Unbounded => TWO_64
  }

  /** Position of the first kept entry in the range. */
  function SliceStart(log: Log, range: Range): (from: nat)
    ensures from <= |log.entries|
  {
    Clamp(RangeStart(range) - log.first, |log.entries|)
  }

  /** The entries whose indices lie in the range, as a slice of the log. */
  function Slice(log: Log, range: Range): seq<Entry> {
    var from := SliceStart(log, range);
    var to := Clamp(RangeEnd(range) - log.first, |log.entries|);
    if from <= to then log.entries[from..to] else []
  }

  lemma EndBound(log: Log)
    requires log.Valid() && log.entries != []
    ensures log.End() <= TWO_64
  {
    assert log.entries[|log.entries| - 1].logId.index == log.End() - 1;
  }

  /** The slice consists of the kept entries with an index in the range. */
  lemma SliceInRange(log: Log, range: Range, i: u64)
    requires log.Valid()
    ensures range.Contains(i) && log.At(i).Some? <==>
      0 <= i - (log.first + SliceStart(log, range)) < |Slice(log, range)|
  {
  }

  /** It holds exactly the kept entries with an index in the range, in log order. */
  lemma SliceMeans(log: Log, range: Range, e: Entry)
    requires log.Valid()
    ensures e in Slice(log, range) <==> e in log.entries && range.Contains(e.logId.index)
    ensures forall i :: 0 <= i < |Slice(log, range)| - 1 ==>
      Slice(log, range)[i + 1].logId.index == Slice(log, range)[i].logId.index + 1
  {
    var es, from := Slice(log, range), SliceStart(log, range);
    if e in log.entries {
      var i :| 0 <= i < |log.entries| && log.entries[i] == e;
      SliceInRange(log, range, e.logId.index);
      if range.Contains(e.logId.index) {
        assert es[i - from] == e;
      }
    }
    if e in es {
      var i :| 0 <= i < |es| && es[i] == e;
      assert log.entries[from + i] == e;
      SliceInRange(log, range, e.logId.index);
    }
  }

  lemma SliceHeld(t: Tree, meta: map<string, Json>, log: Log, range: Range)
    requires Represents(t, meta, log)
    ensures Holds(t, range, Slice(log, range), log.first + SliceStart(log, range))
  {
    hide At, EncodeIndex, DecodeIndex;
    var es := Slice(log, range);
    var start := log.first + SliceStart(log, range);
    forall i: u64 | range.Contains(i) && At(t, i).Some? ensures start <= i < start + |es| {
      SliceInRange(log, range, i);
    }
    forall i: nat | i < |es|
      ensures range.Contains(es[i].logId.index) && At(t, es[i].logId.index) == Some(EntryJson(es[i]))
    {
      assert es[i] == log.entries[SliceStart(log, range) + i];
      SliceInRange(log, range, es[i].logId.index);
      assert At(t, es[i].logId.index) == log.At(es[i].logId.index);
    }
  }

  /** A range read returns exactly the entries of the log with indices in the range, in ascending order. */
  lemma ReadIsSlice(t: Tree, meta: map<string, Json>, log: Log, range: Range)
    requires Represents(t, meta, log)
    ensures ReadRange(t, range) == Ok(Slice(log, range))
  {
    SliceHeld(t, meta, log, range);
    ReadHeld(t, range, Slice(log, range), log.first + SliceStart(log, range));
  }

  lemma WholeSlice(log: Log)
    requires log.Valid()
    ensures Slice(log, Range(Unbounded, Unbounded)) == log.entries
  {
    if log.entries != [] {
      EndBound(log);
    }
  }

  lemma LastBlobHeld(t: Tree, es: seq<Entry>, start: nat)
    requires WellKeyed(t) && Holds(t, Range(Unbounded, Unbounded), es, start)
    ensures LastBlob(t) == if es == [] then None else Some(EntryJson(es[|es| - 1]))
  {
    var all := Range(Unbounded, Unbounded);
    KeysHeld(t, all, es, start);
    assert KeysIn(t, all) == t.Keys;
    if es != [] {
      assert At(t, es[|es| - 1].logId.index) == Some(EntryJson(es[|es| - 1]));
    }
  }

  /** The log state names the recorded purge and the greatest stored entry, or None when nothing is stored. */
  lemma StateIsLastEntry(t: Tree, meta: map<string, Json>, log: Log)
    requires Represents(t, meta, log)
    ensures ReadLogState(t, meta) ==
      Ok(LogState(log.purged, if log.entries == [] then None else Some(log.entries[|log.entries| - 1].logId)))
  {
    hide EncodeIndex, DecodeIndex, At, Holds, Slice, SliceStart, LastBlob;
    var all := Range(Unbounded, Unbounded);
    SliceHeld(t, meta, log, all);
    WholeSlice(log);
    LastBlobHeld(t, log.entries, log.first + SliceStart(log, all));
  }

  lemma StepsOnLog(t: Tree, meta: map<string, Json>, log: Log, range: Range, n: nat, i: u64)
    requires Represents(t, meta, log) && n <= |Slice(log, range)|
    ensures |SortedKeys(KeysIn(t, range))| == |Slice(log, range)|
    ensures At(RemovalSteps(t, range, n), i) ==
      if 0 <= i - (log.first + SliceStart(log, range)) < n then None else log.At(i)
  {
    hide At, EncodeIndex, DecodeIndex;
    SliceHeld(t, meta, log, range);
    AtRemovalSteps(t, range, Slice(log, range), log.first + SliceStart(log, range), n, i);
    assert At(t, i) == log.At(i);
  }

  // ------------------------------------------------------------------ operations

  datatype Op =
    | Append(es: seq<Entry>)
    | Truncate(id: LogId)
    | Purge(id: LogId)
    | CrashedPurge(id: LogId, removals: nat)

  /** What openraft promises of its calls. */
  ghost predicate Allowed(log: Log, op: Op) {
    match op
    case Append(es) => Consecutive(es, log.NextIndex())
    case Truncate(id) => log.AfterPurge() <= id.index
    case Purge(id) => log.AfterPurge() <= id.index + 1
    case CrashedPurge(id, removals) => log.AfterPurge() <= id.index + 1
  }

  function Dropped(log: Log, index: u64): (n: nat)
    ensures n <= |log.entries|
  {
    Clamp(index + 1 - log.first, |log.entries|)
  }

  function Min(a: nat, b: nat): nat {
    if a < b then a else b
  }

  function Max(a: nat, b: nat): nat {
    if a < b then b else a
  }

  /** The operation on the abstract log. */
  function OnLog(log: Log, op: Op): Log {
    match op
    case Append(es) =>
      if log.entries == [] && es != [] then log.(first := log.AfterPurge(), entries := es)
      else log.(entries := log.entries + es)
    case Truncate(id) => log.(entries := log.entries[..Clamp(id.index - log.first, |log.entries|)])
    case Purge(id) => Log(Some(id), Max(log.first, id.index + 1), log.entries[Dropped(log, id.index)..])
    case CrashedPurge(id, removals) =>
      var n := Min(removals, Dropped(log, id.index));
      log.(first := log.first + n, entries := log.entries[n..])
  }

  /** The operation on the stored tree and metadata, as `SledLogStore` performs it. */
  ghost function OnStore(t: Tree, meta: map<string, Json>, op: Op): (r: (Tree, map<string, Json>))
    requires WellKeyed(t)
    ensures WellKeyed(r.0)
  {
    match op
    case Append(es) => (InsertAll(t, es), meta)
    case Truncate(id) => (AfterRemoval(t, From(id.index)), meta)
    case Purge(id) => (AfterRemoval(t, UpTo(id.index)), meta["last_purged" := LogIdJson(id)])
    case CrashedPurge(id, removals) =>
      (RemovalSteps(t, UpTo(id.index), Min(removals, |SortedKeys(KeysIn(t, UpTo(id.index)))|)), meta)
  }

  lemma AppendToLog(log: Log, es: seq<Entry>)
    requires log.Valid() && Consecutive(es, log.NextIndex())
    ensures OnLog(log, Append(es)).Valid()
    ensures forall i: nat :: OnLog(log, Append(es)).At(i) ==
                             (var k := i - log.NextIndex();
                              if 0 <= k < |es| then Some(EntryJson(es[k])) else log.At(i))
  {
  }

  lemma RemoveFromLog(log: Log, op: Op)
    requires log.Valid() && Allowed(log, op) && (op.Truncate? || op.Purge?)
    ensures OnLog(log, op).Valid()
    ensures forall i: u64 :: OnLog(log, op).At(i) ==
                             (var range := if op.Truncate? then From(op.id.index) else UpTo(op.id.index);
                              if range.Contains(i) then None else log.At(i))
  {
    var log' := OnLog(log, op);
    match op {
      case Truncate(id) =>
        forall i: u64 ensures log'.At(i) == if From(id.index).Contains(i) then None else log.At(i) {
        }
      case Purge(id) =>
        forall i: u64 ensures log'.At(i) == if UpTo(id.index).Contains(i) then None else log.At(i) {
        }
    }
  }

  lemma AppendRefines(t: Tree, meta: map<string, Json>, log: Log, es: seq<Entry>)
    requires Represents(t, meta, log) && Consecutive(es, log.NextIndex())
    ensures Represents(InsertAll(t, es), meta, OnLog(log, Append(es)))
  {
    hide At, InsertAll, EncodeIndex, DecodeIndex, Log.Valid, Consecutive, Log.At;
    var log' := OnLog(log, Append(es));
    AppendToLog(log, es);
    forall i: u64 ensures At(InsertAll(t, es), i) == log'.At(i) {
      AtInsert(t, es, log.NextIndex(), i);
      assert At(t, i) == log.At(i);
    }
  }

  lemma RemovalRefines(
    t: Tree, meta: map<string, Json>, log: Log, range: Range, meta': map<string, Json>, log': Log)
    requires Represents(t, meta, log)
    requires log'.Valid() && Recorded(meta', log'.purged)
    requires forall i: u64 :: log'.At(i) == if range.Contains(i) then None else log.At(i)
    ensures Represents(AfterRemoval(t, range), meta', log')
  {
    hide At, EncodeIndex, DecodeIndex;
    forall i: u64 ensures At(AfterRemoval(t, range), i) == log'.At(i) {
      AtRemoval(t, range, i);
    }
  }

  /** A purge stopped after any number of removals leaves a contiguous suffix of the log. */
  lemma CrashedPurgeRefines(t: Tree, meta: map<string, Json>, log: Log, id: LogId, removals: nat)
    requires Represents(t, meta, log)
    ensures
      var op := CrashedPurge(id, removals);
      Represents(OnStore(t, meta, op).0, meta, OnLog(log, op))
  {
    hide At, EncodeIndex, DecodeIndex;
    var range := UpTo(id.index);
    var log' := OnLog(log, CrashedPurge(id, removals));
    StepsOnLog(t, meta, log, range, 0, 0);
    assert SliceStart(log, range) == 0 && |Slice(log, range)| == Dropped(log, id.index);
    var n := Min(removals, Dropped(log, id.index));
    forall i: u64 ensures At(RemovalSteps(t, range, n), i) == log'.At(i) {
      StepsOnLog(t, meta, log, range, n, i);
    }
  }

  /** Each operation keeps the representation. */
  lemma StepRefines(t: Tree, meta: map<string, Json>, log: Log, op: Op)
    requires Represents(t, meta, log) && Allowed(log, op)
    ensures Represents(OnStore(t, meta, op).0, OnStore(t, meta, op).1, OnLog(log, op))
  {
    hide At, Log.At, EncodeIndex, DecodeIndex, InsertAll, RemovalSteps, AfterRemoval;
    if op.Truncate? || op.Purge? {
      RemoveFromLog(log, op);
    }
    match op
    case Append(es) => AppendRefines(t, meta, log, es);
    case Truncate(id) => RemovalRefines(t, meta, log, From(id.index), meta, OnLog(log, op));
    case Purge(id) =>
      RemovalRefines(t, meta, log, UpTo(id.index), meta["last_purged" := LogIdJson(id)], OnLog(log, op));
    case CrashedPurge(id, removals) => CrashedPurgeRefines(t, meta, log, id, removals);
  }

  /** Rerunning an interrupted purge or truncation ends where an uninterrupted one ends. */
  lemma InterruptedRemovalResumes(t: Tree, range: Range, n: nat)
    requires WellKeyed(t) && n <= |SortedKeys(KeysIn(t, range))|
    ensures AfterRemoval(RemovalSteps(t, range, n), range) == AfterRemoval(t, range)
  {
    SortedKeysMembers(KeysIn(t, range));
  }

  /** Rerunning an interrupted purge ends with the same entries and the same recorded purge as if it had not stopped. */
  lemma InterruptedPurgeResumes(t: Tree, meta: map<string, Json>, id: LogId, removals: nat)
    requires WellKeyed(t)
    ensures
      var (stopped, stoppedMeta) := OnStore(t, meta, CrashedPurge(id, removals));
      OnStore(stopped, stoppedMeta, Purge(id)) == OnStore(t, meta, Purge(id))
  {
    InterruptedRemovalResumes(t, UpTo(id.index), Min(removals, |SortedKeys(KeysIn(t, UpTo(id.index)))|));
  }

  // ------------------------------------------------------------------ whole runs

  ghost predicate Disciplined(log: Log, ops: seq<Op>)
    decreases ops
  {
    ops == [] || (Allowed(log, ops[0]) && Disciplined(OnLog(log, ops[0]), ops[1..]))
  }

  function RunLog(log: Log, ops: seq<Op>): Log
    decreases ops
  {
    if ops == [] then log else RunLog(OnLog(log, ops[0]), ops[1..])
  }

  ghost function RunStore(t: Tree, meta: map<string, Json>, ops: seq<Op>): (Tree, map<string, Json>)
    requires WellKeyed(t)
    decreases ops
  {
    if ops == [] then (t, meta)
    else
      var (next, nextMeta) := OnStore(t, meta, ops[0]);
      RunStore(next, nextMeta, ops[1..])
  }

  /** After every disciplined run, interrupted purges included, the store still represents the abstract log. */
  lemma {:induction false} RunRefines(t: Tree, meta: map<string, Json>, log: Log, ops: seq<Op>)
    requires Represents(t, meta, log) && Disciplined(log, ops)
    ensures Represents(RunStore(t, meta, ops).0, RunStore(t, meta, ops).1, RunLog(log, ops))
    decreases ops
  {
    if ops == [] {
    } else {
      StepRefines(t, meta, log, ops[0]);
      var (next, nextMeta) := OnStore(t, meta, ops[0]);
      RunRefines(next, nextMeta, OnLog(log, ops[0]), ops[1..]);
    }
  }

  /** Without interrupted purges the kept entries start right after the recorded purge. */
  lemma {:induction false} FirstFollowsPurge(log: Log, ops: seq<Op>)
    requires log.first == log.AfterPurge() && log.Valid() && Disciplined(log, ops)
    requires forall i :: 0 <= i < |ops| ==> !ops[i].CrashedPurge?
    ensures RunLog(log, ops).first == RunLog(log, ops).AfterPurge()
    decreases ops
  {
    if ops == [] {
    } else {
      FirstFollowsPurge(OnLog(log, ops[0]), ops[1..]);
    }
  }

  // ------------------------------------------------------------------ interrupted truncation

  /** No index is missing between two stored ones. */
  ghost predicate Contiguous(t: Tree) {
    forall i: u64, j: u64, k: u64 :: i < j < k && At(t, i).Some? && At(t, k).Some? ==> At(t, j).Some?
  }

  /** Stopping `truncate` after n removals leaves no hole exactly when none or all were done, or none is kept below. */
  lemma InterruptedTruncate(t: Tree, meta: map<string, Json>, log: Log, id: LogId, n: nat)
    requires Represents(t, meta, log)
    requires n <= |SortedKeys(KeysIn(t, From(id.index)))|
    ensures Contiguous(RemovalSteps(t, From(id.index), n)) <==>
      n == 0 || n == |SortedKeys(KeysIn(t, From(id.index)))| || id.index <= log.first
  {
    hide At, EncodeIndex, DecodeIndex;
    var range := From(id.index);
    var start, len := log.first + SliceStart(log, range), |Slice(log, range)|;
    var t' := RemovalSteps(t, range, n);
    StepsOnLog(t, meta, log, range, 0, 0);
    forall i: u64 ensures At(t', i) == if 0 <= i - start < n then None else log.At(i) {
      StepsOnLog(t, meta, log, range, n, i);
    }
    if log.entries != [] {
      EndBound(log);
      assert start + len == log.End();
      if n != 0 && n != len && id.index > log.first {
        assert At(t', start - 1).Some? && At(t', start).None? && At(t', start + n).Some?;
      }
    }
  }
}
