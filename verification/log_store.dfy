/** The sled-backed Raft log: an ordered byte-keyed tree of entries plus a small metadata tree. */
module LogStore {
  import opened Wrappers
  import opened Bytes
  import opened OrderedTree
  import opened RaftTypes

  type Tree = map<Bytes, Json>

  // ------------------------------------------------------------------ keys

  function EncodeIndex(index: u64): (key: Bytes)
    ensures |key| == 8
  {
    ToBE(index, 8)
  }

  function DecodeIndex(key: Bytes): (index: u64)
    requires |key| >= 8
  {
    FromBEBound(key[..8]);
    Pow256Of8();
    FromBE(key[..8])
  }

  function KeyOf(e: Entry): (key: Bytes)
    ensures |key| == 8
  {
    EncodeIndex(e.logId.index)
  }

  /** All keys are eight bytes long: only `Append` writes keys. */
  ghost predicate WellKeyed(t: Tree) {
    forall k :: k in t ==> |k| == 8
  }

  lemma IndexRoundTrip(index: u64)
    ensures DecodeIndex(EncodeIndex(index)) == index
  {
    Pow256Of8();
    BERoundTrip(index, 8);
    assert EncodeIndex(index)[..8] == EncodeIndex(index);
  }

  lemma KeyRoundTrip(key: Bytes)
    requires |key| == 8
    ensures EncodeIndex(DecodeIndex(key)) == key
  {
    BERoundTripBack(key);
    assert key[..8] == key;
  }

  /** Tree order is log order. */
  lemma KeyOrder(a: Bytes, b: Bytes)
    requires |a| == 8 && |b| == 8
    ensures LexLess(a, b) <==> DecodeIndex(a) < DecodeIndex(b)
  {
    KeyRoundTrip(a);
    KeyRoundTrip(b);
    Pow256Of8();
    BEOrder(DecodeIndex(a), DecodeIndex(b), 8);
  }

  // ------------------------------------------------------------------ ranges

  datatype Bound = Included(i: u64) | Excluded(i: u64) | Unbounded

  datatype Range = Range(start: Bound, end: Bound) {
    predicate Contains(i: u64) {
      && (match start case Included(a) => a <= i case Excluded(a) => a < i case Unbounded => true)
      && (match end case Included(b) => i <= b case Excluded(b) => i < b case Unbounded => true)
    }
  }

  /** Bounds are read as Rust reads them. */
  lemma ContainsMeans(a: u64, b: u64, i: u64)
    ensures Range(Included(a), Included(b)).Contains(i) <==> a <= i <= b
    ensures Range(Included(a), Excluded(b)).Contains(i) <==> a <= i < b
    ensures Range(Excluded(a), Included(b)).Contains(i) <==> a < i <= b
    ensures Range(Excluded(a), Excluded(b)).Contains(i) <==> a < i < b
    ensures Range(Included(a), Unbounded).Contains(i) <==> a <= i
    ensures Range(Excluded(a), Unbounded).Contains(i) <==> a < i
    ensures Range(Unbounded, Included(b)).Contains(i) <==> i <= b
    ensures Range(Unbounded, Excluded(b)).Contains(i) <==> i < b
    ensures Range(Unbounded, Unbounded).Contains(i)
  {
  }

  /** The part of the log that `truncate` deletes, and the part that `purge` deletes. */
  function From(index: u64): Range {
    Range(Included(index), Unbounded)
  }

  function UpTo(index: u64): Range {
    Range(Unbounded, Included(index))
  }

  ghost function KeysIn(t: Tree, range: Range): set<Bytes>
    requires WellKeyed(t)
  {
    set k | k in t && range.Contains(DecodeIndex(k))
  }

  predicate KeysOf(t: Tree, keys: seq<Bytes>) {
    forall i :: 0 <= i < |keys| ==> |keys[i]| == 8 && keys[i] in t
  }

  lemma SortedKeysOf(t: Tree, s: set<Bytes>)
    requires WellKeyed(t) && s <= t.Keys
    ensures KeysOf(t, SortedKeys(s))
  {
    SortedKeysMembers(s);
  }

  /** The keys with an index in range, in the given order. */
  function Select(keys: seq<Bytes>, range: Range): (r: seq<Bytes>)
    requires forall i :: 0 <= i < |keys| ==> |keys[i]| == 8
    ensures forall i :: 0 <= i < |r| ==> |r[i]| == 8
  {
    if keys == [] then [] else
      var k := keys[|keys| - 1];
      Select(keys[..|keys| - 1], range) + if range.Contains(DecodeIndex(k)) then [k] else []
  }

  lemma {:induction false} SelectContents(keys: seq<Bytes>, range: Range)
    requires forall i :: 0 <= i < |keys| ==> |keys[i]| == 8
    requires Ascending(keys)
    ensures forall k :: k in Select(keys, range) <==> k in keys && |k| == 8 && range.Contains(DecodeIndex(k))
    ensures Ascending(Select(keys, range))
  {
    if keys == [] {
    } else {
      var init, last := keys[..|keys| - 1], keys[|keys| - 1];
      SelectContents(init, range);
      var kept := Select(init, range);
      forall i | 0 <= i < |kept| ensures LexLess(kept[i], last) {
        assert kept[i] in init;
      }
      forall k ensures k in Select(keys, range) <==> k in keys && |k| == 8 && range.Contains(DecodeIndex(k)) {
        assert k in keys <==> k in init || k == last;
      }
    }
  }

  lemma {:induction false} SelectKeysOf(t: Tree, keys: seq<Bytes>, range: Range)
    requires KeysOf(t, keys)
    ensures KeysOf(t, Select(keys, range))
  {
    if keys == [] {
    } else {
      SelectKeysOf(t, keys[..|keys| - 1], range);
    }
  }

  lemma SelectIsSorted(t: Tree, range: Range)
    requires WellKeyed(t)
    ensures KeysOf(t, SortedKeys(t.Keys))
    ensures Select(SortedKeys(t.Keys), range) == SortedKeys(KeysIn(t, range))
  {
    var keys := SortedKeys(t.Keys);
    SortedKeysOf(t, t.Keys);
    SelectContents(keys, range);
    IterationUnique(Select(keys, range), SortedKeys(KeysIn(t, range)), KeysIn(t, range));
  }

  // ------------------------------------------------------------------ specification of the operations

  /** The entries stored at the given keys, in key order; an undecodable value is an error. */
  function Collect(t: Tree, keys: seq<Bytes>): Result<seq<Entry>, StorageError>
    requires KeysOf(t, keys)
  {
    if keys == [] then Ok([]) else
      var prefix := Collect(t, keys[..|keys| - 1]);
      var blob := t[keys[|keys| - 1]];
      if prefix.Err? then prefix
      else if blob.EntryJson? then Ok(prefix.value + [blob.entry])
      else Err(LogsRead)
  }

  lemma {:induction false} CollectFails(t: Tree, keys: seq<Bytes>)
    requires KeysOf(t, keys)
    ensures Collect(t, keys).Err? ==> Collect(t, keys) == Err(LogsRead)
    ensures Collect(t, keys).Err? <==> exists i :: 0 <= i < |keys| && !t[keys[i]].EntryJson?
  {
    if keys == [] {
    } else {
      var init := keys[..|keys| - 1];
      CollectFails(t, init);
      assert forall i :: 0 <= i < |init| ==> init[i] == keys[i];
    }
  }

  predicate SortedByIndex(es: seq<Entry>) {
    forall i, j :: 0 <= i < j < |es| ==> es[i].logId.index <= es[j].logId.index
  }

  /** Inserts before the first entry whose index is not smaller, as a stable sort does. */
  function InsertByIndex(e: Entry, es: seq<Entry>): seq<Entry> {
    if es == [] || e.logId.index <= es[0].logId.index then [e] + es
    else [es[0]] + InsertByIndex(e, es[1..])
  }

  function SortByIndex(es: seq<Entry>): seq<Entry> {
    if es == [] then [] else InsertByIndex(es[0], SortByIndex(es[1..]))
  }

  lemma {:induction false} InsertKeeps(e: Entry, es: seq<Entry>)
    ensures multiset(InsertByIndex(e, es)) == multiset(es) + multiset{e}
  {
    if es == [] || e.logId.index <= es[0].logId.index {
    } else {
      InsertKeeps(e, es[1..]);
      assert es == [es[0]] + es[1..];
    }
  }

  lemma InsertHead(e: Entry, es: seq<Entry>)
    ensures InsertByIndex(e, es) != []
    ensures InsertByIndex(e, es)[0] == e || (es != [] && InsertByIndex(e, es)[0] == es[0])
  {
  }

  lemma PrependSorted(x: Entry, es: seq<Entry>)
    requires SortedByIndex(es) && es != [] && x.logId.index <= es[0].logId.index
    ensures SortedByIndex([x] + es)
  {
  }

  lemma {:induction false} InsertSorts(e: Entry, es: seq<Entry>)
    requires SortedByIndex(es)
    ensures SortedByIndex(InsertByIndex(e, es))
  {
    if es == [] {
    } else if e.logId.index <= es[0].logId.index {
      PrependSorted(e, es);
    } else {
      InsertSorts(e, es[1..]);
      InsertHead(e, es[1..]);
      PrependSorted(es[0], InsertByIndex(e, es[1..]));
    }
  }

  /** The final sort of a read leaves entries alone that are already in index order. */
  lemma {:induction false} SortIsNoOp(es: seq<Entry>)
    requires SortedByIndex(es)
    ensures SortByIndex(es) == es
  {
    if es == [] {
    } else {
      SortIsNoOp(es[1..]);
    }
  }

  /** The final sort of a read yields the same entries, in index order. */
  lemma {:induction false} SortSorts(es: seq<Entry>)
    ensures multiset(SortByIndex(es)) == multiset(es)
    ensures forall i, j :: 0 <= i < j < |SortByIndex(es)| ==>
      SortByIndex(es)[i].logId.index <= SortByIndex(es)[j].logId.index
  {
    if es == [] {
    } else {
      SortSorts(es[1..]);
      assert es == [es[0]] + es[1..];
      InsertKeeps(es[0], SortByIndex(es[1..]));
      InsertSorts(es[0], SortByIndex(es[1..]));
    }
  }

  ghost function ReadRange(t: Tree, range: Range): Result<seq<Entry>, StorageError>
    requires WellKeyed(t)
  {
    SortedKeysOf(t, KeysIn(t, range));
    var found := Collect(t, SortedKeys(KeysIn(t, range)));
    if found.Ok? then Ok(SortByIndex(found.value)) else found
  }

  /** A key in range with a value that is no entry fails the read, and nothing else does. */
  lemma ReadFails(t: Tree, range: Range)
    requires WellKeyed(t)
    ensures ReadRange(t, range) == Err(LogsRead) <==>
      exists k :: k in t && range.Contains(DecodeIndex(k)) && !t[k].EntryJson?
    ensures ReadRange(t, range).Err? ==> ReadRange(t, range) == Err(LogsRead)
  {
    var s := KeysIn(t, range);
    SortedKeysOf(t, s);
    SortedKeysMembers(s);
    CollectFails(t, SortedKeys(s));
    if k :| k in t && range.Contains(DecodeIndex(k)) && !t[k].EntryJson? {
      assert k in SortedKeys(s);
    }
  }

  /** Later entries for the same index replace earlier ones. */
  function InsertAll(t: Tree, es: seq<Entry>): (r: Tree)
    ensures WellKeyed(t) ==> WellKeyed(r)
  {
    if es == [] then t
    else
      var e := es[|es| - 1];
      InsertAll(t, es[..|es| - 1])[KeyOf(e) := EntryJson(e)]
  }

  /** An append stores an entry under the big-endian form of its own index, unless a later one has that index too. */
  lemma {:induction false} AppendStores(t: Tree, es: seq<Entry>, i: nat)
    requires i < |es| && forall j :: i < j < |es| ==> EncodeIndex(es[j].logId.index) != EncodeIndex(es[i].logId.index)
    ensures
      var k := EncodeIndex(es[i].logId.index);
      k in InsertAll(t, es) && InsertAll(t, es)[k] == EntryJson(es[i])
    decreases |es|
  {
    hide EncodeIndex;
    if i == |es| - 1 {
    } else {
      AppendStores(t, es[..|es| - 1], i);
    }
  }

  /** It touches no other key. */
  lemma {:induction false} AppendSpares(t: Tree, es: seq<Entry>, k: Bytes)
    requires forall i :: 0 <= i < |es| ==> k != EncodeIndex(es[i].logId.index)
    ensures k in InsertAll(t, es) <==> k in t
    ensures k in t ==> InsertAll(t, es)[k] == t[k]
  {
    hide EncodeIndex;
    if es == [] {
    } else {
      AppendSpares(t, es[..|es| - 1], k);
    }
  }

  function RemoveKeys(t: Tree, keys: seq<Bytes>): Tree {
    t - (set k | k in keys)
  }

  lemma RemoveOneMore(t: Tree, keys: seq<Bytes>, n: nat)
    requires n < |keys|
    ensures RemoveKeys(t, keys[..n + 1]) == RemoveKeys(t, keys[..n]) - {keys[n]}
  {
    assert keys[..n + 1] == keys[..n] + [keys[n]];
  }

  /** The tree after the first n of the ascending single-key removals that delete a range. */
  ghost function RemovalSteps(t: Tree, range: Range, n: nat): (r: Tree)
    requires WellKeyed(t) && n <= |SortedKeys(KeysIn(t, range))|
    ensures WellKeyed(r)
  {
    RemoveKeys(t, SortedKeys(KeysIn(t, range))[..n])
  }

  /** The tree when all removals are done. */
  ghost function AfterRemoval(t: Tree, range: Range): (r: Tree)
    requires WellKeyed(t)
    ensures WellKeyed(r)
  {
    t - KeysIn(t, range)
  }

  lemma LastRemovalCompletes(t: Tree, range: Range)
    requires WellKeyed(t)
    ensures RemovalSteps(t, range, |SortedKeys(KeysIn(t, range))|) == AfterRemoval(t, range)
  {
    var keys := SortedKeys(KeysIn(t, range));
    assert keys[..|keys|] == keys;
    SortedKeysMembers(KeysIn(t, range));
    assert (set k | k in keys) == KeysIn(t, range);
  }

  lemma CollectSnoc(t: Tree, keys: seq<Bytes>, k: Bytes)
    requires KeysOf(t, keys) && |k| == 8 && k in t
    ensures KeysOf(t, keys + [k])
    ensures Collect(t, keys + [k]) ==
      var prefix := Collect(t, keys);
      if prefix.Err? then prefix
      else if t[k].EntryJson? then Ok(prefix.value + [t[k].entry])
      else Err(LogsRead)
  {
    assert (keys + [k])[..|keys|] == keys;
  }

  lemma SelectStep(keys: seq<Bytes>, range: Range, n: nat)
    requires forall i :: 0 <= i < |keys| ==> |keys[i]| == 8
    requires n < |keys|
    ensures Select(keys[..n + 1], range) ==
      Select(keys[..n], range) + if range.Contains(DecodeIndex(keys[n])) then [keys[n]] else []
  {
    assert keys[..n + 1][..n] == keys[..n];
  }

  lemma CollectStep(t: Tree, keys: seq<Bytes>, range: Range, n: nat)
    requires KeysOf(t, keys) && n < |keys|
    ensures KeysOf(t, Select(keys[..n], range)) && KeysOf(t, Select(keys[..n + 1], range))
    ensures Collect(t, Select(keys[..n + 1], range)) ==
      var prefix := Collect(t, Select(keys[..n], range));
      if prefix.Err? || !range.Contains(DecodeIndex(keys[n])) then prefix
      else if t[keys[n]].EntryJson? then Ok(prefix.value + [t[keys[n]].entry])
      else Err(LogsRead)
  {
    SelectStep(keys, range, n);
    SelectKeysOf(t, keys[..n], range);
    SelectKeysOf(t, keys[..n + 1], range);
    if range.Contains(DecodeIndex(keys[n])) {
      CollectSnoc(t, Select(keys[..n], range), keys[n]);
    } else {
      assert Select(keys[..n], range) + [] == Select(keys[..n], range);
    }
  }

  /** Once an undecodable entry is met, the read fails whatever follows. */
  lemma {:induction false} ErrorIsFinal(t: Tree, keys: seq<Bytes>, range: Range, n: nat)
    requires KeysOf(t, keys) && n <= |keys|
    requires KeysOf(t, Select(keys[..n], range))
    requires Collect(t, Select(keys[..n], range)) == Err(LogsRead)
    ensures KeysOf(t, Select(keys, range))
    ensures Collect(t, Select(keys, range)) == Err(LogsRead)
    decreases |keys| - n
  {
    if n == |keys| {
      assert keys[..n] == keys;
    } else {
      CollectStep(t, keys, range, n);
      ErrorIsFinal(t, keys, range, n + 1);
    }
  }

  datatype LogState = LogState(lastPurged: Option<LogId>, lastLog: Option<LogId>)

  /** The value at the tree's greatest key. */
  ghost function LastBlob(t: Tree): Option<Json> {
    var keys := SortedKeys(t.Keys);
    if keys == [] then None else
      SortedKeysMembers(t.Keys);
      Some(t[keys[|keys| - 1]])
  }

  ghost function ReadLogState(t: Tree, meta: map<string, Json>): Result<LogState, StorageError> {
    if "last_purged" in meta && !meta["last_purged"].LogIdJson? then Err(LogsRead)
    else
      var purged := if "last_purged" in meta then Some(meta["last_purged"].logId) else None;
      match LastBlob(t)
      case None => Ok(LogState(purged, None))
      case Some(blob) => if blob.EntryJson? then Ok(LogState(purged, Some(blob.entry.logId))) else Err(LogsRead)
  }

  /** The log state fails to be read exactly on a purge record that is no log id, or a last value that is no entry. */
  lemma LogStateFails(t: Tree, meta: map<string, Json>)
    ensures ReadLogState(t, meta).Err? <==>
      || ("last_purged" in meta && !meta["last_purged"].LogIdJson?)
      || (LastBlob(t).Some? && !LastBlob(t).value.EntryJson?)
    ensures ReadLogState(t, meta).Err? ==> ReadLogState(t, meta) == Err(LogsRead)
    ensures LastBlob(t).Some? <==> t != map[]
    ensures forall k :: k in t && (forall l :: l in t ==> l == k || LexLess(l, k)) ==> LastBlob(t) == Some(t[k])
  {
    var keys := SortedKeys(t.Keys);
    SortedKeysMembers(t.Keys);
    assert t != map[] <==> t.Keys != {};
    forall k | k in t && (forall l :: l in t ==> l == k || LexLess(l, k)) ensures LastBlob(t) == Some(t[k]) {
      assert k in keys;
      var i :| 0 <= i < |keys| && keys[i] == k;
      var last := keys[|keys| - 1];
      if i < |keys| - 1 {
        LexAsymmetric(k, last);
      }
    }
  }

  // ------------------------------------------------------------------ the store

  class SledLogStore {
    var entries: Tree
    var meta: map<string, Json>

    ghost predicate Valid()
      reads this
    {
      WellKeyed(entries)
    }

    constructor Open(entries: Tree, meta: map<string, Json>)
      requires WellKeyed(entries)
      ensures Valid() && this.entries == entries && this.meta == meta
    {
      this.entries, this.meta := entries, meta;
    }

    /** The scan: skips keys out of range and stops at the first value it cannot decode. */
    method Scan(keys: seq<Bytes>, range: Range) returns (r: Result<seq<Entry>, StorageError>)
      requires KeysOf(entries, keys)
      ensures KeysOf(entries, Select(keys, range))
      ensures r == Collect(entries, Select(keys, range))
    {
      ghost var t := entries;
      var found: seq<Entry> := [];
      SelectKeysOf(t, keys, range);
      for n := 0 to |keys|
        invariant KeysOf(t, Select(keys[..n], range))
        invariant Collect(t, Select(keys[..n], range)) == Ok(found)
      {
        CollectStep(t, keys, range, n);
        if range.Contains(DecodeIndex(keys[n])) {
          if !entries[keys[n]].EntryJson? {
            ErrorIsFinal(t, keys, range, n + 1);
            return Err(LogsRead);
          }
          found := found + [entries[keys[n]].entry];
        }
      }
      assert keys[..|keys|] == keys;
      r := Ok(found);
    }

    method TryGetLogEntries(range: Range) returns (r: Result<seq<Entry>, StorageError>)
      requires Valid()
      ensures r == ReadRange(entries, range)
    {
      var keys := Iterate(entries.Keys);
      SelectIsSorted(entries, range);
      r := Scan(keys, range);
      if r.Ok? {
        r := Ok(SortByIndex(r.value));
      }
    }

    method GetLogState() returns (r: Result<LogState, StorageError>)
      ensures r == ReadLogState(entries, meta)
    {
      var purged: Option<LogId> := None;
      if "last_purged" in meta {
        if !meta["last_purged"].LogIdJson? {
          return Err(LogsRead);
        }
        purged := Some(meta["last_purged"].logId);
      }
      var keys := Iterate(entries.Keys);
      if keys == [] {
        return Ok(LogState(purged, None));
      }
      SortedKeysMembers(entries.Keys);
      var blob := entries[keys[|keys| - 1]];
      if !blob.EntryJson? {
        return Err(LogsRead);
      }
      r := Ok(LogState(purged, Some(blob.entry.logId)));
    }

    /** One atomic batch. */
    method Append(es: seq<Entry>)
      requires Valid()
      modifies this`entries
      ensures Valid() && entries == InsertAll(old(entries), es)
    {
      var batch: Tree := map[];
      for n := 0 to |es|
        invariant WellKeyed(batch)
        invariant entries == old(entries)
        invariant entries + batch == InsertAll(entries, es[..n])
      {
        assert es[..n + 1][..n] == es[..n];
        batch := batch[KeyOf(es[n]) := EntryJson(es[n])];
        assert entries + batch == InsertAll(entries, es[..n])[KeyOf(es[n]) := EntryJson(es[n])];
      }
      assert es[..|es|] == es;
      entries := entries + batch;
    }

    /** The keys are gathered before the first removal. */
    method GatherKeys(range: Range) returns (keys: seq<Bytes>)
      requires Valid()
      ensures keys == SortedKeys(KeysIn(entries, range))
    {
      var all := Iterate(entries.Keys);
      SelectIsSorted(entries, range);
      keys := [];
      for n := 0 to |all|
        invariant keys == Select(all[..n], range)
      {
        SelectStep(all, range, n);
        if range.Contains(DecodeIndex(all[n])) {
          keys := keys + [all[n]];
        }
      }
      assert all[..|all|] == all;
    }

    method Truncate(logId: LogId)
      requires Valid()
      modifies this`entries
      ensures Valid() && entries == AfterRemoval(old(entries), From(logId.index))
      ensures forall k :: k in entries <==> k in old(entries) && DecodeIndex(k) < logId.index
      ensures forall k :: k in entries ==> entries[k] == old(entries)[k]
    {
      var keys := GatherKeys(From(logId.index));
      for n := 0 to |keys|
        invariant entries == RemovalSteps(old(entries), From(logId.index), n)
      {
        RemoveOneMore(old(entries), keys, n);
        entries := entries - {keys[n]};
      }
      LastRemovalCompletes(old(entries), From(logId.index));
    }

    method Purge(logId: LogId)
      requires Valid()
      modifies this
      ensures Valid() && entries == AfterRemoval(old(entries), UpTo(logId.index))
      ensures forall k :: k in entries <==> k in old(entries) && DecodeIndex(k) > logId.index
      ensures forall k :: k in entries ==> entries[k] == old(entries)[k]
      ensures meta == old(meta)["last_purged" := LogIdJson(logId)]
    {
      var keys := GatherKeys(UpTo(logId.index));
      for n := 0 to |keys|
        invariant meta == old(meta)
        invariant entries == RemovalSteps(old(entries), UpTo(logId.index), n)
      {
        RemoveOneMore(old(entries), keys, n);
        entries := entries - {keys[n]};
      }
      LastRemovalCompletes(old(entries), UpTo(logId.index));
      meta := meta["last_purged" := LogIdJson(logId)];
    }
  }
}
