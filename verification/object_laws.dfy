/** Round trips, loss tolerance and isolation of the object store. */
module ObjectLaws {
  import opened Wrappers
  import opened Bytes
  import opened Erasure
  import opened ShardNames
  import opened ObjectStore

  // ------------------------------------------------------------------ what a sequence of writes leaves behind

  predicate TouchesFile(w: Write, path: Path) {
    (w.PutFile? || w.RemoveFile?) && w.path == path
  }

  predicate TouchesIndex(w: Write, bucket: string, key: string) {
    || (w.PutIndex? && w.meta.bucket == bucket && w.meta.key == key)
    || (w.RemoveIndex? && w.bucket == bucket && w.key == key)
  }

  /** If every write to a file writes the same bytes and one happens, the file ends with these bytes. */
  lemma {:induction false} FileSettles(disk: Disk, ws: seq<Write>, path: Path, bytes: Bytes)
    requires forall i :: 0 <= i < |ws| && TouchesFile(ws[i], path) ==> ws[i] == PutFile(path, bytes)
    requires PutFile(path, bytes) in ws
    ensures path in ApplyWrites(disk, ws).files && ApplyWrites(disk, ws).files[path] == bytes
  {
    var last := |ws| - 1;
    if ws[last] == PutFile(path, bytes) {
    } else {
      assert ws == ws[..last] + [ws[last]];
      FileSettles(disk, ws[..last], path, bytes);
    }
  }

  lemma {:induction false} FileUntouched(disk: Disk, ws: seq<Write>, path: Path)
    requires forall i :: 0 <= i < |ws| ==> !TouchesFile(ws[i], path)
    ensures path in ApplyWrites(disk, ws).files <==> path in disk.files
    ensures path in disk.files ==> ApplyWrites(disk, ws).files[path] == disk.files[path]
  {
    if ws == [] {
    } else {
      FileUntouched(disk, ws[..|ws| - 1], path);
    }
  }

  lemma {:induction false} IndexSettles(disk: Disk, ws: seq<Write>, meta: ObjectMetadata)
    requires forall i :: 0 <= i < |ws| && TouchesIndex(ws[i], meta.bucket, meta.key) ==> ws[i] == PutIndex(meta)
    requires PutIndex(meta) in ws
    ensures
      var index := ApplyWrites(disk, ws).index;
      (meta.bucket, meta.key) in index && index[(meta.bucket, meta.key)] == meta
  {
    var last := |ws| - 1;
    if ws[last] == PutIndex(meta) {
    } else {
      assert ws == ws[..last] + [ws[last]];
      IndexSettles(disk, ws[..last], meta);
    }
  }

  lemma {:induction false} IndexUntouched(disk: Disk, ws: seq<Write>, bucket: string, key: string)
    requires forall i :: 0 <= i < |ws| ==> !TouchesIndex(ws[i], bucket, key)
    ensures (bucket, key) in ApplyWrites(disk, ws).index <==> (bucket, key) in disk.index
    ensures (bucket, key) in disk.index ==> ApplyWrites(disk, ws).index[(bucket, key)] == disk.index[(bucket, key)]
  {
    if ws == [] {
    } else {
      IndexUntouched(disk, ws[..|ws| - 1], bucket, key);
    }
  }

  // ------------------------------------------------------------------ the central law

  /** The disk holds the object: its index entry and all its data shards. */
  ghost predicate Stores(prims: Primitives, disk: Disk, o: Object) {
    && (o.bucket, o.key) in disk.index && disk.index[(o.bucket, o.key)] == o.Metadata(prims)
    && forall i :: 0 <= i < o.policy.DataShards() ==>
         var path := ShardPath(o.bucket, o.key, i);
         path in disk.files && disk.files[path] == o.Shards(prims)[i]
  }

  lemma StoredIsReadable(prims: Primitives, disk: Disk, o: Object)
    requires prims.Lawful() && o.Fits(prims) && Stores(prims, disk, o)
    ensures GetObject(prims, disk, o.bucket, o.key) == Ok(o.data)
  {
    PolicyTablesAgree(o.policy);
    var d := o.policy.DataShards();
    var held := ShardFiles(disk.files, o.bucket, o.key, d);
    assert held == held[..d] == o.Shards(prims)[..d];
    ErasureRoundTrip(o.Stored(prims), d, o.policy.ParityShards(), held);
  }

  /** A write that belongs to the object, or that leaves its index entry and its data shards alone. */
  ghost predicate Cooperates(prims: Primitives, o: Object, w: Write) {
    && (TouchesIndex(w, o.bucket, o.key) ==> w == PutIndex(o.Metadata(prims)))
    && forall i :: 0 <= i < o.policy.DataShards() && TouchesFile(w, ShardPath(o.bucket, o.key, i)) ==>
         w == PutFile(ShardPath(o.bucket, o.key, i), o.Shards(prims)[i])
  }

  /** The writes include the object's index entry and all its data shards. */
  ghost predicate Complete(prims: Primitives, o: Object, ws: seq<Write>) {
    && PutIndex(o.Metadata(prims)) in ws
    && forall i :: 0 <= i < o.policy.DataShards() ==>
         PutFile(ShardPath(o.bucket, o.key, i), o.Shards(prims)[i]) in ws
  }

  /**
   * In any order, with any repetitions, interleaved with any writes that do not compete, and whatever was on the disk
   * before: as soon as the index entry and every data shard have been written, a get returns the object's bytes.
   */
  lemma WritesConverge(prims: Primitives, disk: Disk, o: Object, ws: seq<Write>)
    requires prims.Lawful() && o.Fits(prims)
    requires forall j :: 0 <= j < |ws| ==> Cooperates(prims, o, ws[j])
    requires Complete(prims, o, ws)
    ensures Stores(prims, ApplyWrites(disk, ws), o)
    ensures GetObject(prims, ApplyWrites(disk, ws), o.bucket, o.key) == Ok(o.data)
  {
    IndexSettles(disk, ws, o.Metadata(prims));
    forall i | 0 <= i < o.policy.DataShards()
      ensures
        var path := ShardPath(o.bucket, o.key, i);
        path in ApplyWrites(disk, ws).files && ApplyWrites(disk, ws).files[path] == o.Shards(prims)[i]
    {
      FileSettles(disk, ws, ShardPath(o.bucket, o.key, i), o.Shards(prims)[i]);
    }
    StoredIsReadable(prims, ApplyWrites(disk, ws), o);
  }

  // ------------------------------------------------------------------ names on disk

  /** Shard files coincide exactly for equal buckets, equal mangled keys and equal shard numbers. */
  lemma ShardPathInjective(bucket: string, k: string, i: nat, bucket': string, l: string, j: nat)
    ensures ShardPath(bucket, k, i) == ShardPath(bucket', l, j) <==>
      bucket == bucket' && Mangle(k) == Mangle(l) && i == j
  {
    if ShardPath(bucket, k, i) == ShardPath(bucket', l, j) {
      ShardNameHasNoSlash(bucket, k, i);
      ShardNameHasNoSlash(bucket', l, j);
      FileInSplits(bucket, ShardName(ObjectId(bucket, k), i), bucket', ShardName(ObjectId(bucket', l), j));
      ShardNameInjective(bucket, k, i, l, j);
    } else if Mangle(k) == Mangle(l) {
      ObjectIdMangles(bucket, k, l);
    }
  }

  lemma MetaPathIsNoShard(bucket: string, k: string, i: nat, bucket': string, l: string, j: nat)
    ensures ShardPath(bucket, k, i) != MetaPath(bucket', l, j)
  {
    ShardIsNotMeta(bucket, ObjectId(bucket, k), i, bucket', ShardName(ObjectId(bucket', l), j));
  }

  // ------------------------------------------------------------------ put, then get

  /** One of the two file writes of shard i. */
  ghost predicate IsShardWrite(prims: Primitives, o: Object, i: nat, w: Write)
    requires i < |o.Shards(prims)|
  {
    var shard := o.Shards(prims)[i];
    || w == PutFile(ShardPath(o.bucket, o.key, i), shard)
    || w == PutFile(MetaPath(o.bucket, o.key, i), prims.metaText(i, prims.sha(shard), |o.data|))
  }

  lemma NextShardWrites(prims: Primitives, o: Object, n: nat, w: Write)
    requires 0 < n <= |o.Shards(prims)|
    ensures w in ShardWrites(prims, o, n) <==>
      w in ShardWrites(prims, o, n - 1) || IsShardWrite(prims, o, n - 1, w)
  {
    hide Object.Shards, ShardPath, MetaPath;
    var ws, before := ShardWrites(prims, o, n), ShardWrites(prims, o, n - 1);
    var tail := ws[2 * (n - 1)..];
    assert ws == before + tail;
    assert w in tail <==> IsShardWrite(prims, o, n - 1, w);
  }

  lemma {:induction false} ShardWritesContents(prims: Primitives, o: Object, n: nat, w: Write)
    requires n <= |o.Shards(prims)|
    ensures w in ShardWrites(prims, o, n) <==> exists i :: 0 <= i < n && IsShardWrite(prims, o, i, w)
  {
    hide Object.Shards, IsShardWrite;
    if n == 0 {
    } else {
      ShardWritesContents(prims, o, n - 1, w);
      NextShardWrites(prims, o, n, w);
    }
  }

  lemma ShardWriteCooperates(prims: Primitives, o: Object, i: nat, w: Write)
    requires i < |o.Shards(prims)| && IsShardWrite(prims, o, i, w)
    ensures Cooperates(prims, o, w)
  {
    forall k | 0 <= k < o.policy.DataShards() && TouchesFile(w, ShardPath(o.bucket, o.key, k))
      ensures w == PutFile(ShardPath(o.bucket, o.key, k), o.Shards(prims)[k])
    {
      MetaPathIsNoShard(o.bucket, o.key, k, o.bucket, o.key, i);
      ShardPathInjective(o.bucket, o.key, i, o.bucket, o.key, k);
    }
  }

  lemma PutCooperates(prims: Primitives, o: Object)
    ensures forall j :: 0 <= j < |PutWrites(prims, o)| ==> Cooperates(prims, o, PutWrites(prims, o)[j])
    ensures Complete(prims, o, PutWrites(prims, o))
  {
    var n := |o.Shards(prims)|;
    forall j | 0 <= j < |PutWrites(prims, o)| ensures Cooperates(prims, o, PutWrites(prims, o)[j]) {
      if j < 2 * n {
        var w := ShardWrites(prims, o, n)[j];
        ShardWritesContents(prims, o, n, w);
        var i :| 0 <= i < n && IsShardWrite(prims, o, i, w);
        ShardWriteCooperates(prims, o, i, w);
      }
    }
    forall i | 0 <= i < o.policy.DataShards()
      ensures PutFile(ShardPath(o.bucket, o.key, i), o.Shards(prims)[i]) in PutWrites(prims, o)
    {
      var w := PutFile(ShardPath(o.bucket, o.key, i), o.Shards(prims)[i]);
      assert IsShardWrite(prims, o, i, w);
      ShardWritesContents(prims, o, n, w);
    }
  }

  /** Deletes or overwrites one of the object's parity shards. */
  ghost predicate OnlyParity(o: Object, w: Write) {
    && (w.PutFile? || w.RemoveFile?)
    && exists i: nat :: i >= o.policy.DataShards() && w.path == ShardPath(o.bucket, o.key, i)
  }

  lemma ParityCooperates(prims: Primitives, o: Object, w: Write)
    requires OnlyParity(o, w)
    ensures Cooperates(prims, o, w)
  {
    var i: nat :| i >= o.policy.DataShards() && w.path == ShardPath(o.bucket, o.key, i);
    forall k | 0 <= k < o.policy.DataShards() ensures w.path != ShardPath(o.bucket, o.key, k) {
      ShardPathInjective(o.bucket, o.key, i, o.bucket, o.key, k);
    }
  }

  lemma PutThenDamageCooperates(prims: Primitives, o: Object, damage: seq<Write>)
    requires forall j :: 0 <= j < |damage| ==> OnlyParity(o, damage[j])
    ensures
      var ws := PutWrites(prims, o) + damage;
      Complete(prims, o, ws) && forall j :: 0 <= j < |ws| ==> Cooperates(prims, o, ws[j])
  {
    hide PutWrites, Object.Shards, Cooperates, OnlyParity, ShardPath;
    PutCooperates(prims, o);
    var n := |PutWrites(prims, o)|;
    var ws := PutWrites(prims, o) + damage;
    forall j | 0 <= j < |ws| ensures Cooperates(prims, o, ws[j]) {
      if j >= n {
        assert OnlyParity(o, damage[j - n]);
        ParityCooperates(prims, o, damage[j - n]);
      }
    }
  }

  /** From any disk and for all four policies, put then get returns the bytes, whatever happens to parity shards. */
  lemma PutThenGet(prims: Primitives, disk: Disk, o: Object, damage: seq<Write>)
    requires prims.Lawful() && o.Fits(prims)
    requires forall j :: 0 <= j < |damage| ==> OnlyParity(o, damage[j])
    ensures GetObject(prims, ApplyWrites(ApplyWrites(disk, PutWrites(prims, o)), damage), o.bucket, o.key) == Ok(o.data)
  {
    hide PutWrites, Object.Shards, GetObject, Cooperates, Complete, Stores, OnlyParity, ShardPath;
    PutThenDamageCooperates(prims, o, damage);
    ApplyWritesConcat(disk, PutWrites(prims, o), damage);
    WritesConverge(prims, disk, o, PutWrites(prims, o) + damage);
  }

  /** A stored object stays readable when shard files are deleted exactly if no data shard is among them. */
  lemma LossTolerance(prims: Primitives, disk: Disk, o: Object, lost: set<nat>)
    requires prims.Lawful() && o.Fits(prims) && Stores(prims, disk, o)
    ensures
      var gone := set i | i in lost :: ShardPath(o.bucket, o.key, i);
      var left := disk.(files := disk.files - gone);
      if exists i :: i in lost && i < o.policy.DataShards()
      then GetObject(prims, left, o.bucket, o.key) == Err(InsufficientShards)
      else GetObject(prims, left, o.bucket, o.key) == Ok(o.data)
  {
    PolicyTablesAgree(o.policy);
    var gone := set i | i in lost :: ShardPath(o.bucket, o.key, i);
    var left := disk.(files := disk.files - gone);
    if i :| i in lost && i < o.policy.DataShards() {
      assert ShardPath(o.bucket, o.key, i) in gone;
      assert ShardPath(o.bucket, o.key, i) !in left.files;
    } else {
      forall k | 0 <= k < o.policy.DataShards() ensures ShardPath(o.bucket, o.key, k) !in gone {
        forall i | i in lost ensures ShardPath(o.bucket, o.key, i) != ShardPath(o.bucket, o.key, k) {
          ShardPathInjective(o.bucket, o.key, i, o.bucket, o.key, k);
        }
      }
      StoredIsReadable(prims, left, o);
    }
  }

  // ------------------------------------------------------------------ isolation

  lemma PutSparesOtherIndex(prims: Primitives, disk: Disk, o: Object, bucket: string, key: string)
    requires (bucket, key) != (o.bucket, o.key)
    ensures
      var before, after := disk.index, ApplyWrites(disk, PutWrites(prims, o)).index;
      && ((bucket, key) in after <==> (bucket, key) in before)
      && ((bucket, key) in before ==> after[(bucket, key)] == before[(bucket, key)])
  {
    var ws := PutWrites(prims, o);
    var n := |o.Shards(prims)|;
    forall j | 0 <= j < |ws| ensures !TouchesIndex(ws[j], bucket, key) {
      if j < 2 * n {
        ShardWritesContents(prims, o, n, ShardWrites(prims, o, n)[j]);
      }
    }
    IndexUntouched(disk, ws, bucket, key);
  }

  /** A put leaves every get alone whose bucket or mangled key differs. */
  lemma PutIsolation(prims: Primitives, disk: Disk, o: Object, bucket: string, key: string)
    requires bucket != o.bucket || Mangle(key) != Mangle(o.key)
    ensures GetObject(prims, ApplyWrites(disk, PutWrites(prims, o)), bucket, key) == GetObject(prims, disk, bucket, key)
  {
    var ws := PutWrites(prims, o);
    var n := |o.Shards(prims)|;
    forall i: nat, j | 0 <= j < |ws| ensures !TouchesFile(ws[j], ShardPath(bucket, key, i)) {
      if j < 2 * n {
        ShardWritesContents(prims, o, n, ShardWrites(prims, o, n)[j]);
        var k :| 0 <= k < n && IsShardWrite(prims, o, k, ws[j]);
        MetaPathIsNoShard(bucket, key, i, o.bucket, o.key, k);
        ShardPathInjective(o.bucket, o.key, k, bucket, key, i);
      }
    }
    PutSparesOtherIndex(prims, disk, o, bucket, key);
    forall i: nat
      ensures
        var path := ShardPath(bucket, key, i);
        && (path in ApplyWrites(disk, ws).files <==> path in disk.files)
        && (path in disk.files ==> ApplyWrites(disk, ws).files[path] == disk.files[path])
    {
      FileUntouched(disk, ws, ShardPath(bucket, key, i));
    }
    if (bucket, key) in disk.index {
      var d := ReadParams(disk.index[(bucket, key)].policy).0;
      var after := ApplyWrites(disk, ws);
      assert HasShards(after.files, bucket, key, d) <==> HasShards(disk.files, bucket, key, d);
      if HasShards(disk.files, bucket, key, d) {
        assert ShardFiles(after.files, bucket, key, d) == ShardFiles(disk.files, bucket, key, d);
      }
    }
  }

  // ------------------------------------------------------------------ interrupted puts, and deletes

  /** Until its very last write a put changes no index entry. */
  lemma {:induction false} PutShowsLast(prims: Primitives, disk: Disk, o: Object, n: nat)
    requires n <= |PutWrites(prims, o)|
    ensures n < |PutWrites(prims, o)| ==> ApplyWrites(disk, PutWrites(prims, o)[..n]).index == disk.index
    ensures n == |PutWrites(prims, o)| ==>
      ApplyWrites(disk, PutWrites(prims, o)[..n]).index == disk.index[(o.bucket, o.key) := o.Metadata(prims)]
  {
    hide Object.Shards, ShardPath, MetaPath, PutWrites;
    if n == 0 {
      PutOrder(prims, o);
    } else {
      PutShowsLast(prims, disk, o, n - 1);
      var ws := PutWrites(prims, o);
      assert ws[..n][..n - 1] == ws[..n - 1];
      PutOrder(prims, o);
      var i := (n - 1) / 2;
      assert n - 1 == 2 * i || n - 1 == 2 * i + 1;
    }
  }

  lemma MetaPathInjective(bucket: string, key: string, i: nat, j: nat)
    requires MetaPath(bucket, key, i) == MetaPath(bucket, key, j)
    ensures i == j
  {
    var id := ObjectId(bucket, key);
    var s, t := ShardName(id, i), ShardName(id, j);
    var p, q := FileIn(bucket, MetaName(s)), FileIn(bucket, MetaName(t));
    assert |s| == |t|;
    assert s == p[|bucket| + 1..|bucket| + 1 + |s|] && t == q[|bucket| + 1..|bucket| + 1 + |t|];
    ShardNameSplits(id, i, id, j);
  }

  /** After a put the `.meta` file of each shard holds that shard's number and hash and the object's size. */
  lemma MetaAfterPut(prims: Primitives, disk: Disk, o: Object, i: nat)
    requires i < |o.Shards(prims)|
    ensures
      var path, files := MetaPath(o.bucket, o.key, i), ApplyWrites(disk, PutWrites(prims, o)).files;
      path in files && files[path] == prims.metaText(i, prims.sha(o.Shards(prims)[i]), |o.data|)
  {
    hide Object.Shards, ShardPath, MetaPath;
    var ws, n := PutWrites(prims, o), |o.Shards(prims)|;
    var w := PutFile(MetaPath(o.bucket, o.key, i), prims.metaText(i, prims.sha(o.Shards(prims)[i]), |o.data|));
    assert IsShardWrite(prims, o, i, w);
    ShardWritesContents(prims, o, n, w);
    forall j | 0 <= j < |ws| && TouchesFile(ws[j], w.path) ensures ws[j] == w {
      ShardWritesContents(prims, o, n, ShardWrites(prims, o, n)[j]);
      var k :| 0 <= k < n && IsShardWrite(prims, o, k, ws[j]);
      MetaPathIsNoShard(o.bucket, o.key, k, o.bucket, o.key, i);
      MetaPathInjective(o.bucket, o.key, k, i);
    }
    FileSettles(disk, ws, w.path, w.bytes);
  }

  lemma NoWrites(disk: Disk)
    ensures ApplyWrites(disk, []) == disk
  {
  }

  /**
   * After a delete the object is not found and every other get is as before; the files stay, and a put brings the
   * object back.
   */
  lemma DeleteHides(prims: Primitives, disk: Disk, bucket: string, key: string)
    ensures
      var after := ApplyWrites(disk, [RemoveIndex(bucket, key)]);
      && GetObject(prims, after, bucket, key) == Err(NotFound)
      && after.files == disk.files
      && (forall b, k :: (b, k) != (bucket, key) ==>
            GetObject(prims, after, b, k) == GetObject(prims, disk, b, k))
    ensures forall data, policy ::
      var o := Object(bucket, key, data, policy);
      prims.Lawful() && o.Fits(prims) ==>
        GetObject(prims, ApplyWrites(ApplyWrites(disk, [RemoveIndex(bucket, key)]), PutWrites(prims, o)), bucket, key)
        == Ok(data)
  {
    var ws := [RemoveIndex(bucket, key)];
    var after := ApplyWrites(disk, ws);
    assert ws[..|ws| - 1] == [];
    assert after == ApplyWrite(ApplyWrites(disk, []), RemoveIndex(bucket, key));
    forall data, policy | prims.Lawful() && Object(bucket, key, data, policy).Fits(prims)
      ensures GetObject(prims, ApplyWrites(after, PutWrites(prims, Object(bucket, key, data, policy))), bucket, key)
        == Ok(data)
    {
      hide GetObject, PutWrites, ApplyWrites;
      PutThenGet(prims, after, Object(bucket, key, data, policy), []);
      NoWrites(ApplyWrites(after, PutWrites(prims, Object(bucket, key, data, policy))));
    }
  }
}
