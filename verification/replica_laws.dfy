/** The shard fan-out: what the origin reads after a put, and when the peers that receive it can serve the object. */
module ReplicaLaws {
  import opened Wrappers
  import opened Bytes
  import opened ShardNames
  import opened ObjectStore
  import opened ObjectLaws

  /** The peers' path of a shard is the one a get reads exactly for equal shard numbers and buckets without a slash. */
  lemma PeerPathsCoincide(bucket: string, key: string, k: nat, i: nat)
    ensures PeerShardPath(bucket, key, k) == ShardPath(bucket, key, i) <==> NoSlash(bucket) && k == i
  {
    ObjectIdsAgree(bucket, key);
    var s, t := ShardName(PeerObjectId(bucket, key), k), ShardName(ObjectId(bucket, key), i);
    if FileIn(bucket, s) == FileIn(bucket, t) {
      assert s == FileIn(bucket, s)[|bucket| + 1..] && t == FileIn(bucket, t)[|bucket| + 1..];
      ShardNameSplits(PeerObjectId(bucket, key), k, ObjectId(bucket, key), i);
    }
  }

  // ------------------------------------------------------------------ the origin reads

  function ShardingOf(prims: Primitives, o: Object, i: nat): Sharding
    requires i < |o.Shards(prims)|
  {
    Sharding(i, prims.sha(o.Shards(prims)[i]), o.Shards(prims)[i])
  }

  /** All shards of the object, numbered and hashed. */
  function Shardings(prims: Primitives, o: Object, n: nat): (r: seq<Sharding>)
    requires n <= |o.Shards(prims)|
    ensures |r| == n && forall i :: 0 <= i < n ==> r[i] == ShardingOf(prims, o, i)
  {
    seq(n, i requires 0 <= i < n => ShardingOf(prims, o, i))
  }

  lemma {:induction false} PresentShardsAre(prims: Primitives, files: map<Path, Bytes>, o: Object, n: nat)
    requires NoSlash(o.bucket) && n <= |o.Shards(prims)|
    requires forall i :: 0 <= i < n ==>
      var path := ShardPath(o.bucket, o.key, i);
      path in files && files[path] == o.Shards(prims)[i]
    ensures PresentShards(prims, files, o.bucket, o.key, n) == Shardings(prims, o, n)
  {
    hide Object.Shards, ShardPath, PeerShardPath;
    if n == 0 {
    } else {
      PresentShardsAre(prims, files, o, n - 1);
      PeerPathsCoincide(o.bucket, o.key, n - 1, n - 1);
      assert Shardings(prims, o, n) == Shardings(prims, o, n - 1) + [ShardingOf(prims, o, n - 1)];
    }
  }

  lemma ShardAfterPut(prims: Primitives, disk: Disk, o: Object, i: nat)
    requires i < |o.Shards(prims)|
    ensures
      var path, files := ShardPath(o.bucket, o.key, i), ApplyWrites(disk, PutWrites(prims, o)).files;
      path in files && files[path] == o.Shards(prims)[i]
  {
    hide Object.Shards, ShardPath, MetaPath;
    var ws, n := PutWrites(prims, o), |o.Shards(prims)|;
    var w := PutFile(ShardPath(o.bucket, o.key, i), o.Shards(prims)[i]);
    assert IsShardWrite(prims, o, i, w);
    ShardWritesContents(prims, o, n, w);
    forall j | 0 <= j < |ws| && TouchesFile(ws[j], w.path) ensures ws[j] == w {
      ShardWritesContents(prims, o, n, ShardWrites(prims, o, n)[j]);
      var k :| 0 <= k < n && IsShardWrite(prims, o, k, ws[j]);
      MetaPathIsNoShard(o.bucket, o.key, i, o.bucket, o.key, k);
      ShardPathInjective(o.bucket, o.key, k, o.bucket, o.key, i);
    }
    FileSettles(disk, ws, w.path, w.bytes);
  }

  lemma PutIsIndexed(prims: Primitives, disk: Disk, o: Object)
    ensures
      var index := ApplyWrites(disk, PutWrites(prims, o)).index;
      (o.bucket, o.key) in index && index[(o.bucket, o.key)] == o.Metadata(prims)
  {
    PutCooperates(prims, o);
    IndexSettles(disk, PutWrites(prims, o), o.Metadata(prims));
  }

  /** Right after a put the fan-out reads every shard, data and parity, in order, each with its hash. */
  lemma FanOutReadsAll(prims: Primitives, disk: Disk, o: Object)
    requires NoSlash(o.bucket)
    ensures
      var after := ApplyWrites(disk, PutWrites(prims, o));
      var n := |o.Shards(prims)|;
      && (o.bucket, o.key) in after.index
      && TotalShards(after.index[(o.bucket, o.key)].policy) == n
      && PresentShards(prims, after.files, o.bucket, o.key, n) == Shardings(prims, o, n)
  {
    PolicyTablesAgree(o.policy);
    hide PutWrites, ShardPath, PresentShards, Shardings, Cooperates, Complete;
    PutIsIndexed(prims, disk, o);
    var after := ApplyWrites(disk, PutWrites(prims, o));
    var n := |o.Shards(prims)|;
    forall i | 0 <= i < n
      ensures
        var path := ShardPath(o.bucket, o.key, i);
        path in after.files && after.files[path] == o.Shards(prims)[i]
    {
      ShardAfterPut(prims, disk, o, i);
    }
    PresentShardsAre(prims, after.files, o, n);
  }

  lemma {:induction false} NonePresent(prims: Primitives, files: map<Path, Bytes>, bucket: string, key: string, n: nat)
    requires forall i: nat :: i < n ==> PeerShardPath(bucket, key, i) !in files
    ensures PresentShards(prims, files, bucket, key, n) == []
  {
    if n == 0 {
    } else {
      NonePresent(prims, files, bucket, key, n - 1);
    }
  }

  /** Neither way of naming confuses shards with `.meta` files. */
  lemma PeerPathIsNoMeta(bucket: string, key: string, i: nat, k: nat)
    ensures PeerShardPath(bucket, key, i) != MetaPath(bucket, key, k)
    ensures ShardPath(bucket, key, i) != PeerMetaPath(bucket, key, k)
  {
    ShardIsNotMeta(bucket, PeerObjectId(bucket, key), i, bucket, ShardName(ObjectId(bucket, key), k));
    ShardIsNotMeta(bucket, ObjectId(bucket, key), i, bucket, ShardName(PeerObjectId(bucket, key), k));
  }

  /** For a bucket with a slash the fan-out looks where a put does not write: without such files it finds nothing. */
  lemma FanOutMissesSlashBuckets(prims: Primitives, disk: Disk, o: Object)
    requires !NoSlash(o.bucket)
    requires forall i: nat :: PeerShardPath(o.bucket, o.key, i) !in disk.files
    ensures PresentShards(prims, ApplyWrites(disk, PutWrites(prims, o)).files, o.bucket, o.key, |o.Shards(prims)|) == []
  {
    hide Object.Shards, ShardPath, PeerShardPath;
    var ws, n := PutWrites(prims, o), |o.Shards(prims)|;
    forall i: nat ensures PeerShardPath(o.bucket, o.key, i) !in ApplyWrites(disk, ws).files {
      var path := PeerShardPath(o.bucket, o.key, i);
      forall j | 0 <= j < |ws| ensures !TouchesFile(ws[j], path) {
        if j < 2 * n {
          ShardWritesContents(prims, o, n, ShardWrites(prims, o, n)[j]);
          var k :| 0 <= k < n && IsShardWrite(prims, o, k, ws[j]);
          PeerPathsCoincide(o.bucket, o.key, i, k);
          PeerPathIsNoMeta(o.bucket, o.key, i, k);
        }
      }
      FileUntouched(disk, ws, path);
    }
    NonePresent(prims, ApplyWrites(disk, ws).files, o.bucket, o.key, n);
  }

  // ------------------------------------------------------------------ the peer writes

  /** The TransferChunk request for shard i of a put. */
  function MessageFor(prims: Primitives, o: Object, i: nat): Message
    requires i < |o.Shards(prims)|
  {
    FanOutMessage(o.Metadata(prims), ShardingOf(prims, o, i))
  }

  /** What a transferred shard touches: the files under the peer's names, and the index entry of the original put. */
  lemma TransferParts(prims: Primitives, o: Object, i: nat, w: Write)
    requires i < |o.Shards(prims)|
    ensures w in TransferWrites(prims, MessageFor(prims, o, i)) <==>
      || w == PutFile(PeerShardPath(o.bucket, o.key, i), o.Shards(prims)[i])
      || w == PutFile(PeerMetaPath(o.bucket, o.key, i),
                      prims.metaText(i, prims.sha(o.Shards(prims)[i]), |o.data|))
      || w == PutIndex(o.Metadata(prims))
  {
    hide Object.Shards, PeerShardPath, PeerMetaPath;
    PolicyTablesAgree(o.policy);
  }

  /** A write of some transferred shard of the object. */
  ghost predicate FromTransfer(prims: Primitives, o: Object, w: Write) {
    exists i: nat :: i < |o.Shards(prims)| && w in TransferWrites(prims, MessageFor(prims, o, i))
  }

  lemma TransferCooperates(prims: Primitives, o: Object, w: Write)
    requires NoSlash(o.bucket) && FromTransfer(prims, o, w)
    ensures Cooperates(prims, o, w)
  {
    hide Object.Shards, ShardPath, PeerShardPath, PeerMetaPath, TransferWrites, MessageFor;
    var i: nat :| i < |o.Shards(prims)| && w in TransferWrites(prims, MessageFor(prims, o, i));
    TransferParts(prims, o, i, w);
    forall k | 0 <= k < o.policy.DataShards() && TouchesFile(w, ShardPath(o.bucket, o.key, k))
      ensures w == PutFile(ShardPath(o.bucket, o.key, k), o.Shards(prims)[k])
    {
      PeerPathsCoincide(o.bucket, o.key, i, k);
      PeerPathIsNoMeta(o.bucket, o.key, k, i);
    }
  }

  lemma DataTransfersComplete(prims: Primitives, o: Object, ws: seq<Write>)
    requires NoSlash(o.bucket)
    requires forall i :: 0 <= i < o.policy.DataShards() ==>
      forall w :: w in TransferWrites(prims, MessageFor(prims, o, i)) ==> w in ws
    ensures Complete(prims, o, ws)
  {
    hide ShardPath, PeerShardPath, PeerMetaPath, TransferWrites, MessageFor;
    forall i | 0 <= i < o.policy.DataShards()
      ensures PutFile(ShardPath(o.bucket, o.key, i), o.Shards(prims)[i]) in ws
    {
      PeerPathsCoincide(o.bucket, o.key, i, i);
      TransferParts(prims, o, i, PutFile(ShardPath(o.bucket, o.key, i), o.Shards(prims)[i]));
    }
    TransferParts(prims, o, 0, PutIndex(o.Metadata(prims)));
  }

  // ------------------------------------------------------------------ main results

  /**
   * A peer that performs the single writes of transferred shards in any order, with any repetitions, interleaved with
   * writes that do not compete, serves the same bytes under the same metadata once every data shard has arrived.
   */
  lemma ReplicaConvergence(prims: Primitives, disk: Disk, o: Object, ws: seq<Write>)
    requires prims.Lawful() && o.Fits(prims) && NoSlash(o.bucket)
    requires forall j :: 0 <= j < |ws| ==> FromTransfer(prims, o, ws[j]) || Cooperates(prims, o, ws[j])
    requires forall i :: 0 <= i < o.policy.DataShards() ==>
      forall w :: w in TransferWrites(prims, MessageFor(prims, o, i)) ==> w in ws
    ensures GetObject(prims, ApplyWrites(disk, ws), o.bucket, o.key) == Ok(o.data)
    ensures
      var index := ApplyWrites(disk, ws).index;
      (o.bucket, o.key) in index && index[(o.bucket, o.key)] == o.Metadata(prims)
  {
    hide GetObject, Object.Shards, ShardPath, Cooperates, Complete, FromTransfer, TransferWrites, MessageFor;
    forall j | 0 <= j < |ws| ensures Cooperates(prims, o, ws[j]) {
      if FromTransfer(prims, o, ws[j]) {
        TransferCooperates(prims, o, ws[j]);
      }
    }
    DataTransfersComplete(prims, o, ws);
    WritesConverge(prims, disk, o, ws);
  }

  /** The writes of whole TransferChunk calls for the given shards, one call after the other. */
  function DeliveryWrites(prims: Primitives, o: Object, order: seq<nat>): seq<Write>
    requires forall k :: 0 <= k < |order| ==> order[k] < |o.Shards(prims)|
  {
    if order == [] then [] else
      var last := |order| - 1;
      DeliveryWrites(prims, o, order[..last]) + TransferWrites(prims, MessageFor(prims, o, order[last]))
  }

  lemma {:induction false} DeliveryContents(prims: Primitives, o: Object, order: seq<nat>, w: Write)
    requires forall k :: 0 <= k < |order| ==> order[k] < |o.Shards(prims)|
    ensures w in DeliveryWrites(prims, o, order) <==>
      exists i :: i in order && i < |o.Shards(prims)| && w in TransferWrites(prims, MessageFor(prims, o, i))
  {
    hide TransferWrites, MessageFor, Object.Shards;
    if order == [] {
    } else {
      var init, n := order[..|order| - 1], order[|order| - 1];
      DeliveryContents(prims, o, init, w);
      assert order == init + [n];
    }
  }

  lemma MissingShard(prims: Primitives, disk: Disk, o: Object, order: seq<nat>, i: nat)
    requires order != [] && forall k :: 0 <= k < |order| ==> order[k] < |o.Shards(prims)|
    requires i < o.policy.DataShards() && ShardPath(o.bucket, o.key, i) !in disk.files
    requires i !in order || !NoSlash(o.bucket)
    ensures GetObject(prims, ApplyWrites(disk, DeliveryWrites(prims, o, order)), o.bucket, o.key)
      == Err(InsufficientShards)
  {
    PolicyTablesAgree(o.policy);
    hide Object.Shards, ShardPath, PeerShardPath, PeerMetaPath, TransferWrites, MessageFor, DeliveryWrites;
    var ws := DeliveryWrites(prims, o, order);
    forall j | 0 <= j < |ws|
      ensures !TouchesFile(ws[j], ShardPath(o.bucket, o.key, i))
      ensures TouchesIndex(ws[j], o.bucket, o.key) ==> ws[j] == PutIndex(o.Metadata(prims))
    {
      DeliveryContents(prims, o, order, ws[j]);
      var k :| k in order && k < |o.Shards(prims)| && ws[j] in TransferWrites(prims, MessageFor(prims, o, k));
      TransferParts(prims, o, k, ws[j]);
      PeerPathsCoincide(o.bucket, o.key, k, i);
      PeerPathIsNoMeta(o.bucket, o.key, i, k);
    }
    FileUntouched(disk, ws, ShardPath(o.bucket, o.key, i));
    TransferParts(prims, o, order[0], PutIndex(o.Metadata(prims)));
    DeliveryContents(prims, o, order, PutIndex(o.Metadata(prims)));
    IndexSettles(disk, ws, o.Metadata(prims));
  }

  lemma AllDelivered(prims: Primitives, disk: Disk, o: Object, order: seq<nat>)
    requires prims.Lawful() && o.Fits(prims) && NoSlash(o.bucket)
    requires forall k :: 0 <= k < |order| ==> order[k] < |o.Shards(prims)|
    requires forall i: nat :: i < o.policy.DataShards() ==> i in order
    ensures
      var after := ApplyWrites(disk, DeliveryWrites(prims, o, order));
      && GetObject(prims, after, o.bucket, o.key) == Ok(o.data)
      && (o.bucket, o.key) in after.index && after.index[(o.bucket, o.key)] == o.Metadata(prims)
  {
    hide GetObject, TransferWrites, MessageFor, DeliveryWrites, Object.Shards, Cooperates;
    var ws := DeliveryWrites(prims, o, order);
    forall j | 0 <= j < |ws| ensures FromTransfer(prims, o, ws[j]) {
      DeliveryContents(prims, o, order, ws[j]);
    }
    forall i: nat, w | i < o.policy.DataShards() && w in TransferWrites(prims, MessageFor(prims, o, i))
      ensures w in ws
    {
      DeliveryContents(prims, o, order, w);
    }
    ReplicaConvergence(prims, disk, o, ws);
  }

  /**
   * Whole calls in any order, with any repetitions, on any disk: for a bucket without a slash the peer serves the
   * object once every data shard has arrived. On a disk that held none of its data shards it serves the object at no
   * earlier moment, and for a bucket with a slash never.
   */
  lemma DeliveryConverges(prims: Primitives, disk: Disk, o: Object, order: seq<nat>)
    requires prims.Lawful() && o.Fits(prims)
    requires forall k :: 0 <= k < |order| ==> order[k] < |o.Shards(prims)|
    ensures
      var after := ApplyWrites(disk, DeliveryWrites(prims, o, order));
      var served := NoSlash(o.bucket) && forall i: nat :: i < o.policy.DataShards() ==> i in order;
      var clean := forall i: nat :: i < o.policy.DataShards() ==> ShardPath(o.bucket, o.key, i) !in disk.files;
      && (served ==> GetObject(prims, after, o.bucket, o.key) == Ok(o.data))
      && (served ==> (o.bucket, o.key) in after.index && after.index[(o.bucket, o.key)] == o.Metadata(prims))
      && (clean && order != [] && !served ==> GetObject(prims, after, o.bucket, o.key) == Err(InsufficientShards))
  {
    hide GetObject, DeliveryWrites, ShardPath;
    if NoSlash(o.bucket) && forall i: nat :: i < o.policy.DataShards() ==> i in order {
      AllDelivered(prims, disk, o, order);
    } else if order != [] {
      var i: nat :| i < o.policy.DataShards() && (i !in order || !NoSlash(o.bucket));
      if ShardPath(o.bucket, o.key, i) !in disk.files {
        MissingShard(prims, disk, o, order, i);
      }
    }
  }
}
