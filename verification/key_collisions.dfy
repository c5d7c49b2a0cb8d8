/** Keys that differ only in `/` and `-` share their shard files: what exactly a get makes of a later put's shards. */
module KeyCollisions {
  import opened Wrappers
  import opened Bytes
  import opened Erasure
  import opened ShardNames
  import opened ObjectStore
  import opened ObjectLaws

  /** The data of b as a reader with the level of a unpacks them. */
  function Unpacked(prims: Primitives, a: Object, b: Object): Option<Bytes> {
    if a.policy.Hot? || !b.policy.Hot? then Some(b.data) else prims.unzstd(b.data)
  }

  /**
   * The get of a over the shards of b: too few bytes for the length, too few for the data, not decompressible, or
   * judged by the hash.
   */
  function ForeignResult(prims: Primitives, a: Object, b: Object): Result<Bytes, GetError> {
    var stored := b.Stored(prims);
    var room := a.policy.DataShards() * ShardSize(stored, b.policy.DataShards());
    if room < 8 then Err(Undecodable(TooShort))
    else if room < 8 + |stored| then Err(Undecodable(PrefixExceedsData))
    else if Unpacked(prims, a, b).None? then Err(DecompressionFailed)
    else if Unpacked(prims, a, b).value == a.data then Ok(a.data)
    else Err(Corrupted)
  }

  /** A reader of a Hot entry takes one shard, which never holds an erasure-coded object. */
  lemma OneShardIsTooLittle(b: Object, stored: Bytes)
    requires !b.policy.Hot?
    ensures ShardSize(stored, b.policy.DataShards()) < 8 + |stored|
  {
    PadWidth(8 + |stored|, b.policy.DataShards());
  }

  /** A reader that takes at least as many shards as the writer made of data has room for all of them. */
  lemma EnoughRoom(a: Object, b: Object, stored: Bytes)
    requires a.policy.DataShards() >= b.policy.DataShards()
    ensures 8 + |stored| <= a.policy.DataShards() * ShardSize(stored, b.policy.DataShards())
  {
    PadWidth(8 + |stored|, b.policy.DataShards());
    MoreRoom(b.policy.DataShards(), a.policy.DataShards(), ShardSize(stored, b.policy.DataShards()));
  }

  /** The shards of b, as many as there are, under the index entry of a. */
  lemma ForeignShards(prims: Primitives, a: Object, b: Object, held: seq<Bytes>)
    requires prims.Lawful() && b.Fits(prims) && |held| == a.policy.DataShards()
    requires forall i :: 0 <= i < |held| && i < b.policy.DataShards() ==> held[i] == b.Shards(prims)[i]
    ensures Finish(prims, a.Metadata(prims), held) == ForeignResult(prims, a, b)
  {
    hide DecodeErasure, ShardSize, Encoding;
    PolicyTablesAgree(a.policy);
    var d, e := a.policy.DataShards(), b.policy.DataShards();
    var m := if d < e then d else e;
    assert held[..m] == b.Shards(prims)[..m];
    PrefixDecodes(b.Stored(prims), e, b.policy.ParityShards(), held, d);
    if a.policy.Hot? && !b.policy.Hot? {
      OneShardIsTooLittle(b, b.Stored(prims));
    }
  }

  lemma {:induction false} FilesStay(disk: Disk, ws: seq<Write>, path: Path)
    requires path in disk.files && forall j :: 0 <= j < |ws| ==> !ws[j].RemoveFile?
    ensures path in ApplyWrites(disk, ws).files
  {
    if ws == [] {
    } else {
      FilesStay(disk, ws[..|ws| - 1], path);
    }
  }

  lemma PutRemovesNothing(prims: Primitives, o: Object)
    ensures forall j :: 0 <= j < |PutWrites(prims, o)| ==> !PutWrites(prims, o)[j].RemoveFile?
  {
    hide Object.Shards;
    var ws, n := PutWrites(prims, o), |o.Shards(prims)|;
    forall j | 0 <= j < |ws| ensures !ws[j].RemoveFile? {
      if j < 2 * n {
        ShardWritesContents(prims, o, n, ShardWrites(prims, o, n)[j]);
      }
    }
  }

  lemma SharedShards(prims: Primitives, mid: Disk, a: Object, b: Object)
    requires prims.Lawful() && a.Fits(prims) && b.Fits(prims) && Stores(prims, mid, a)
    requires a.bucket == b.bucket && a.key != b.key && Mangle(a.key) == Mangle(b.key)
    ensures GetObject(prims, ApplyWrites(mid, PutWrites(prims, b)), a.bucket, a.key) == ForeignResult(prims, a, b)
  {
    PolicyTablesAgree(a.policy);
    hide PutWrites, Finish, Object.Shards, ForeignResult, ShardPath;
    var after := ApplyWrites(mid, PutWrites(prims, b));
    var d := a.policy.DataShards();
    PutCooperates(prims, b);
    WritesConverge(prims, mid, b, PutWrites(prims, b));
    PutSparesOtherIndex(prims, mid, b, a.bucket, a.key);
    PutRemovesNothing(prims, b);
    forall i: nat ensures ShardPath(a.bucket, a.key, i) == ShardPath(b.bucket, b.key, i) {
      ShardPathInjective(a.bucket, a.key, i, b.bucket, b.key, i);
    }
    forall i | 0 <= i < d ensures ShardPath(a.bucket, a.key, i) in after.files {
      FilesStay(mid, PutWrites(prims, b), ShardPath(a.bucket, a.key, i));
    }
    ForeignShards(prims, a, b, ShardFiles(after.files, a.bucket, a.key, d));
  }

  /** After a put of a and then of b, whatever their policies, this and nothing else is what a get of a returns. */
  lemma MangledKeysCollide(prims: Primitives, disk: Disk, a: Object, b: Object)
    requires prims.Lawful() && a.Fits(prims) && b.Fits(prims)
    requires a.bucket == b.bucket && a.key != b.key && Mangle(a.key) == Mangle(b.key)
    ensures
      var after := ApplyWrites(ApplyWrites(disk, PutWrites(prims, a)), PutWrites(prims, b));
      GetObject(prims, after, a.bucket, a.key) == ForeignResult(prims, a, b)
  {
    hide PutWrites, Object.Shards, GetObject, Stores, Complete, Cooperates, ForeignResult;
    PutCooperates(prims, a);
    WritesConverge(prims, disk, a, PutWrites(prims, a));
    SharedShards(prims, ApplyWrites(disk, PutWrites(prims, a)), a, b);
  }

  /** Read by policies: equal classes of compression judge by the data, and a Hot entry never reads coded shards. */
  lemma CollisionByPolicy(prims: Primitives, a: Object, b: Object)
    ensures a.policy.DataShards() >= b.policy.DataShards() && (a.policy.Hot? <==> b.policy.Hot?) ==>
      ForeignResult(prims, a, b) == if a.data == b.data then Ok(a.data) else Err(Corrupted)
    ensures a.policy.Hot? && !b.policy.Hot? ==>
      ForeignResult(prims, a, b).Err? && ForeignResult(prims, a, b).error.Undecodable?
    ensures ForeignResult(prims, a, b).Ok? ==> ForeignResult(prims, a, b).value == a.data
  {
    hide ShardSize;
    if a.policy.DataShards() >= b.policy.DataShards() {
      EnoughRoom(a, b, b.Stored(prims));
    }
    if a.policy.Hot? && !b.policy.Hot? {
      OneShardIsTooLittle(b, b.Stored(prims));
    }
  }
}
