/** One storage node: shard files, the metadata index, and the operations on them. */
module ObjectStore {
  import opened Wrappers
  import opened Bytes
  import opened Erasure
  import opened Decimals
  import opened ShardNames

  // ------------------------------------------------------------------ policies

  datatype StoragePolicy = Hot | Warm | Cold | Archive {
    function Replicas(): nat {
      if Hot? then 3 else 1
    }

    function ErasureCoding(): Option<(nat, nat)> {
      match this
      case Hot => None
      case Warm => Some((4, 2))
      case Cold => Some((6, 3))
      case Archive => Some((8, 4))
    }

    function ZstdLevel(): nat {
      match this
      case Hot => 0
      case Warm => 3
      case Cold => 19
      case Archive => 22
    }

    /** The lower-case name that the index stores. */
    function Text(): string {
      match this
      case Hot => "hot"
      case Warm => "warm"
      case Cold => "cold"
      case Archive => "archive"
    }

    function DataShards(): (d: nat)
      ensures d > 0
    {
      if ErasureCoding().None? then 1 else ErasureCoding().value.0
    }

    function ParityShards(): nat {
      if ErasureCoding().None? then 0 else ErasureCoding().value.1
    }
  }

  /** The reader's own table: data shards, parity shards, compression level. */
  function ReadParams(text: string): (r: (nat, nat, nat))
    ensures r.0 > 0
  {
    if text == "hot" then (1, 0, 0)
    else if text == "warm" then (4, 2, 3)
    else if text == "cold" then (6, 3, 19)
    else if text == "archive" then (8, 4, 22)
    else (1, 0, 0)
  }

  /** The fan-out's own table. */
  function TotalShards(text: string): nat {
    if text == "hot" then 1
    else if text == "warm" then 6
    else if text == "cold" then 9
    else if text == "archive" then 12
    else 1
  }

  /** The transfer handler's own table. */
  function ReceivedPolicy(text: string): StoragePolicy {
    if text == "hot" then Hot
    else if text == "cold" then Cold
    else if text == "archive" then Archive
    else Warm
  }

  /** Replicas, data and parity shards, compression level and text of each policy. */
  lemma PolicyTable()
    ensures Hot.Replicas() == 3 && Warm.Replicas() == Cold.Replicas() == Archive.Replicas() == 1
    ensures Hot.DataShards() == 1 && Hot.ParityShards() == 0 && Hot.ZstdLevel() == 0
    ensures Warm.DataShards() == 4 && Warm.ParityShards() == 2 && Warm.ZstdLevel() == 3
    ensures Cold.DataShards() == 6 && Cold.ParityShards() == 3 && Cold.ZstdLevel() == 19
    ensures Archive.DataShards() == 8 && Archive.ParityShards() == 4 && Archive.ZstdLevel() == 22
    ensures Hot.Text() == "hot" && Warm.Text() == "warm" && Cold.Text() == "cold" && Archive.Text() == "archive"
  {
  }

  /** Texts that name no policy: one plain shard for readers, but Warm for the transfer handler. */
  lemma UnknownPolicyText(text: string)
    requires text !in {"hot", "warm", "cold", "archive"}
    ensures ReadParams(text) == (1, 0, 0) && TotalShards(text) == 1 && ReceivedPolicy(text) == Warm
  {
  }

  /** All four tables agree with the policy that was written. */
  lemma PolicyTablesAgree(p: StoragePolicy)
    ensures ReadParams(p.Text()) == (p.DataShards(), p.ParityShards(), p.ZstdLevel())
    ensures TotalShards(p.Text()) == p.DataShards() + p.ParityShards()
    ensures ReceivedPolicy(p.Text()) == p
  {
  }

  // ------------------------------------------------------------------ foreign functions

  /** SHA-256, zstd and the text of a `.meta` file. */
  datatype Primitives = Primitives(
    sha: Bytes -> string,
    zstd: (Bytes, nat) -> Bytes,
    unzstd: Bytes -> Option<Bytes>,
    metaText: (nat, string, nat) -> Bytes)
  {
    /** Equal hashes mean equal data, and decompression undoes compression. */
    ghost predicate Lawful() {
      && (forall a: Bytes, b: Bytes :: sha(a) == sha(b) ==> a == b)
      && (forall data: Bytes, level: nat :: level > 0 ==> unzstd(zstd(data, level)) == Some(data))
    }

    function Compress(data: Bytes, level: nat): Bytes {
      if level == 0 then data else zstd(data, level)
    }
  }

  function Characters(b: Bytes): (s: string)
    ensures |s| == |b| && forall i :: 0 <= i < |b| ==> s[i] as int == b[i]
  {
    seq(|b|, i requires 0 <= i < |b| => b[i] as char)
  }

  /** The laws can be met, so nothing proved from them is vacuous. */
  lemma LawfulExists()
    ensures exists prims: Primitives :: prims.Lawful()
  {
    var prims := Primitives(Characters, (data, level) => data, stored => Some(stored), (i, hash, size) => []);
    forall a: Bytes, b: Bytes | prims.sha(a) == prims.sha(b) ensures a == b {
      assert forall i :: 0 <= i < |a| ==> Characters(a)[i] as int == Characters(b)[i] as int;
    }
    assert prims.Lawful();
  }

  // ------------------------------------------------------------------ disk

  /** A file's path below the chunk directory. */
  type Path = string

  datatype ObjectMetadata = ObjectMetadata(
    bucket: string, key: string, sizeBytes: nat, etag: string, policy: string, replicas: nat)

  datatype Disk = Disk(files: map<Path, Bytes>, index: map<(string, string), ObjectMetadata>)

  /** The single writes out of which every operation is made. */
  datatype Write =
    | PutFile(path: Path, bytes: Bytes)
    | RemoveFile(path: Path)
    | PutIndex(meta: ObjectMetadata)
    | RemoveIndex(bucket: string, key: string)

  function ApplyWrite(disk: Disk, w: Write): Disk {
    match w
    case PutFile(path, bytes) => disk.(files := disk.files[path := bytes])
    case RemoveFile(path) => disk.(files := disk.files - {path})
    case PutIndex(meta) => disk.(index := disk.index[(meta.bucket, meta.key) := meta])
    case RemoveIndex(bucket, key) => disk.(index := disk.index - {(bucket, key)})
  }

  /** What one write changes, path by path and entry by entry. */
  lemma WriteMeans(disk: Disk, w: Write, path: Path, bucket: string, key: string)
    ensures
      var files, put := ApplyWrite(disk, w).files, w.PutFile? && w.path == path;
      && (path in files <==> put || (path in disk.files && !(w.RemoveFile? && w.path == path)))
      && (path in files ==> files[path] == if put then w.bytes else disk.files[path])
    ensures
      var index, at := ApplyWrite(disk, w).index, (bucket, key);
      var put := w.PutIndex? && w.meta.bucket == bucket && w.meta.key == key;
      && (at in index <==>
            put || (at in disk.index && !(w.RemoveIndex? && w.bucket == bucket && w.key == key)))
      && (at in index ==> index[at] == if put then w.meta else disk.index[at])
  {
  }

  function ApplyWrites(disk: Disk, ws: seq<Write>): Disk {
    if ws == [] then disk else ApplyWrite(ApplyWrites(disk, ws[..|ws| - 1]), ws[|ws| - 1])
  }

  lemma {:induction false} ApplyWritesConcat(disk: Disk, ws: seq<Write>, vs: seq<Write>)
    ensures ApplyWrites(disk, ws + vs) == ApplyWrites(ApplyWrites(disk, ws), vs)
  {
    if vs == [] {
      assert ws + vs == ws;
    } else {
      assert (ws + vs)[..|ws + vs| - 1] == ws + vs[..|vs| - 1];
      ApplyWritesConcat(disk, ws, vs[..|vs| - 1]);
    }
  }

  lemma TwoMoreWrites(disk: Disk, ws: seq<Write>, vs: seq<Write>)
    requires |vs| == |ws| + 2 && vs[..|ws|] == ws
    ensures ApplyWrites(disk, vs) == ApplyWrite(ApplyWrite(ApplyWrites(disk, ws), vs[|ws|]), vs[|ws| + 1])
  {
    assert vs[..|ws| + 1][..|ws|] == ws;
  }

  // ------------------------------------------------------------------ puts

  /** A client put. */
  datatype Object = Object(bucket: string, key: string, data: Bytes, policy: StoragePolicy) {
    function Stored(prims: Primitives): Bytes {
      prims.Compress(data, policy.ZstdLevel())
    }

    /** What the 64-bit length prefix demands of the stored bytes. */
    predicate Fits(prims: Primitives) {
      8 + |Stored(prims)| < TWO_64
    }

    function Shards(prims: Primitives): (shards: seq<Bytes>)
      ensures |shards| == policy.DataShards() + policy.ParityShards()
    {
      Encoding(Stored(prims), policy.DataShards(), policy.ParityShards())
    }

    function Metadata(prims: Primitives): ObjectMetadata {
      ObjectMetadata(bucket, key, |data|, prims.sha(data), policy.Text(), policy.Replicas())
    }
  }

  function ShardPath(bucket: string, key: string, i: nat): Path {
    FileIn(bucket, ShardName(ObjectId(bucket, key), i))
  }

  function MetaPath(bucket: string, key: string, i: nat): Path {
    FileIn(bucket, MetaName(ShardName(ObjectId(bucket, key), i)))
  }

  /** Where the fan-out and the peer handlers look for a shard, and where they put its `.meta` file. */
  function PeerShardPath(bucket: string, key: string, i: nat): Path {
    FileIn(bucket, ShardName(PeerObjectId(bucket, key), i))
  }

  function PeerMetaPath(bucket: string, key: string, i: nat): Path {
    FileIn(bucket, MetaName(ShardName(PeerObjectId(bucket, key), i)))
  }

  /** The paths spelled out. */
  lemma PathsSpelled(bucket: string, key: string, i: nat)
    ensures ShardPath(bucket, key, i) == bucket + "/" + (Mangle(bucket + "-" + key) + "-shard-" + Decimal(i))
    ensures MetaPath(bucket, key, i) == bucket + "/" + (Mangle(bucket + "-" + key) + "-shard-" + Decimal(i) + ".meta")
    ensures PeerShardPath(bucket, key, i) == bucket + "/" + (bucket + "-" + Mangle(key) + "-shard-" + Decimal(i))
    ensures PeerMetaPath(bucket, key, i) ==
      bucket + "/" + (bucket + "-" + Mangle(key) + "-shard-" + Decimal(i) + ".meta")
  {
  }

  /** The file writes of the first n shards of a put. */
  function ShardWrites(prims: Primitives, o: Object, n: nat): (ws: seq<Write>)
    requires n <= |o.Shards(prims)|
    ensures |ws| == 2 * n
  {
    if n == 0 then [] else
      var shard := o.Shards(prims)[n - 1];
      ShardWrites(prims, o, n - 1) + [
        PutFile(ShardPath(o.bucket, o.key, n - 1), shard),
        PutFile(MetaPath(o.bucket, o.key, n - 1), prims.metaText(n - 1, prims.sha(shard), |o.data|))]
  }

  /** One more shard, one more pair of writes. */
  lemma ShardWritesStep(prims: Primitives, disk: Disk, o: Object, i: nat)
    requires i < |o.Shards(prims)|
    ensures
      var shard := o.Shards(prims)[i];
      var file := PutFile(ShardPath(o.bucket, o.key, i), shard);
      var meta := PutFile(MetaPath(o.bucket, o.key, i), prims.metaText(i, prims.sha(shard), |o.data|));
      ApplyWrites(disk, ShardWrites(prims, o, i + 1)) ==
        ApplyWrite(ApplyWrite(ApplyWrites(disk, ShardWrites(prims, o, i)), file), meta)
  {
    hide Object.Shards, ShardPath, MetaPath, ApplyWrite;
    TwoMoreWrites(disk, ShardWrites(prims, o, i), ShardWrites(prims, o, i + 1));
  }

  /** All writes of a put, the index entry last. */
  function PutWrites(prims: Primitives, o: Object): seq<Write> {
    ShardWrites(prims, o, |o.Shards(prims)|) + [PutIndex(o.Metadata(prims))]
  }

  lemma {:induction false} ShardWritesOrder(prims: Primitives, o: Object, n: nat, i: nat)
    requires i < n <= |o.Shards(prims)|
    ensures
      var shard, ws := o.Shards(prims)[i], ShardWrites(prims, o, n);
      && ws[2 * i] == PutFile(ShardPath(o.bucket, o.key, i), shard)
      && ws[2 * i + 1] == PutFile(MetaPath(o.bucket, o.key, i), prims.metaText(i, prims.sha(shard), |o.data|))
  {
    hide Object.Shards, ShardPath, MetaPath;
    if i == n - 1 {
    } else {
      ShardWritesOrder(prims, o, n - 1, i);
    }
  }

  /** A put writes shard by shard, each followed by its `.meta` file, and the index entry last of all. */
  lemma PutOrder(prims: Primitives, o: Object)
    ensures
      var ws, n := PutWrites(prims, o), |o.Shards(prims)|;
      && |ws| == 2 * n + 1
      && ws[2 * n] == PutIndex(ObjectMetadata(
           o.bucket, o.key, |o.data|, prims.sha(o.data), o.policy.Text(), if o.policy.Hot? then 3 else 1))
      && forall i :: 0 <= i < n ==>
           var shard := o.Shards(prims)[i];
           && ws[2 * i] == PutFile(ShardPath(o.bucket, o.key, i), shard)
           && ws[2 * i + 1] == PutFile(MetaPath(o.bucket, o.key, i), prims.metaText(i, prims.sha(shard), |o.data|))
  {
    hide Object.Shards, ShardPath, MetaPath;
    var n := |o.Shards(prims)|;
    forall i | 0 <= i < n
      ensures
        var shard, ws := o.Shards(prims)[i], PutWrites(prims, o);
        && ws[2 * i] == PutFile(ShardPath(o.bucket, o.key, i), shard)
        && ws[2 * i + 1] == PutFile(MetaPath(o.bucket, o.key, i), prims.metaText(i, prims.sha(shard), |o.data|))
    {
      ShardWritesOrder(prims, o, n, i);
    }
  }

  // ------------------------------------------------------------------ gets

  datatype GetError =
    NotFound | InsufficientShards | Undecodable(why: DecodeError) | DecompressionFailed | Corrupted

  /** The last part of a get: join, decompress, compare with the recorded hash. */
  function Finish(prims: Primitives, meta: ObjectMetadata, shards: seq<Bytes>): Result<Bytes, GetError> {
    var (d, p, level) := ReadParams(meta.policy);
    match DecodeErasure(shards, d)
    case Err(why) => Err(Undecodable(why))
    case Ok(stored) =>
      var data := if level > 0 then prims.unzstd(stored) else Some(stored);
      if data.None? then Err(DecompressionFailed)
      else if prims.sha(data.value) != meta.etag then Err(Corrupted)
      else Ok(data.value)
  }

  predicate HasShards(files: map<Path, Bytes>, bucket: string, key: string, n: nat) {
    forall i :: 0 <= i < n ==> ShardPath(bucket, key, i) in files
  }

  function ShardFiles(files: map<Path, Bytes>, bucket: string, key: string, n: nat): (shards: seq<Bytes>)
    requires HasShards(files, bucket, key, n)
    ensures |shards| == n
    ensures forall i :: 0 <= i < n ==> shards[i] == files[ShardPath(bucket, key, i)]
  {
    seq(n, i requires 0 <= i < n => files[ShardPath(bucket, key, i)])
  }

  /** What a get returns: it needs every data shard and looks at nothing else. */
  function GetObject(prims: Primitives, disk: Disk, bucket: string, key: string): Result<Bytes, GetError> {
    if (bucket, key) !in disk.index then Err(NotFound)
    else
      var meta := disk.index[(bucket, key)];
      var d := ReadParams(meta.policy).0;
      if !HasShards(disk.files, bucket, key, d) then Err(InsufficientShards)
      else Finish(prims, meta, ShardFiles(disk.files, bucket, key, d))
  }

  /** When a get succeeds, and in which order its failures are noticed. */
  lemma GetMeans(prims: Primitives, disk: Disk, bucket: string, key: string)
    ensures
      var r, known := GetObject(prims, disk, bucket, key), (bucket, key) in disk.index;
      && (r == Err(NotFound) <==> !known)
      && (r == Err(InsufficientShards) <==>
            known && exists i :: 0 <= i < ReadParams(disk.index[(bucket, key)].policy).0
                                 && ShardPath(bucket, key, i) !in disk.files)
      && (r.Ok? ==> known && prims.sha(r.value) == disk.index[(bucket, key)].etag)
  {
  }

  // ------------------------------------------------------------------ transfers

  /** A TransferChunk request. */
  datatype Message = Message(
    bucket: string, key: string, shardIndex: nat, data: Bytes, hash: string,
    policy: string, objectSize: nat, etag: string)

  function ReceivedMetadata(m: Message): ObjectMetadata {
    var policy := ReceivedPolicy(m.policy);
    ObjectMetadata(m.bucket, m.key, m.objectSize, m.etag, policy.Text(), policy.Replicas())
  }

  function TransferWrites(prims: Primitives, m: Message): seq<Write> {
    [PutFile(PeerShardPath(m.bucket, m.key, m.shardIndex), m.data),
     PutFile(PeerMetaPath(m.bucket, m.key, m.shardIndex), prims.metaText(m.shardIndex, m.hash, m.objectSize)),
     PutIndex(ReceivedMetadata(m))]
  }

  datatype Sharding = Sharding(index: nat, hash: string, data: Bytes)

  /** The request that the fan-out builds from the metadata of the finished put and a shard it has read. */
  function FanOutMessage(meta: ObjectMetadata, s: Sharding): Message {
    Message(meta.bucket, meta.key, s.index, s.data, s.hash, meta.policy, meta.sizeBytes, meta.etag)
  }

  /** The shards present among the first n. */
  function PresentShards(
    prims: Primitives, files: map<Path, Bytes>, bucket: string, key: string, n: nat): seq<Sharding>
  {
    if n == 0 then [] else
      var path := PeerShardPath(bucket, key, n - 1);
      PresentShards(prims, files, bucket, key, n - 1) +
      if path in files then [Sharding(n - 1, prims.sha(files[path]), files[path])] else []
  }

  /** The fan-out sends a shard iff its file exists, with that file's bytes and hash. */
  lemma {:induction false} PresentShardsExactly(
    prims: Primitives, files: map<Path, Bytes>, bucket: string, key: string, n: nat, s: Sharding)
    ensures s in PresentShards(prims, files, bucket, key, n) <==>
      && s.index < n && PeerShardPath(bucket, key, s.index) in files
      && s.data == files[PeerShardPath(bucket, key, s.index)] && s.hash == prims.sha(s.data)
  {
    hide PeerShardPath;
    if n == 0 {
    } else {
      PresentShardsExactly(prims, files, bucket, key, n - 1, s);
      var rest, path := PresentShards(prims, files, bucket, key, n - 1), PeerShardPath(bucket, key, n - 1);
      if path in files {
        assert s in PresentShards(prims, files, bucket, key, n) <==>
          s in rest || s == Sharding(n - 1, prims.sha(files[path]), files[path]);
      } else {
        assert PresentShards(prims, files, bucket, key, n) == rest;
      }
    }
  }

  ghost predicate Ascends(r: seq<Sharding>, n: nat) {
    && (forall i :: 0 <= i < |r| ==> r[i].index < n)
    && (forall i, j :: 0 <= i < j < |r| ==> r[i].index < r[j].index)
  }

  lemma AscendsOn(r: seq<Sharding>, n: nat, s: Sharding)
    requires Ascends(r, n) && s.index == n
    ensures Ascends(r + [s], n + 1)
  {
  }

  /** It sends them in ascending order. */
  lemma {:induction false} PresentShardsAscend(
    prims: Primitives, files: map<Path, Bytes>, bucket: string, key: string, n: nat)
    ensures Ascends(PresentShards(prims, files, bucket, key, n), n)
  {
    hide PeerShardPath;
    if n == 0 {
    } else {
      PresentShardsAscend(prims, files, bucket, key, n - 1);
      var rest, path := PresentShards(prims, files, bucket, key, n - 1), PeerShardPath(bucket, key, n - 1);
      if path in files {
        AscendsOn(rest, n - 1, Sharding(n - 1, prims.sha(files[path]), files[path]));
      } else {
        assert PresentShards(prims, files, bucket, key, n) == rest;
      }
    }
  }

  // ------------------------------------------------------------------ the node

  class StorageNode {
    const prims: Primitives
    var files: map<Path, Bytes>
    var index: map<(string, string), ObjectMetadata>

    constructor (prims: Primitives, disk: Disk)
      ensures this.prims == prims && OnDisk() == disk
    {
      this.prims, files, index := prims, disk.files, disk.index;
    }

    function OnDisk(): Disk
      reads this
    {
      Disk(files, index)
    }

    method PutObject(bucket: string, key: string, data: Bytes, policy: StoragePolicy) returns (meta: ObjectMetadata)
      requires Object(bucket, key, data, policy).Fits(prims)
      modifies this
      ensures OnDisk() == ApplyWrites(old(OnDisk()), PutWrites(prims, Object(bucket, key, data, policy)))
      ensures meta == Object(bucket, key, data, policy).Metadata(prims)
      ensures meta.bucket == bucket && meta.key == key && meta.sizeBytes == |data| && meta.etag == prims.sha(data)
      ensures meta.policy == policy.Text() && meta.replicas == if policy.Hot? then 3 else 1
    {
      hide Encoding, Mangle, ShardName, MetaName, FileIn, ShardWrites;
      ghost var o := Object(bucket, key, data, policy);
      ghost var before := OnDisk();
      var etag := prims.sha(data);
      var objectId := Mangle(bucket + "-" + key);
      var compressed := prims.Compress(data, policy.ZstdLevel());
      var shards := EncodeErasure(compressed, policy.DataShards(), policy.ParityShards());
      for i := 0 to |shards|
        invariant OnDisk() == ApplyWrites(before, ShardWrites(prims, o, i))
      {
        var name := ShardName(objectId, i);
        files := files[FileIn(bucket, name) := shards[i]];
        files := files[FileIn(bucket, MetaName(name)) := prims.metaText(i, prims.sha(shards[i]), |data|)];
        ShardWritesStep(prims, before, o, i);
      }
      meta := ObjectMetadata(bucket, key, |data|, etag, policy.Text(), policy.Replicas());
      index := index[(bucket, key) := meta];
      assert PutWrites(prims, o)[..|PutWrites(prims, o)| - 1] == ShardWrites(prims, o, |shards|);
    }

    method GetChunks(bucket: string, key: string) returns (r: Result<Bytes, GetError>)
      ensures r == GetObject(prims, OnDisk(), bucket, key)
    {
      var objectId := Mangle(bucket + "-" + key);
      if (bucket, key) !in index {
        return Err(NotFound);
      }
      var meta := index[(bucket, key)];
      var (d, p, level) := ReadParams(meta.policy);
      var shards: seq<Bytes> := [];
      for i := 0 to d + p
        invariant HasShards(files, bucket, key, if i < d then i else d)
        invariant i <= d ==> shards == ShardFiles(files, bucket, key, i)
        invariant d < i ==> d <= |shards| && shards[..d] == ShardFiles(files, bucket, key, d)
      {
        var path := FileIn(bucket, ShardName(objectId, i));
        if path in files {
          shards := shards + [files[path]];
        } else if i < d {
          assert ShardPath(bucket, key, i) !in files;
          return Err(InsufficientShards);
        }
      }
      assert shards[..d] == ShardFiles(files, bucket, key, d);
      assert ShardFiles(files, bucket, key, d)[..d] == ShardFiles(files, bucket, key, d);
      var stored := DecodeShards(shards, d);
      match stored {
        case Err(why) => r := Err(Undecodable(why));
        case Ok(bytes) =>
          var data := if level > 0 then prims.unzstd(bytes) else Some(bytes);
          if data.None? {
            return Err(DecompressionFailed);
          }
          if prims.sha(data.value) != meta.etag {
            return Err(Corrupted);
          }
          r := Ok(data.value);
      }
    }

    /** The replica side of the fan-out; `storable` says whether the shard file can be written at all. */
    method TransferChunk(m: Message, storable: bool) returns (accepted: bool)
      modifies this
      ensures accepted == storable
      ensures OnDisk() == if accepted then ApplyWrites(old(OnDisk()), TransferWrites(prims, m)) else old(OnDisk())
      ensures accepted ==>
        && files == old(files)[PeerShardPath(m.bucket, m.key, m.shardIndex) := m.data]
                              [PeerMetaPath(m.bucket, m.key, m.shardIndex) :=
                                prims.metaText(m.shardIndex, m.hash, m.objectSize)]
        && index == old(index)[(m.bucket, m.key) := ObjectMetadata(
                      m.bucket, m.key, m.objectSize, m.etag,
                      if m.policy in {"hot", "cold", "archive"} then m.policy else "warm",
                      if m.policy == "hot" then 3 else 1)]
    {
      if !storable {
        return false;
      }
      ghost var before := OnDisk();
      var name := ShardName(m.bucket + "-" + Mangle(m.key), m.shardIndex);
      files := files[FileIn(m.bucket, name) := m.data];
      files := files[FileIn(m.bucket, MetaName(name)) := prims.metaText(m.shardIndex, m.hash, m.objectSize)];
      var policy := ReceivedPolicy(m.policy);
      index := index[(m.bucket, m.key) :=
        ObjectMetadata(m.bucket, m.key, m.objectSize, m.etag, policy.Text(), policy.Replicas())];
      ghost var ws := TransferWrites(prims, m);
      assert ApplyWrites(before, ws[..1]) == ApplyWrite(ApplyWrites(before, ws[..1][..0]), ws[0]);
      TwoMoreWrites(before, ws[..1], ws);
      accepted := true;
    }

    method ReadShards(bucket: string, key: string) returns (r: Result<seq<Sharding>, GetError>)
      ensures r == if (bucket, key) !in index then Err(NotFound)
                   else Ok(PresentShards(prims, files, bucket, key, TotalShards(index[(bucket, key)].policy)))
    {
      if (bucket, key) !in index {
        return Err(NotFound);
      }
      var total := TotalShards(index[(bucket, key)].policy);
      var found: seq<Sharding> := [];
      for i := 0 to total
        invariant found == PresentShards(prims, files, bucket, key, i)
      {
        var path := FileIn(bucket, ShardName(bucket + "-" + Mangle(key), i));
        if path in files {
          found := found + [Sharding(i, prims.sha(files[path]), files[path])];
        }
      }
      r := Ok(found);
    }

    /** Serves a shard with its hash: for a bucket without a slash the very file that a get reads. */
    method FetchChunk(bucket: string, key: string, i: nat) returns (r: Option<(Bytes, string)>)
      ensures r.Some? <==> PeerShardPath(bucket, key, i) in files
      ensures r.Some? ==> r.value == (files[PeerShardPath(bucket, key, i)], prims.sha(r.value.0))
      ensures NoSlash(bucket) ==> PeerShardPath(bucket, key, i) == ShardPath(bucket, key, i)
    {
      ObjectIdsAgree(bucket, key);
      var path := FileIn(bucket, ShardName(bucket + "-" + Mangle(key), i));
      if path !in files {
        return None;
      }
      r := Some((files[path], prims.sha(files[path])));
    }

    /** Only the index entry goes; shard files stay. */
    method DeleteObject(bucket: string, key: string)
      modifies this
      ensures OnDisk() == ApplyWrites(old(OnDisk()), [RemoveIndex(bucket, key)])
      ensures files == old(files) && index == old(index) - {(bucket, key)}
    {
      ghost var before := OnDisk();
      index := index - {(bucket, key)};
      assert ApplyWrites(before, [RemoveIndex(bucket, key)][..0]) == before;
    }
  }
}
