/** File names of shards: what the writer, the reader, the fan-out and the transfer handlers compute. */
module ShardNames {
  import opened Decimals

  function Mangle(s: string): (m: string)
    ensures |m| == |s|
    ensures forall i :: 0 <= i < |s| ==> m[i] == if s[i] == '/' then '-' else s[i]
  {
    seq(|s|, i requires 0 <= i < |s| => if s[i] == '/' then '-' else s[i])
  }

  predicate NoSlash(s: string) {
    '/' !in s
  }

  /** The object id of the put and get paths: mangles bucket and key together. */
  function ObjectId(bucket: string, key: string): string {
    Mangle(bucket + "-" + key)
  }

  /** The object id of the fan-out, transfer and fetch paths: mangles the key only. */
  function PeerObjectId(bucket: string, key: string): string {
    bucket + "-" + Mangle(key)
  }

  function ShardName(objectId: string, i: nat): string {
    objectId + "-shard-" + Decimal(i)
  }

  function MetaName(shardName: string): string {
    shardName + ".meta"
  }

  /** The path of a file in a bucket's chunk directory. */
  function FileIn(bucket: string, name: string): string {
    bucket + "/" + name
  }

  /** Both ways of naming an object agree exactly for buckets without a slash. */
  lemma ObjectIdsAgree(bucket: string, key: string)
    ensures ObjectId(bucket, key) == PeerObjectId(bucket, key) <==> NoSlash(bucket)
  {
    var a, b := ObjectId(bucket, key), PeerObjectId(bucket, key);
    if NoSlash(bucket) {
      forall i | 0 <= i < |a| ensures a[i] == b[i] {
        if i < |bucket| {
          assert bucket[i] in bucket;
        }
      }
      assert a == b;
    } else {
      var i :| 0 <= i < |bucket| && bucket[i] == '/';
      assert a[i] == '-' && b[i] == '/';
    }
  }

  /** A string splits in one way at a dash that only digits follow. */
  lemma SplitAtLastDash(x: string, d: string, y: string, e: string)
    requires x + "-" + d == y + "-" + e
    requires forall i :: 0 <= i < |d| ==> 0 <= DigitValue(d[i]) < 10
    requires forall i :: 0 <= i < |e| ==> 0 <= DigitValue(e[i]) < 10
    ensures x == y && d == e
  {
    var s, t := x + "-" + d, y + "-" + e;
    assert s[|x|] == '-' && t[|y|] == '-';
    assert |x| == |y|;
    assert s[..|x|] == x && t[..|y|] == y;
    assert s[|x| + 1..] == d && t[|y| + 1..] == e;
  }

  /** A shard name determines the object id and the shard index, even if keys contain "-shard-". */
  lemma ShardNameSplits(a: string, i: nat, b: string, j: nat)
    requires ShardName(a, i) == ShardName(b, j)
    ensures a == b && i == j
  {
    assert ShardName(a, i) == (a + "-shard") + "-" + Decimal(i);
    assert ShardName(b, j) == (b + "-shard") + "-" + Decimal(j);
    SplitAtLastDash(a + "-shard", Decimal(i), b + "-shard", Decimal(j));
    DecimalValue(i);
    DecimalValue(j);
    assert |a| == |b|;
    assert a == (a + "-shard")[..|a|] && b == (b + "-shard")[..|b|];
  }

  /** Within any bucket, under either way of naming, a shard name determines the mangled key and the shard index. */
  lemma ShardNameInjective(bucket: string, k: string, i: nat, l: string, j: nat)
    requires
      || ShardName(ObjectId(bucket, k), i) == ShardName(ObjectId(bucket, l), j)
      || ShardName(PeerObjectId(bucket, k), i) == ShardName(PeerObjectId(bucket, l), j)
    ensures Mangle(k) == Mangle(l) && i == j
  {
    var from := |bucket| + 1;
    if ShardName(ObjectId(bucket, k), i) == ShardName(ObjectId(bucket, l), j) {
      ShardNameSplits(ObjectId(bucket, k), i, ObjectId(bucket, l), j);
      assert Mangle(k) == ObjectId(bucket, k)[from..] && Mangle(l) == ObjectId(bucket, l)[from..];
    } else {
      ShardNameSplits(PeerObjectId(bucket, k), i, PeerObjectId(bucket, l), j);
      assert Mangle(k) == PeerObjectId(bucket, k)[from..] && Mangle(l) == PeerObjectId(bucket, l)[from..];
    }
  }

  /** Equal mangled keys give equal object ids. */
  lemma ObjectIdMangles(bucket: string, k: string, l: string)
    requires Mangle(k) == Mangle(l)
    ensures ObjectId(bucket, k) == ObjectId(bucket, l)
  {
    var a, b := ObjectId(bucket, k), ObjectId(bucket, l);
    forall i | 0 <= i < |a| ensures a[i] == b[i] {
      if i > |bucket| {
        assert a[i] == Mangle(k)[i - |bucket| - 1] && b[i] == Mangle(l)[i - |bucket| - 1];
      }
    }
  }

  /** File names without a slash split a path in one way, whatever slashes the bucket holds. */
  lemma FileInSplits(bucket: string, name: string, bucket': string, name': string)
    requires FileIn(bucket, name) == FileIn(bucket', name') && NoSlash(name) && NoSlash(name')
    ensures bucket == bucket' && name == name'
  {
    var s, t := FileIn(bucket, name), FileIn(bucket', name');
    assert s[|bucket|] == '/' && t[|bucket'|] == '/';
    assert |bucket| == |bucket'|;
    assert s[..|bucket|] == bucket && t[..|bucket|] == bucket';
    assert s[|bucket| + 1..] == name && t[|bucket| + 1..] == name';
  }

  /** The names under which puts store shards hold no slash. */
  lemma ShardNameHasNoSlash(bucket: string, key: string, i: nat)
    ensures NoSlash(ShardName(ObjectId(bucket, key), i))
  {
    var s := ShardName(ObjectId(bucket, key), i);
    forall k | 0 <= k < |s| ensures s[k] != '/' {
      if k >= |s| - |Decimal(i)| {
        assert s[k] == Decimal(i)[k - (|s| - |Decimal(i)|)];
      } else if k >= |ObjectId(bucket, key)| {
        assert s[k] == "-shard-"[k - |ObjectId(bucket, key)|];
      }
    }
  }

  /** No shard path is the path of a `.meta` file. */
  lemma ShardIsNotMeta(bucket: string, a: string, i: nat, bucket': string, b: string)
    ensures FileIn(bucket, ShardName(a, i)) != FileIn(bucket', MetaName(b))
  {
    var s, t := FileIn(bucket, ShardName(a, i)), FileIn(bucket', MetaName(b));
    assert s[|s| - 1] == Decimal(i)[|Decimal(i)| - 1];
    assert t[|t| - 1] == 'a';
  }
}
