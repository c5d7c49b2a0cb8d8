/** Length-prefixed, zero-padded sharding of a byte string. Parity shards are placeholders of zeros. */
module Erasure {
  import opened Wrappers
  import opened Bytes

  // ------------------------------------------------------------------ specification

  function CeilDiv(n: nat, d: nat): (q: nat)
    requires d > 0
  {
    (n + d - 1) / d
  }

  function Zeros(n: nat): (z: Bytes)
    ensures |z| == n
  {
    seq(n, _ => 0)
  }

  function Prefixed(data: Bytes): Bytes {
    ToLE(|data|, 8) + data
  }

  function ShardSize(data: Bytes, dataShards: nat): nat
    requires dataShards > 0
  {
    CeilDiv(8 + |data|, dataShards)
  }

  function Concat(shards: seq<Bytes>): Bytes {
    if shards == [] then [] else Concat(shards[..|shards| - 1]) + shards[|shards| - 1]
  }

  lemma PadWidth(n: nat, d: nat)
    requires d > 0
    ensures n <= d * CeilDiv(n, d) < n + d
  {
    assert n + d - 1 == d * CeilDiv(n, d) + (n + d - 1) % d;
  }

  /** The length-prefixed data, padded with zeros to a multiple of the shard size. */
  function Padded(data: Bytes, dataShards: nat): (p: Bytes)
    requires dataShards > 0
    ensures |p| == dataShards * ShardSize(data, dataShards)
  {
    PadWidth(8 + |data|, dataShards);
    Prefixed(data) + Zeros(dataShards * ShardSize(data, dataShards) - (8 + |data|))
  }

  lemma NextPiece(i: nat, size: nat, n: nat)
    requires i < n
    ensures (i + 1) * size == i * size + size <= n * size
  {
    var k := n - i - 1;
    assert n * size == (i + 1) * size + k * size;
    assert k * size >= 0;
  }

  /** Data shard i is the i-th piece of the padded data; parity shards are zeros. */
  function Shard(data: Bytes, dataShards: nat, i: nat): (s: Bytes)
    requires dataShards > 0
    ensures |s| == ShardSize(data, dataShards)
  {
    var size := ShardSize(data, dataShards);
    if i < dataShards then
      NextPiece(i, size, dataShards);
      Padded(data, dataShards)[i * size..i * size + size]
    else Zeros(size)
  }

  function Encoding(data: Bytes, dataShards: nat, parityShards: nat): (shards: seq<Bytes>)
    requires dataShards > 0
    ensures |shards| == dataShards + parityShards
    ensures forall i :: 0 <= i < |shards| ==> shards[i] == Shard(data, dataShards, i)
  {
    seq(dataShards + parityShards, i requires i >= 0 => Shard(data, dataShards, i))
  }

  datatype DecodeError = TooShort | PrefixExceedsData | Panic

  /** `8 + data_len` in 64 bits: when it overflows, either the addition or the slice that follows panics. */
  function DecodeJoined(combined: Bytes): Result<Bytes, DecodeError> {
    if |combined| < 8 then Err(TooShort)
    else
      var len := FromLE(combined[..8]);
      if 8 + len >= TWO_64 then Err(Panic)
      else if 8 + len > |combined| then Err(PrefixExceedsData)
      else Ok(combined[8..8 + len])
  }

  function DecodeErasure(shards: seq<Bytes>, dataShards: nat): Result<Bytes, DecodeError> {
    DecodeJoined(Concat(if dataShards <= |shards| then shards[..dataShards] else shards))
  }

  // ------------------------------------------------------------------ the loops

  /** Copying the remaining bytes over a zeroed buffer cuts a piece of the padded data, even where none remain. */
  lemma PieceOfPadded(data: Bytes, dataShards: nat, i: nat, start: nat, end: nat)
    requires i < dataShards
    requires
      var size, len := ShardSize(data, dataShards), |Prefixed(data)|;
      start == i * size && end == if start + size < len then start + size else len
    ensures
      var zeros := Zeros(ShardSize(data, dataShards));
      Shard(data, dataShards, i) == if end > start then Prefixed(data)[start..end] + zeros[end - start..] else zeros
  {
    var size := ShardSize(data, dataShards);
    NextPiece(i, size, dataShards);
    assert Shard(data, dataShards, i) == Padded(data, dataShards)[start..start + size];
  }

  /** Byte j of the padded data: the length, least significant byte first, then the data, then zeros. */
  lemma PaddedByte(data: Bytes, dataShards: nat, j: nat)
    requires 0 < dataShards && j < |Padded(data, dataShards)|
    ensures Padded(data, dataShards)[j] ==
      if j < 8 then ToLE(|data|, 8)[j] else if j < 8 + |data| then data[j - 8] else 0
  {
    hide ShardSize, ToLE;
  }

  /** Byte k of shard i, which is byte j of all shards: padded data in data shards, zeros in parity shards. */
  lemma EncodedByte(data: Bytes, dataShards: nat, parityShards: nat, i: nat, k: nat, j: nat)
    requires 0 < dataShards && i < dataShards + parityShards
    requires k < |Encoding(data, dataShards, parityShards)[i]|
    requires j == i * |Encoding(data, dataShards, parityShards)[i]| + k
    ensures Encoding(data, dataShards, parityShards)[i][k] ==
      if i >= dataShards then 0
      else if j < 8 then ToLE(|data|, 8)[j]
      else if j < 8 + |data| then data[j - 8]
      else 0
  {
    hide ToLE, ShardSize, Padded;
    if i < dataShards {
      var size, p := ShardSize(data, dataShards), Padded(data, dataShards);
      NextPiece(i, size, dataShards);
      var from := i * size;
      assert Shard(data, dataShards, i) == p[from..from + size];
      PaddedByte(data, dataShards, j);
    }
  }

  lemma ParityIsZeros(data: Bytes, dataShards: nat, i: nat)
    requires 0 < dataShards <= i
    ensures Shard(data, dataShards, i) == Zeros(ShardSize(data, dataShards))
  {
  }

  /** One turn of the sharding loop: a zeroed buffer, overwritten with what is left of the prefixed data. */
  method CutShard(prefixed: Bytes, ghost data: Bytes, dataShards: nat, i: nat, size: nat) returns (shard: Bytes)
    requires i < dataShards
    requires prefixed == Prefixed(data) && size == ShardSize(data, dataShards)
    ensures shard == Shard(data, dataShards, i)
  {
    hide ShardSize, CeilDiv, Shard, ToLE;
    NextPiece(i, size, dataShards);
    var start := i * size;
    var end := if start + size < |prefixed| then start + size else |prefixed|;
    shard := Zeros(size);
    if end > start {
      shard := prefixed[start..end] + shard[end - start..];
    }
    PieceOfPadded(data, dataShards, i, start, end);
  }

  method EncodeErasure(data: Bytes, dataShards: nat, parityShards: nat) returns (shards: seq<Bytes>)
    requires dataShards > 0
    requires 8 + |data| < TWO_64
    ensures shards == Encoding(data, dataShards, parityShards)
    ensures |shards| == dataShards + parityShards
    ensures forall i :: 0 <= i < |shards| ==> |shards[i]| == (8 + |data| + dataShards - 1) / dataShards
    ensures forall i, k :: dataShards <= i < |shards| && 0 <= k < |shards[i]| ==> shards[i][k] == 0
  {
    hide ToLE, Encoding, Shard;
    var prefixed := ToLE(|data|, 8) + data;
    var size := CeilDiv(|prefixed|, dataShards);
    shards := [];
    for i := 0 to dataShards
      invariant |shards| == i
      invariant forall k :: 0 <= k < i ==> shards[k] == Shard(data, dataShards, k)
    {
      var shard := CutShard(prefixed, data, dataShards, i, size);
      shards := shards + [shard];
    }
    for i := 0 to parityShards
      invariant |shards| == dataShards + i
      invariant forall k :: dataShards <= k < |shards| ==> shards[k] == Zeros(size)
      invariant forall k :: 0 <= k < |shards| ==> shards[k] == Shard(data, dataShards, k)
    {
      assert Shard(data, dataShards, |shards|) == Zeros(size) by {
        ParityIsZeros(data, dataShards, |shards|);
      }
      shards := shards + [Zeros(size)];
    }
  }

  method DecodeShards(shards: seq<Bytes>, dataShards: nat) returns (r: Result<Bytes, DecodeError>)
    ensures r == DecodeErasure(shards, dataShards)
  {
    var combined: Bytes := [];
    for i := 0 to dataShards
      invariant combined == Concat(if i <= |shards| then shards[..i] else shards)
    {
      if i < |shards| {
        assert shards[..i + 1][..i] == shards[..i];
        combined := combined + shards[i];
      } else {
        assert shards[..|shards|] == shards;
      }
    }
    if |combined| < 8 {
      return Err(TooShort);
    }
    var len := FromLE(combined[..8]);
    if 8 + len >= TWO_64 {
      return Err(Panic);
    }
    if 8 + len > |combined| {
      return Err(PrefixExceedsData);
    }
    r := Ok(combined[8..8 + len]);
  }

  // ------------------------------------------------------------------ laws

  lemma {:induction false} ConcatSplit(xs: seq<Bytes>, ys: seq<Bytes>)
    ensures Concat(xs + ys) == Concat(xs) + Concat(ys)
  {
    if ys == [] {
      assert xs + ys == xs;
    } else {
      var last := |ys| - 1;
      ConcatSplit(xs, ys[..last]);
      assert (xs + ys)[..|xs + ys| - 1] == xs + ys[..last];
    }
  }

  lemma MoreRoom(n: nat, d: nat, size: nat)
    requires n <= d
    ensures n * size <= d * size
  {
  }

  /** The first n pieces of the padded data. */
  function Front(data: Bytes, dataShards: nat, n: nat): (f: Bytes)
    requires 0 < dataShards && n <= dataShards
    ensures |f| == n * ShardSize(data, dataShards)
    ensures f <= Padded(data, dataShards)
  {
    MoreRoom(n, dataShards, ShardSize(data, dataShards));
    Padded(data, dataShards)[..n * ShardSize(data, dataShards)]
  }

  lemma FrontStep(data: Bytes, dataShards: nat, n: nat)
    requires n < dataShards
    ensures Front(data, dataShards, n + 1) == Front(data, dataShards, n) + Shard(data, dataShards, n)
  {
    hide ShardSize, Padded;
    var size, p := ShardSize(data, dataShards), Padded(data, dataShards);
    NextPiece(n, size, dataShards);
    var from := n * size;
    assert p[..from + size] == p[..from] + p[from..from + size];
  }

  /** The data shards, joined, are the padded data. */
  lemma {:induction false} JoinedShards(data: Bytes, dataShards: nat, parityShards: nat, n: nat)
    requires dataShards > 0 && n <= dataShards
    ensures Concat(Encoding(data, dataShards, parityShards)[..n]) == Front(data, dataShards, n)
  {
    hide ShardSize, Padded, Encoding, Shard;
    var shards := Encoding(data, dataShards, parityShards);
    if n == 0 {
    } else {
      JoinedShards(data, dataShards, parityShards, n - 1);
      FrontStep(data, dataShards, n - 1);
      assert shards[..n][..n - 1] == shards[..n - 1];
    }
  }

  /** The padded data starts with the length and the data. */
  lemma PaddedStarts(data: Bytes, dataShards: nat)
    requires dataShards > 0 && 8 + |data| < TWO_64
    ensures 8 + |data| <= |Padded(data, dataShards)|
    ensures FromLE(Padded(data, dataShards)[..8]) == |data|
    ensures Padded(data, dataShards)[8..8 + |data|] == data
  {
    var p := Padded(data, dataShards);
    PadWidth(8 + |data|, dataShards);
    assert p[..8] == ToLE(|data|, 8);
    Pow256Of8();
    LERoundTrip(|data|, 8);
  }

  /**
   * Decoding succeeds exactly on a length prefix followed by that many bytes and anything more, and returns the bytes;
   * it fails in three ways: no room for the prefix, a prefix that overflows 64 bits, or one beyond the bytes there are.
   */
  lemma DecodesExactly(combined: Bytes, d: Bytes)
    ensures DecodeJoined(combined) == Ok(d) <==>
      && 8 + |d| < 0x1_0000_0000_0000_0000 && 8 + |d| <= |combined|
      && combined[..8] == ToLE(|d|, 8) && combined[8..8 + |d|] == d
    ensures DecodeJoined(combined) == Err(TooShort) <==> |combined| < 8
    ensures DecodeJoined(combined) == Err(Panic) <==>
      |combined| >= 8 && FromLE(combined[..8]) + 8 >= 0x1_0000_0000_0000_0000
    ensures DecodeJoined(combined) == Err(PrefixExceedsData) <==>
      |combined| >= 8 && |combined| < 8 + FromLE(combined[..8]) < 0x1_0000_0000_0000_0000
  {
    hide ToLE, FromLE;
    if |combined| >= 8 {
      LERoundTripBack(combined[..8]);
      if 8 + |d| < TWO_64 {
        Pow256Of8();
        LERoundTrip(|d|, 8);
      }
    }
  }

  /** Decoding joined bytes of which a front part is known: all of them, or enough to hold the data. */
  lemma FrontDecodes(data: Bytes, dataShards: nat, front: Bytes, combined: Bytes)
    requires dataShards > 0 && 8 + |data| < TWO_64
    requires front <= Padded(data, dataShards) && front <= combined
    requires front == combined || 8 + |data| <= |front|
    ensures DecodeJoined(combined) ==
      if |combined| < 8 then Err(TooShort) else if |combined| < 8 + |data| then Err(PrefixExceedsData) else Ok(data)
  {
    hide Padded, FromLE;
    PaddedStarts(data, dataShards);
    var p := Padded(data, dataShards);
    if |front| >= 8 {
      assert combined[..8] == front[..8] == p[..8];
    }
    if |front| >= 8 + |data| {
      assert combined[8..8 + |data|] == front[8..8 + |data|] == p[8..8 + |data|];
    }
  }

  /**
   * What a reader that expects `d` data shards makes of a list that starts with encoded shards, as many as there are:
   * it needs room for the length prefix, then for the data, and whatever follows the data does not matter.
   */
  lemma PrefixDecodes(data: Bytes, dataShards: nat, parityShards: nat, held: seq<Bytes>, d: nat)
    requires dataShards > 0 && 8 + |data| < TWO_64 && |held| == d
    requires
      var m := if d < dataShards then d else dataShards;
      held[..m] == Encoding(data, dataShards, parityShards)[..m]
    ensures
      var room := d * ShardSize(data, dataShards);
      DecodeErasure(held, d) ==
        if room < 8 then Err(TooShort) else if room < 8 + |data| then Err(PrefixExceedsData) else Ok(data)
  {
    hide ShardSize, Padded, Encoding, DecodeJoined, Concat, Front;
    var m := if d < dataShards then d else dataShards;
    var front := Front(data, dataShards, m);
    JoinedShards(data, dataShards, parityShards, m);
    ConcatSplit(held[..m], held[m..]);
    assert held == held[..m] + held[m..] == held[..d];
    PaddedStarts(data, dataShards);
    if d <= dataShards {
      assert held[..m] == held;
    } else {
      MoreRoom(dataShards, d, ShardSize(data, dataShards));
    }
    FrontDecodes(data, dataShards, front, Concat(held));
  }

  /** Decoding any shard list that starts with the encoded data shards returns the data, whatever follows them. */
  lemma ErasureRoundTrip(data: Bytes, dataShards: nat, parityShards: nat, held: seq<Bytes>)
    requires dataShards > 0 && 8 + |data| < TWO_64
    requires dataShards <= |held| && held[..dataShards] == Encoding(data, dataShards, parityShards)[..dataShards]
    ensures DecodeErasure(held, dataShards) == Ok(data)
  {
    PrefixDecodes(data, dataShards, parityShards, held[..dataShards], dataShards);
    PaddedStarts(data, dataShards);
    assert held[..dataShards][..dataShards] == held[..dataShards];
  }
}
