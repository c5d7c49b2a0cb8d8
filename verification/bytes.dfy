/** Machine integers, their big- and little-endian encodings, and the byte-lexicographic order. */
module Bytes {
  type byte = x: int | 0 <= x < 256
  type Bytes = seq<byte>

  const TWO_64: nat := 0x1_0000_0000_0000_0000

  type u64 = x: int | 0 <= x < 0x1_0000_0000_0000_0000

  function Pow256(n: nat): (p: nat)
    ensures p >= 1
  {
    if n == 0 then 1 else 256 * Pow256(n - 1)
  }

  lemma Pow256Of8()
    ensures Pow256(8) == TWO_64
  {
    assert Pow256(4) == 0x1_0000_0000;
    assert Pow256(8) == 256 * (256 * (256 * (256 * Pow256(4))));
  }

  /** The `width` low-order bytes of n, most significant first. */
  function ToBE(n: nat, width: nat): (b: Bytes)
    ensures |b| == width
  {
    if width == 0 then [] else ToBE(n / 256, width - 1) + [n % 256]
  }

  function FromBE(b: Bytes): nat {
    if b == [] then 0 else FromBE(b[..|b| - 1]) * 256 + b[|b| - 1]
  }

  /** The `width` low-order bytes of n, least significant first. */
  function ToLE(n: nat, width: nat): (b: Bytes)
    ensures |b| == width
  {
    if width == 0 then [] else [n % 256] + ToLE(n / 256, width - 1)
  }

  function FromLE(b: Bytes): nat {
    if b == [] then 0 else b[0] + 256 * FromLE(b[1..])
  }

  lemma {:induction false} BERoundTrip(n: nat, width: nat)
    requires n < Pow256(width)
    ensures FromBE(ToBE(n, width)) == n
  {
    if width == 0 {
    } else {
      BERoundTrip(n / 256, width - 1);
      assert ToBE(n, width)[..width - 1] == ToBE(n / 256, width - 1);
    }
  }

  lemma {:induction false} LERoundTrip(n: nat, width: nat)
    requires n < Pow256(width)
    ensures FromLE(ToLE(n, width)) == n
  {
    if width == 0 {
    } else {
      LERoundTrip(n / 256, width - 1);
    }
  }

  lemma FourMoreBytes(n: nat, width: nat)
    ensures ToLE(n, width + 4) ==
      [n % 256, n / 0x100 % 256, n / 0x1_0000 % 256, n / 0x100_0000 % 256] + ToLE(n / 0x1_0000_0000, width)
  {
    assert n / 0x100 / 256 == n / 0x1_0000;
    assert n / 0x1_0000 / 256 == n / 0x100_0000;
    assert n / 0x100_0000 / 256 == n / 0x1_0000_0000;
    assert ToLE(n, width + 4) == [n % 256] + ToLE(n / 0x100, width + 3);
    assert ToLE(n / 0x100, width + 3) == [n / 0x100 % 256] + ToLE(n / 0x1_0000, width + 2);
    assert ToLE(n / 0x1_0000, width + 2) == [n / 0x1_0000 % 256] + ToLE(n / 0x100_0000, width + 1);
    assert ToLE(n / 0x100_0000, width + 1) == [n / 0x100_0000 % 256] + ToLE(n / 0x1_0000_0000, width);
  }

  /** The eight bytes of a 64-bit number, least significant first. */
  lemma LEBytes(n: nat)
    ensures ToLE(n, 8) == [
      n % 256, n / 0x100 % 256, n / 0x1_0000 % 256, n / 0x100_0000 % 256,
      n / 0x1_0000_0000 % 256, n / 0x100_0000_0000 % 256, n / 0x1_0000_0000_0000 % 256, n / 0x100_0000_0000_0000 % 256]
  {
    var high := n / 0x1_0000_0000;
    FourMoreBytes(n, 4);
    FourMoreBytes(high, 0);
    assert high / 0x100 == n / 0x100_0000_0000;
    assert high / 0x1_0000 == n / 0x1_0000_0000_0000;
    assert high / 0x100_0000 == n / 0x100_0000_0000_0000;
  }

  /** Every byte string is the little-endian encoding of the number it decodes to. */
  lemma {:induction false} LERoundTripBack(b: Bytes)
    ensures ToLE(FromLE(b), |b|) == b
  {
    if b == [] {
    } else {
      LERoundTripBack(b[1..]);
      assert FromLE(b) / 256 == FromLE(b[1..]) && FromLE(b) % 256 == b[0];
      assert b == [b[0]] + b[1..];
    }
  }

  lemma {:induction false} FromBEBound(b: Bytes)
    ensures FromBE(b) < Pow256(|b|)
  {
    if b == [] {
    } else {
      FromBEBound(b[..|b| - 1]);
    }
  }

  /** Every byte string is the encoding of the number it decodes to. */
  lemma {:induction false} BERoundTripBack(b: Bytes)
    ensures ToBE(FromBE(b), |b|) == b
  {
    if b == [] {
    } else {
      BERoundTripBack(b[..|b| - 1]);
      assert FromBE(b) / 256 == FromBE(b[..|b| - 1]);
      assert b == b[..|b| - 1] + [b[|b| - 1]];
    }
  }

  // ------------------------------------------------------------------ order

  /** The order of byte strings (and of character codes): first difference decides, a proper prefix is smaller. */
  predicate LexLess(a: seq<int>, b: seq<int>) {
    b != [] && (a == [] || a[0] < b[0] || (a[0] == b[0] && LexLess(a[1..], b[1..])))
  }

  /** A proper prefix is smaller, and otherwise the first difference decides. */
  lemma {:induction false} LexMeaning(a: seq<int>, b: seq<int>)
    ensures LexLess(a, b) <==>
      || (|a| < |b| && a == b[..|a|])
      || (exists i :: 0 <= i < |a| && i < |b| && a[..i] == b[..i] && a[i] < b[i])
  {
    if a == [] || b == [] || a[0] < b[0] {
      if a != [] && b != [] {
        assert a[..0] == b[..0];
      }
    } else if a[0] > b[0] {
      assert forall i :: 0 < i <= |a| && i <= |b| ==> a[..i][0] == a[0] && b[..i][0] == b[0];
    } else {
      LexMeaning(a[1..], b[1..]);
      assert |a| < |b| ==> (a == b[..|a|] <==> a[1..] == b[1..][..|a| - 1]);
      if i :| 0 <= i < |a| && i < |b| && a[..i] == b[..i] && a[i] < b[i] {
        assert a[1..][..i - 1] == a[..i][1..] == b[..i][1..] == b[1..][..i - 1];
        assert a[1..][i - 1] < b[1..][i - 1];
      }
      if i :| 0 <= i < |a| - 1 && i < |b| - 1 && a[1..][..i] == b[1..][..i] && a[1..][i] < b[1..][i] {
        assert a[..i + 1] == [a[0]] + a[1..][..i] == [b[0]] + b[1..][..i] == b[..i + 1];
        assert a[i + 1] < b[i + 1];
      }
    }
  }

  lemma {:induction false} LexTotal(a: seq<int>, b: seq<int>)
    ensures LexLess(a, b) || a == b || LexLess(b, a)
  {
    if a == [] || b == [] || a[0] != b[0] {
    } else {
      LexTotal(a[1..], b[1..]);
      if a[1..] == b[1..] {
        assert a == [a[0]] + a[1..] && b == [b[0]] + b[1..];
      }
    }
  }

  lemma {:induction false} LexIrreflexive(a: seq<int>)
    ensures !LexLess(a, a)
  {
    if a == [] {
    } else {
      LexIrreflexive(a[1..]);
    }
  }

  lemma {:induction false} LexTransitive(a: seq<int>, b: seq<int>, c: seq<int>)
    requires LexLess(a, b) && LexLess(b, c)
    ensures LexLess(a, c)
  {
    if a == [] || a[0] != b[0] || b[0] != c[0] {
    } else {
      LexTransitive(a[1..], b[1..], c[1..]);
    }
  }

  lemma LexAsymmetric(a: seq<int>, b: seq<int>)
    requires LexLess(a, b)
    ensures !LexLess(b, a)
  {
    if LexLess(b, a) {
      LexTransitive(a, b, a);
      LexIrreflexive(a);
    }
  }

  lemma {:induction false} LexSnoc(s: seq<int>, x: int, t: seq<int>, y: int)
    requires |s| == |t|
    ensures LexLess(s + [x], t + [y]) <==> LexLess(s, t) || (s == t && x < y)
  {
    if s == [] {
    } else {
      assert (s + [x])[1..] == s[1..] + [x] && (t + [y])[1..] == t[1..] + [y];
      assert s == [s[0]] + s[1..] && t == [t[0]] + t[1..];
      LexSnoc(s[1..], x, t[1..], y);
    }
  }

  /** Byte order of equally long big-endian keys is numeric order. */
  lemma {:induction false} BEOrder(m: nat, n: nat, width: nat)
    requires m < Pow256(width) && n < Pow256(width)
    ensures LexLess(ToBE(m, width), ToBE(n, width)) <==> m < n
  {
    if width == 0 {
    } else {
      BEOrder(m / 256, n / 256, width - 1);
      LexSnoc(ToBE(m / 256, width - 1), m % 256, ToBE(n / 256, width - 1), n % 256);
      BERoundTrip(m / 256, width - 1);
      BERoundTrip(n / 256, width - 1);
    }
  }
}
