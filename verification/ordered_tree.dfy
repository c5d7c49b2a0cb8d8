/** The iteration order of a sled tree: all keys, once each, in byte-lexicographic order. */
module OrderedTree {
  import opened Bytes

  ghost predicate Ascending(keys: seq<Bytes>) {
    forall i, j :: 0 <= i < j < |keys| ==> LexLess(keys[i], keys[j])
  }

  ghost predicate Iterates(keys: seq<Bytes>, s: set<Bytes>) {
    Ascending(keys) && forall k :: k in keys <==> k in s
  }

  ghost predicate IsLeast(m: Bytes, s: set<Bytes>) {
    m in s && forall k :: k in s ==> m == k || LexLess(m, k)
  }

  lemma {:induction false} LeastExists(s: set<Bytes>)
    requires s != {}
    ensures exists m: Bytes :: IsLeast(m, s)
  {
    var x :| x in s;
    var rest := s - {x};
    if rest == {} {
      assert s == {x};
      assert IsLeast(x, s);
    } else {
      LeastExists(rest);
      var m: Bytes :| IsLeast(m, rest);
      assert m in rest && m != x;
      LexTotal(x, m);
      var least := if LexLess(m, x) then m else x;
      forall k | k in s ensures least == k || LexLess(least, k) {
        if k != x {
          assert k in rest;
          if least == x && k != m {
            LexTransitive(x, m, k);
          }
        }
      }
      assert IsLeast(least, s);
    }
  }

  lemma LeastUnique(m: Bytes, n: Bytes, s: set<Bytes>)
    requires IsLeast(m, s) && IsLeast(n, s)
    ensures m == n
  {
    if m != n {
      LexAsymmetric(m, n);
    }
  }

  lemma IterationCons(m: Bytes, tail: seq<Bytes>, s: set<Bytes>)
    requires IsLeast(m, s) && Iterates(tail, s - {m})
    ensures Iterates([m] + tail, s)
  {
    forall i, j | 0 <= i < j < 1 + |tail| ensures LexLess(([m] + tail)[i], ([m] + tail)[j]) {
      assert tail[j - 1] in s - {m};
    }
    forall k ensures k in [m] + tail <==> k in s {
      assert k in s - {m} <==> k in s && k != m;
    }
  }

  lemma {:induction false} IterationExists(s: set<Bytes>)
    ensures exists keys :: Iterates(keys, s)
  {
    if s == {} {
      assert Iterates([], s);
    } else {
      LeastExists(s);
      var m: Bytes :| IsLeast(m, s);
      IterationExists(s - {m});
      var tail: seq<Bytes> :| Iterates(tail, s - {m});
      IterationCons(m, tail, s);
    }
  }

  /** The keys in the order in which the tree's iterator visits them. */
  ghost function SortedKeys(s: set<Bytes>): seq<Bytes> {
    IterationExists(s);
    var keys: seq<Bytes> :| Iterates(keys, s);
    keys
  }

  lemma SortedKeysMembers(s: set<Bytes>)
    ensures forall k :: k in SortedKeys(s) <==> k in s
    ensures forall i :: 0 <= i < |SortedKeys(s)| ==> SortedKeys(s)[i] in s
  {
    var keys := SortedKeys(s);
    assert Iterates(keys, s);
    assert forall i :: 0 <= i < |keys| ==> keys[i] in keys;
  }

  lemma IterationHead(a: seq<Bytes>, s: set<Bytes>)
    requires Iterates(a, s) && a != []
    ensures IsLeast(a[0], s)
  {
    assert a[0] in a;
  }

  lemma IterationTail(a: seq<Bytes>, s: set<Bytes>)
    requires Iterates(a, s) && a != []
    ensures Iterates(a[1..], s - {a[0]})
  {
    forall k ensures k in a[1..] <==> k in s - {a[0]} {
      if k in a[1..] {
        var i :| 1 <= i < |a| && a[i] == k;
        assert LexLess(a[0], k);
        LexIrreflexive(k);
      }
    }
  }

  lemma {:induction false} IterationUnique(a: seq<Bytes>, b: seq<Bytes>, s: set<Bytes>)
    requires Iterates(a, s) && Iterates(b, s)
    ensures a == b
    decreases s
  {
    assert a != [] ==> a[0] in s;
    assert b != [] ==> b[0] in s;
    if s == {} {
    } else {
      var x :| x in s;
      assert x in a && x in b;
      IterationHead(a, s);
      IterationHead(b, s);
      LeastUnique(a[0], b[0], s);
      IterationTail(a, s);
      IterationTail(b, s);
      IterationUnique(a[1..], b[1..], s - {a[0]});
      assert a == [a[0]] + a[1..] && b == [b[0]] + b[1..];
    }
  }

  method FindLeast(s: set<Bytes>) returns (m: Bytes)
    requires s != {}
    ensures IsLeast(m, s)
  {
    m :| m in s;
    var rest := s - {m};
    while rest != {}
      invariant rest <= s
      invariant IsLeast(m, s - rest)
      decreases rest
    {
      var x :| x in rest;
      LexTotal(x, m);
      if LexLess(x, m) {
        forall k | k in s - rest ensures x == k || LexLess(x, k) {
          if k != m {
            LexTransitive(x, m, k);
          }
        }
        m := x;
      }
      rest := rest - {x};
    }
    assert s - rest == s;
  }

  /** The iterator: repeatedly yields the least remaining key. */
  method Iterate(s: set<Bytes>) returns (keys: seq<Bytes>)
    ensures keys == SortedKeys(s)
  {
    keys := [];
    var rest := s;
    while rest != {}
      invariant rest <= s
      invariant Iterates(keys, s - rest)
      invariant forall i, k :: 0 <= i < |keys| && k in rest ==> LexLess(keys[i], k)
      decreases rest
    {
      var m := FindLeast(rest);
      ghost var before := keys;
      keys := keys + [m];
      rest := rest - {m};
      assert forall k :: k in keys <==> k in before || k == m;
    }
    assert s - rest == s;
    IterationUnique(keys, SortedKeys(s), s);
  }
}
