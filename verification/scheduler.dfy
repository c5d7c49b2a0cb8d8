/** Picking the node for a job: the same answer for every iteration order of the cluster's node map. */
module Scheduler {
  import opened Wrappers
  import opened Bytes

  datatype Runtime = Docker | Python | Jar | Executable | Wasm

  datatype NodeStatus = Online | Suspected | Offline

  datatype Capabilities = Capabilities(docker: bool, python: bool, java: bool, wasm: bool)

  /** `id` is the textual id, which is also the sort key. */
  datatype NodeInfo = NodeInfo(id: string, status: NodeStatus, tier: nat, capabilities: Capabilities)

  datatype Request = Request(runtime: Runtime, tierMin: nat, requireDocker: bool)

  predicate RuntimeSupported(n: NodeInfo, req: Request) {
    && (req.requireDocker ==> n.capabilities.docker)
    && (match req.runtime
        case Docker => n.capabilities.docker
        case Python => n.capabilities.python
        case Jar => n.capabilities.java
        case Wasm => n.capabilities.wasm
        case Executable => true)
  }

  predicate Candidate(n: NodeInfo, req: Request) {
    n.status.Online? && n.tier >= req.tierMin
  }

  predicate Eligible(n: NodeInfo, req: Request) {
    Candidate(n, req) && RuntimeSupported(n, req)
  }

  function Codes(s: string): (c: seq<int>)
    ensures |c| == |s|
    ensures forall i :: 0 <= i < |s| ==> c[i] == s[i] as int
  {
    seq(|s|, i requires 0 <= i < |s| => s[i] as int)
  }

  predicate IdLess(a: string, b: string) {
    LexLess(Codes(a), Codes(b))
  }

  /** Ids are ordered as texts: a proper prefix comes first, and otherwise the first differing character decides. */
  lemma IdLessMeans(a: string, b: string)
    ensures IdLess(a, b) <==>
      || (|a| < |b| && a == b[..|a|])
      || (exists i :: 0 <= i < |a| && i < |b| && a[..i] == b[..i] && a[i] as int < b[i] as int)
  {
    var c, d := Codes(a), Codes(b);
    LexMeaning(c, d);
    forall i | 0 <= i <= |a| && i <= |b| ensures a[..i] == b[..i] <==> c[..i] == d[..i] {
      if c[..i] == d[..i] {
        assert forall k :: 0 <= k < i ==> a[k] as int == c[..i][k] == d[..i][k] == b[k] as int;
      } else if a[..i] == b[..i] {
        assert forall k :: 0 <= k < i ==> c[k] == a[..i][k] as int == b[..i][k] as int == d[k];
      }
    }
    assert |a| < |b| ==> a[..|a|] == a && c[..|a|] == c;
  }

  /** A node is eligible iff it is online, of the tier asked for, and has Docker, Python, Java or Wasm where needed. */
  lemma EligibleMeans(n: NodeInfo, req: Request)
    ensures Eligible(n, req) <==>
      && n.status == Online && req.tierMin <= n.tier
      && (req.requireDocker || req.runtime == Docker ==> n.capabilities.docker)
      && (req.runtime == Python ==> n.capabilities.python)
      && (req.runtime == Jar ==> n.capabilities.java)
      && (req.runtime == Wasm ==> n.capabilities.wasm)
  {
  }

  lemma IdOrder(a: string, b: string, c: string)
    ensures IdLess(a, b) || a == b || IdLess(b, a)
    ensures !IdLess(a, a)
    ensures IdLess(a, b) && IdLess(b, c) ==> IdLess(a, c)
  {
    LexTotal(Codes(a), Codes(b));
    LexIrreflexive(Codes(a));
    if Codes(a) == Codes(b) {
      assert forall i :: 0 <= i < |a| ==> Codes(a)[i] == Codes(b)[i];
      assert a == b;
    }
    if IdLess(a, b) && IdLess(b, c) {
      LexTransitive(Codes(a), Codes(b), Codes(c));
    }
  }

  /** No id in the sequence is less than an earlier one. */
  ghost predicate SortedById(ns: seq<NodeInfo>) {
    forall i, j :: 0 <= i < j < |ns| ==> !IdLess(ns[j].id, ns[i].id)
  }

  /** Inserts n before the first element that is greater, which keeps equal ids in their order. */
  method InsertById(ns: seq<NodeInfo>, n: NodeInfo) returns (r: seq<NodeInfo>)
    requires SortedById(ns)
    ensures SortedById(r)
    ensures forall x :: x in r <==> x in ns || x == n
  {
    var i := |ns|;
    while i > 0 && IdLess(n.id, ns[i - 1].id)
      invariant 0 <= i <= |ns|
      invariant forall k :: i <= k < |ns| ==> IdLess(n.id, ns[k].id)
    {
      i := i - 1;
    }
    r := ns[..i] + [n] + ns[i..];
    forall a, b | 0 <= a < b < |r| ensures !IdLess(r[b].id, r[a].id) {
      if i > 0 {
        IdOrder(r[b].id, ns[i - 1].id, n.id);
        IdOrder(n.id, r[b].id, n.id);
        IdOrder(n.id, r[b].id, r[a].id);
        if a < i {
          IdOrder(n.id, r[a].id, ns[i - 1].id);
          IdOrder(ns[i - 1].id, r[a].id, n.id);
          assert !IdLess(ns[i - 1].id, ns[a].id);
        }
      } else {
        IdOrder(n.id, r[b].id, n.id);
      }
    }
    forall x ensures x in r <==> x in ns || x == n {
      assert ns == ns[..i] + ns[i..];
    }
  }

  /** None exactly when no node is eligible, otherwise the eligible node with the least id. */
  ghost predicate IsPick(nodes: seq<NodeInfo>, req: Request, picked: Option<string>) {
    && (picked.None? <==> forall n :: n in nodes ==> !Eligible(n, req))
    && (picked.Some? ==>
        && (exists n :: n in nodes && Eligible(n, req) && n.id == picked.value)
        && (forall n :: n in nodes && Eligible(n, req) ==> n.id == picked.value || IdLess(picked.value, n.id)))
  }

  /** `nodes` are the cluster's nodes in whatever order its map yields them. */
  method PickNode(nodes: seq<NodeInfo>, req: Request) returns (picked: Option<string>)
    ensures IsPick(nodes, req, picked)
    ensures picked.None? <==> forall n :: n in nodes ==> !Eligible(n, req)
    ensures picked.Some? ==> exists n :: n in nodes && Eligible(n, req) && n.id == picked.value
    ensures picked.Some? ==>
      forall n :: n in nodes && Eligible(n, req) ==> n.id == picked.value || IdLess(picked.value, n.id)
  {
    var candidates: seq<NodeInfo> := [];
    for k := 0 to |nodes|
      invariant SortedById(candidates)
      invariant forall x :: x in candidates <==> x in nodes[..k] && Candidate(x, req)
    {
      assert nodes[..k + 1] == nodes[..k] + [nodes[k]];
      if Candidate(nodes[k], req) {
        candidates := InsertById(candidates, nodes[k]);
      }
    }
    assert nodes[..|nodes|] == nodes;
    for k := 0 to |candidates|
      invariant forall j :: 0 <= j < k ==> !RuntimeSupported(candidates[j], req)
    {
      if RuntimeSupported(candidates[k], req) {
        picked := Some(candidates[k].id);
        assert candidates[k] in candidates;
        forall n | n in nodes && Eligible(n, req) ensures n.id == picked.value || IdLess(picked.value, n.id) {
          var j :| 0 <= j < |candidates| && candidates[j] == n;
          IdOrder(picked.value, n.id, n.id);
        }
        return;
      }
    }
    picked := None;
  }

  /** Any two iteration orders of the same nodes lead to the same pick. */
  lemma PickIgnoresOrder(a: seq<NodeInfo>, b: seq<NodeInfo>, req: Request, p: Option<string>, q: Option<string>)
    requires forall n :: n in a <==> n in b
    requires IsPick(a, req, p) && IsPick(b, req, q)
    ensures p == q
  {
    if p.Some? && q.Some? && p != q {
      var x :| x in a && Eligible(x, req) && x.id == p.value;
      var y :| y in b && Eligible(y, req) && y.id == q.value;
      IdOrder(p.value, q.value, p.value);
    }
  }
}
