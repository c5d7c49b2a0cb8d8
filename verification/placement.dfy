/** Placing chunks on nodes, and what the recoverability check counts. */
module Placement {
  import opened Wrappers
  import opened Nodes
  import opened ObjectStore
  import opened ObjectLaws

  /** How many entries of the placement are not listed as failed. */
  function Available(placement: seq<NodeId>, failed: seq<NodeId>): nat {
    if placement == [] then 0 else
      var last := |placement| - 1;
      Available(placement[..last], failed) + if placement[last] in failed then 0 else 1
  }

  predicate IsRecoverable(placement: seq<NodeId>, policy: StoragePolicy, failed: seq<NodeId>) {
    match policy
    case Hot => exists i :: 0 <= i < |placement| && placement[i] !in failed
    case Warm => Available(placement, failed) >= 4
    case Cold => Available(placement, failed) >= 6
    case Archive => Available(placement, failed) >= 8
  }

  method DeterminePlacement(policy: StoragePolicy, nodes: seq<NodeId>) returns (placement: seq<NodeId>)
    ensures placement == nodes[..if policy.Replicas() < |nodes| then policy.Replicas() else |nodes|]
    ensures |nodes| > 0 && !policy.Hot? ==> placement == [nodes[0]]
    ensures policy.Hot? ==> |placement| == if |nodes| < 3 then |nodes| else 3
  {
    placement := [];
    if nodes == [] {
      return;
    }
    var count := if policy.Replicas() < |nodes| then policy.Replicas() else |nodes|;
    for i := 0 to count
      invariant placement == nodes[..i]
    {
      placement := placement + [nodes[i % |nodes|]];
    }
  }

  predicate Distinct(ns: seq<NodeId>) {
    forall i, j :: 0 <= i < j < |ns| ==> ns[i] != ns[j]
  }

  /** The nodes of the placement that a failure list names. */
  ghost function Failures(placement: seq<NodeId>, failed: seq<NodeId>): set<NodeId> {
    set n | n in placement && n in failed
  }

  lemma {:induction false} AvailableCountsNodes(placement: seq<NodeId>, failed: seq<NodeId>)
    requires Distinct(placement)
    ensures Available(placement, failed) + |Failures(placement, failed)| == |placement|
  {
    if placement == [] {
    } else {
      var last := |placement| - 1;
      var init, n := placement[..last], placement[last];
      AvailableCountsNodes(init, failed);
      assert placement == init + [n];
      if n in failed {
        assert Failures(placement, failed) == Failures(init, failed) + {n};
      } else {
        assert Failures(placement, failed) == Failures(init, failed);
      }
    }
  }

  /**
   * An erasure-coded chunk counts as recoverable while as many of its nodes are left as it has data shards: with one
   * node per shard, after at most `parity` failures and no more.
   */
  lemma ErasureTolerance(placement: seq<NodeId>, policy: StoragePolicy, failed: seq<NodeId>)
    requires !policy.Hot? && Distinct(placement)
    ensures IsRecoverable(placement, policy, failed) <==>
      |placement| - |Failures(placement, failed)| >= if policy.Warm? then 4 else if policy.Cold? then 6 else 8
    ensures |placement| == policy.DataShards() + policy.ParityShards() ==>
      (IsRecoverable(placement, policy, failed) <==> |Failures(placement, failed)| <= policy.ParityShards())
  {
    AvailableCountsNodes(placement, failed);
  }

  lemma {:induction false} AvailableIsSome(placement: seq<NodeId>, failed: seq<NodeId>)
    ensures Available(placement, failed) > 0 <==> exists i :: 0 <= i < |placement| && placement[i] !in failed
  {
    if placement == [] {
    } else {
      var init := placement[..|placement| - 1];
      AvailableIsSome(init, failed);
      if i :| 0 <= i < |placement| && placement[i] !in failed {
        assert i < |init| ==> init[i] !in failed;
      }
      if i :| 0 <= i < |init| && init[i] !in failed {
        assert placement[i] !in failed;
      }
    }
  }

  /**
   * What the placement rule itself makes of distinct nodes counts as recoverable exactly if the policy is Hot and not
   * all chosen nodes failed: a single node, all that the erasure policies get, never counts as enough.
   */
  lemma OwnPlacementTolerance(
    policy: StoragePolicy, nodes: seq<NodeId>, placement: seq<NodeId>, failed: seq<NodeId>)
    requires Distinct(nodes)
    requires placement == nodes[..if policy.Replicas() < |nodes| then policy.Replicas() else |nodes|]
    ensures IsRecoverable(placement, policy, failed) <==>
      policy.Hot? && |Failures(placement, failed)| < if 3 < |nodes| then 3 else |nodes|
  {
    AvailableCountsNodes(placement, failed);
    AvailableIsSome(placement, failed);
  }

  lemma {:induction false} AvailableAntitone(placement: seq<NodeId>, failed: seq<NodeId>, more: seq<NodeId>)
    requires forall n :: n in failed ==> n in more
    ensures Available(placement, more) <= Available(placement, failed)
  {
    if placement == [] {
    } else {
      AvailableAntitone(placement[..|placement| - 1], failed, more);
    }
  }

  /** More failures never make a chunk recoverable. */
  lemma RecoverabilityAntitone(placement: seq<NodeId>, policy: StoragePolicy, failed: seq<NodeId>, more: seq<NodeId>)
    requires forall n :: n in failed ==> n in more
    requires IsRecoverable(placement, policy, more)
    ensures IsRecoverable(placement, policy, failed)
  {
    AvailableAntitone(placement, failed, more);
  }

  /** The shards that a failure list takes away when shard i lies on the i-th node of the placement. */
  function LostShards(placement: seq<NodeId>, failed: seq<NodeId>): set<nat> {
    set i: nat | i < |placement| && placement[i] in failed
  }

  /**
   * "Recoverable" and "readable", for one and the same failure list: the check counts the failed nodes against the
   * parity, the get fails if a single data shard lay on one of them, because parity shards carry no information.
   */
  lemma RecoverableVersusReadable(
    prims: Primitives, disk: Disk, o: Object, placement: seq<NodeId>, failed: seq<NodeId>)
    requires prims.Lawful() && o.Fits(prims) && Stores(prims, disk, o)
    requires !o.policy.Hot? && Distinct(placement)
    requires |placement| == o.policy.DataShards() + o.policy.ParityShards()
    ensures IsRecoverable(placement, o.policy, failed) <==> |Failures(placement, failed)| <= o.policy.ParityShards()
    ensures
      var gone := set i | i in LostShards(placement, failed) :: ShardPath(o.bucket, o.key, i);
      GetObject(prims, disk.(files := disk.files - gone), o.bucket, o.key) ==
        if exists i :: 0 <= i < o.policy.DataShards() && placement[i] in failed then Err(InsufficientShards)
        else Ok(o.data)
  {
    hide GetObject, Stores, IsRecoverable, ShardPath;
    ErasureTolerance(placement, o.policy, failed);
    LossTolerance(prims, disk, o, LostShards(placement, failed));
    var d := o.policy.DataShards();
    if i :| 0 <= i < d && placement[i] in failed {
      assert i in LostShards(placement, failed);
    }
  }

  /** Losing any one node that holds a data shard is within every erasure policy's tolerance, yet the get fails. */
  lemma RecoverableButUnreadable(prims: Primitives, disk: Disk, o: Object, placement: seq<NodeId>, i: nat)
    requires prims.Lawful() && o.Fits(prims) && Stores(prims, disk, o)
    requires !o.policy.Hot? && Distinct(placement) && i < o.policy.DataShards()
    requires |placement| == o.policy.DataShards() + o.policy.ParityShards()
    ensures IsRecoverable(placement, o.policy, [placement[i]])
    ensures
      var gone := set k | k in LostShards(placement, [placement[i]]) :: ShardPath(o.bucket, o.key, k);
      GetObject(prims, disk.(files := disk.files - gone), o.bucket, o.key) == Err(InsufficientShards)
  {
    hide GetObject, Stores, IsRecoverable, ShardPath, LostShards;
    assert Failures(placement, [placement[i]]) == {placement[i]};
    RecoverableVersusReadable(prims, disk, o, placement, [placement[i]]);
  }
}
