/**
 * Read safety across a cluster of storage nodes: puts, transfers, deletes and gets proceed by single writes and reads
 * that interleave in every way, nodes abandon operations halfway, and shard files are damaged at will.
 */
module StorageCluster {
  import opened Wrappers
  import opened Bytes
  import opened ObjectStore

  datatype Task =
    | Writing(node: nat, pending: seq<Write>, finishes: Option<ObjectMetadata>)
    | Reading(node: nat, bucket: string, key: string, meta: ObjectMetadata, shards: seq<Bytes>)

  /** A successful get: the bucket and key that the client asked for, and the bytes it received. */
  datatype Got = Got(bucket: string, key: string, data: Bytes)

  /** `puts` are the client puts begun so far, `stored` the metadata of finished ones, `got` the successful gets. */
  datatype Cluster = Cluster(
    nodes: seq<Disk>, tasks: map<nat, Task>, puts: set<Object>, stored: set<ObjectMetadata>,
    messages: set<Message>, got: set<Got>)

  datatype Step =
    | BeginPut(node: nat, o: Object)
    | BeginTransfer(node: nat, m: Message)
    | BeginDelete(node: nat, bucket: string, key: string)
    | DoWrite
    | FinishPut
    | Abandon
    | Send(meta: ObjectMetadata, shard: Sharding)
    | Damage(node: nat, path: Path, bytes: Option<Bytes>)
    | BeginGet(node: nat, bucket: string, key: string)
    | ReadShard
    | EndGet

  /** One step, of the task numbered `id` where a task is involved. */
  ghost predicate Next(prims: Primitives, c: Cluster, c': Cluster, id: nat, step: Step) {
    match step
    case BeginPut(node, o) =>
      && node < |c.nodes| && id !in c.tasks && o.Fits(prims)
      && c' == c.(puts := c.puts + {o},
                  tasks := c.tasks[id := Writing(node, PutWrites(prims, o), Some(o.Metadata(prims)))])
    case BeginTransfer(node, m) =>
      && node < |c.nodes| && id !in c.tasks && m in c.messages
      && c' == c.(tasks := c.tasks[id := Writing(node, TransferWrites(prims, m), None)])
    case BeginDelete(node, bucket, key) =>
      && node < |c.nodes| && id !in c.tasks
      && c' == c.(tasks := c.tasks[id := Writing(node, [RemoveIndex(bucket, key)], None)])
    case DoWrite =>
      && id in c.tasks && c.tasks[id].Writing? && c.tasks[id].pending != [] && c.tasks[id].node < |c.nodes|
      && var t := c.tasks[id];
         c' == c.(nodes := c.nodes[t.node := ApplyWrite(c.nodes[t.node], t.pending[0])],
                  tasks := c.tasks[id := t.(pending := t.pending[1..])])
    case FinishPut =>
      && id in c.tasks && c.tasks[id].Writing? && c.tasks[id].pending == []
      && c' == c.(tasks := c.tasks - {id},
                  stored := c.stored + if c.tasks[id].finishes.Some? then {c.tasks[id].finishes.value} else {})
    case Abandon => id in c.tasks && c' == c.(tasks := c.tasks - {id})
    // The shard may be anything the fan-out finds on the origin's disk, damaged or not.
    case Send(meta, shard) => meta in c.stored && c' == c.(messages := c.messages + {FanOutMessage(meta, shard)})
    case Damage(node, path, bytes) =>
      && node < |c.nodes|
      && var w := if bytes.Some? then PutFile(path, bytes.value) else RemoveFile(path);
         c' == c.(nodes := c.nodes[node := ApplyWrite(c.nodes[node], w)])
    case BeginGet(node, bucket, key) =>
      && node < |c.nodes| && id !in c.tasks && (bucket, key) in c.nodes[node].index
      && c' == c.(tasks := c.tasks[id := Reading(node, bucket, key, c.nodes[node].index[(bucket, key)], [])])
    case ReadShard =>
      && id in c.tasks && c.tasks[id].Reading? && c.tasks[id].node < |c.nodes|
      && var t := c.tasks[id];
         var path := ShardPath(t.bucket, t.key, |t.shards|);
         && |t.shards| < ReadParams(t.meta.policy).0 && path in c.nodes[t.node].files
         && c' == c.(tasks := c.tasks[id := t.(shards := t.shards + [c.nodes[t.node].files[path]])])
    case EndGet =>
      && id in c.tasks && c.tasks[id].Reading?
      && var t := c.tasks[id];
         && |t.shards| == ReadParams(t.meta.policy).0
         && var r := Finish(prims, t.meta, t.shards);
            c' == c.(tasks := c.tasks - {id},
                     got := c.got + if r.Ok? then {Got(t.bucket, t.key, r.value)} else {})
  }

  ghost predicate Initial(c: Cluster) {
    && (forall n :: 0 <= n < |c.nodes| ==> c.nodes[n].index == map[])
    && c.tasks == map[] && c.puts == {} && c.stored == {} && c.messages == {} && c.got == {}
  }

  ghost predicate IsRun(prims: Primitives, states: seq<Cluster>, ids: seq<nat>, steps: seq<Step>) {
    && |states| == |steps| + 1 && |ids| == |steps|
    && Initial(states[0])
    && forall i :: 0 <= i < |steps| ==> Next(prims, states[i], states[i + 1], ids[i], steps[i])
  }

  // ------------------------------------------------------------------ the invariant

  /** Some client put to this very bucket and key has this hash. */
  ghost predicate Authentic(prims: Primitives, puts: set<Object>, bucket: string, key: string, etag: string) {
    exists o :: o in puts && o.bucket == bucket && o.key == key && prims.sha(o.data) == etag
  }

  ghost predicate MetaOk(prims: Primitives, puts: set<Object>, meta: ObjectMetadata) {
    Authentic(prims, puts, meta.bucket, meta.key, meta.etag)
  }

  ghost predicate DiskOk(prims: Primitives, puts: set<Object>, disk: Disk) {
    forall at :: at in disk.index ==>
      at == (disk.index[at].bucket, disk.index[at].key) && MetaOk(prims, puts, disk.index[at])
  }

  ghost predicate WriteOk(prims: Primitives, puts: set<Object>, w: Write) {
    w.PutIndex? ==> MetaOk(prims, puts, w.meta)
  }

  ghost predicate TaskOk(prims: Primitives, puts: set<Object>, t: Task) {
    match t
    case Writing(_, pending, finishes) =>
      && (forall i :: 0 <= i < |pending| ==> WriteOk(prims, puts, pending[i]))
      && (finishes.Some? ==> MetaOk(prims, puts, finishes.value))
    case Reading(_, bucket, key, meta, _) => meta.bucket == bucket && meta.key == key && MetaOk(prims, puts, meta)
  }

  ghost predicate Inv(prims: Primitives, c: Cluster) {
    && (forall n :: 0 <= n < |c.nodes| ==> DiskOk(prims, c.puts, c.nodes[n]))
    && (forall id :: id in c.tasks ==> TaskOk(prims, c.puts, c.tasks[id]))
    && (forall meta :: meta in c.stored ==> MetaOk(prims, c.puts, meta))
    && (forall m :: m in c.messages ==> Authentic(prims, c.puts, m.bucket, m.key, m.etag))
    && (forall g :: g in c.got ==>
          exists o :: o in c.puts && o.bucket == g.bucket && o.key == g.key && o.data == g.data)
  }

  lemma MorePuts(prims: Primitives, c: Cluster, o: Object)
    requires Inv(prims, c)
    ensures Inv(prims, c.(puts := c.puts + {o}))
  {
    var puts := c.puts + {o};
    forall b, k, e | Authentic(prims, c.puts, b, k, e) ensures Authentic(prims, puts, b, k, e) {
      var p :| p in c.puts && p.bucket == b && p.key == k && prims.sha(p.data) == e;
      assert p in puts;
    }
    forall g | g in c.got ensures exists p :: p in puts && p.bucket == g.bucket && p.key == g.key && p.data == g.data {
      var p :| p in c.puts && p.bucket == g.bucket && p.key == g.key && p.data == g.data;
      assert p in puts;
    }
    assert forall t :: TaskOk(prims, c.puts, t) ==> TaskOk(prims, puts, t);
  }

  lemma {:induction false} ShardWritesTouchNoIndex(prims: Primitives, o: Object, n: nat)
    requires n <= |o.Shards(prims)|
    ensures forall i :: 0 <= i < |ShardWrites(prims, o, n)| ==> !ShardWrites(prims, o, n)[i].PutIndex?
  {
    if n == 0 {
    } else {
      ShardWritesTouchNoIndex(prims, o, n - 1);
    }
  }

  lemma NewPutOk(prims: Primitives, puts: set<Object>, node: nat, o: Object)
    requires o in puts
    ensures TaskOk(prims, puts, Writing(node, PutWrites(prims, o), Some(o.Metadata(prims))))
  {
    ShardWritesTouchNoIndex(prims, o, |o.Shards(prims)|);
    assert Authentic(prims, puts, o.bucket, o.key, prims.sha(o.data));
  }

  /** The hash check turns an authentic index entry into an authentic result. */
  lemma FinishedGetOk(prims: Primitives, puts: set<Object>, meta: ObjectMetadata, shards: seq<Bytes>)
    requires prims.Lawful() && MetaOk(prims, puts, meta) && Finish(prims, meta, shards).Ok?
    ensures exists o :: o in puts && o.bucket == meta.bucket && o.key == meta.key
                        && o.data == Finish(prims, meta, shards).value
  {
    var o :| o in puts && o.bucket == meta.bucket && o.key == meta.key && prims.sha(o.data) == meta.etag;
    assert prims.sha(Finish(prims, meta, shards).value) == prims.sha(o.data);
  }

  lemma WriteKeepsDisk(prims: Primitives, puts: set<Object>, disk: Disk, w: Write)
    requires DiskOk(prims, puts, disk) && WriteOk(prims, puts, w)
    ensures DiskOk(prims, puts, ApplyWrite(disk, w))
  {
    hide MetaOk;
  }

  lemma WritesKeepInv(prims: Primitives, c: Cluster, c': Cluster, id: nat, step: Step)
    requires Inv(prims, c) && (step.DoWrite? || step.Damage?) && Next(prims, c, c', id, step)
    ensures Inv(prims, c')
  {
    hide MetaOk, Authentic, DiskOk, ApplyWrite;
    if step.DoWrite? {
      var t := c.tasks[id];
      assert TaskOk(prims, c.puts, t) && DiskOk(prims, c.puts, c.nodes[t.node]);
      WriteKeepsDisk(prims, c.puts, c.nodes[t.node], t.pending[0]);
    } else {
      var w := if step.bytes.Some? then PutFile(step.path, step.bytes.value) else RemoveFile(step.path);
      WriteKeepsDisk(prims, c.puts, c.nodes[step.node], w);
    }
  }

  lemma GetsKeepInv(prims: Primitives, c: Cluster, c': Cluster, id: nat, step: Step)
    requires prims.Lawful() && Inv(prims, c)
    requires (step.BeginGet? || step.ReadShard? || step.EndGet?) && Next(prims, c, c', id, step)
    ensures Inv(prims, c')
  {
    hide Authentic, Finish, ReadParams, ShardPath;
    if step.EndGet? {
      var t := c.tasks[id];
      if Finish(prims, t.meta, t.shards).Ok? {
        FinishedGetOk(prims, c.puts, t.meta, t.shards);
      }
    }
  }

  lemma StepKeepsInv(prims: Primitives, c: Cluster, c': Cluster, id: nat, step: Step)
    requires prims.Lawful() && Inv(prims, c) && Next(prims, c, c', id, step)
    ensures Inv(prims, c')
  {
    hide DiskOk, PutWrites, Finish, ReadParams, ShardPath, ApplyWrite, Primitives.Lawful;
    if step.DoWrite? || step.Damage? {
      WritesKeepInv(prims, c, c', id, step);
    } else if step.BeginGet? || step.ReadShard? || step.EndGet? {
      GetsKeepInv(prims, c, c', id, step);
    } else if step.BeginPut? {
      MorePuts(prims, c, step.o);
      NewPutOk(prims, c'.puts, step.node, step.o);
    }
  }

  lemma InitialInv(prims: Primitives, c: Cluster)
    requires Initial(c)
    ensures Inv(prims, c)
  {
  }

  lemma {:induction false} RunKeepsInv(prims: Primitives, states: seq<Cluster>, ids: seq<nat>, steps: seq<Step>, i: nat)
    requires prims.Lawful() && IsRun(prims, states, ids, steps) && i < |states|
    ensures Inv(prims, states[i])
  {
    hide Inv, Next, Initial;
    if i == 0 {
      InitialInv(prims, states[0]);
    } else {
      RunKeepsInv(prims, states, ids, steps, i - 1);
      StepKeepsInv(prims, states[i - 1], states[i], ids[i - 1], steps[i - 1]);
    }
  }

  /** Every successful get, on any node, returns exactly the bytes of an earlier put to the bucket and key asked for. */
  lemma ReadSafety(prims: Primitives, states: seq<Cluster>, ids: seq<nat>, steps: seq<Step>, i: nat, g: Got)
    requires prims.Lawful() && IsRun(prims, states, ids, steps) && i < |states|
    requires g in states[i].got
    ensures exists o :: o in states[i].puts && o.bucket == g.bucket && o.key == g.key && o.data == g.data
  {
    RunKeepsInv(prims, states, ids, steps, i);
  }
}
