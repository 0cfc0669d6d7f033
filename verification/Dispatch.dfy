/**
 * The coordinator's side (simulator/distributed/coordinator.c): accesses are routed to workers by line
 * number and sent in batches from two alternating buffers, while the send of the other may still run.
 */
module Dispatch {
  import opened Options
  import opened Arith
  import opened CacheSpec
  import opened Hierarchy
  import opened Sharding
  import opened Worker
  import opened Sequences

  /**
   * The buffers for one worker. A started send may read its buffer at any moment until it has been
   * waited for, so what the worker gets is right exactly because nobody writes that buffer meanwhile.
   */
  class WorkerBuffer {
    const size: nat
    const buffer0: array<MemoryAccess>
    const buffer1: array<MemoryAccess>
    var writeIndex: nat
    var current: nat
    var openRequest: Option<nat>         // the buffer that the latest send not yet waited for reads
    ghost var sent: seq<seq<MemoryAccess>>   // batches handed to MPI, in order

    ghost predicate Valid()
      reads Own()
    {
      && buffer0 != buffer1 && buffer0.Length == buffer1.Length == size
      && current < 2 && writeIndex < size
      && (forall i :: 0 <= i < |sent| ==> |sent[i]| == size)
      && (openRequest.Some? ==>
        openRequest.value == 1 - current && sent != [] && Buffer(openRequest.value)[..] == sent[|sent| - 1])
    }

    ghost function Own(): set<object> {
      {this, buffer0, buffer1}
    }

    function Buffer(i: nat): array<MemoryAccess> {
      if i == 0 then buffer0 else buffer1
    }

    // What waits in the current buffer.
    ghost function Waiting(): seq<MemoryAccess>
      requires Valid()
      reads Own()
    {
      Buffer(current)[..writeIndex]
    }

    // Everything routed to this worker so far: what was sent, then what waits in the current buffer.
    ghost function Routed(): seq<MemoryAccess>
      requires Valid()
      reads Own()
    {
      Flatten(sent) + Buffer(current)[..writeIndex]
    }

    constructor (size: nat, filler: MemoryAccess)
      requires size > 0
      ensures Valid() && Routed() == [] && this.size == size && sent == []
      ensures fresh(Own())
    {
      this.size := size;
      buffer0, buffer1 := new MemoryAccess[size](i => filler), new MemoryAccess[size](i => filler);
      writeIndex, current, openRequest, sent := 0, 0, None, [];
    }

    // The send of a full buffer: waits for the send of the other buffer, then starts and swaps.
    method Send(worldSize: nat)
      requires 11 <= worldSize <= 16
      requires buffer0 != buffer1 && buffer0.Length == buffer1.Length == size > 0
      requires current < 2 && writeIndex == size && forall i :: 0 <= i < |sent| ==> |sent[i]| == size
      modifies this`openRequest, this`current, this`writeIndex, this`sent
      ensures Valid() && writeIndex == 0
      ensures sent == old(sent) + [old(Buffer(current)[..])]
    {
      if openRequest.Some? {
        openRequest := None;
      }
      var i: int := 0;
      while i < worldSize - 8
        invariant i == 0 || i == 8
        invariant i == 0 ==> writeIndex == size && current == old(current) && sent == old(sent) && openRequest.None?
        invariant i == 8 ==> Valid() && writeIndex == 0 && sent == old(sent) + [old(Buffer(current)[..])]
        decreases 8 - i
      {
        sent := sent + [Buffer(current)[..]];
        openRequest := Some(current);
        current := if current == 0 then 1 else 0;
        writeIndex := 0;
        i := i + 8;
      }
    }

    /** Takes one access. The buffer of a send that still runs is not touched. */
    method Put(a: MemoryAccess, worldSize: nat)
      requires Valid() && 11 <= worldSize <= 16
      modifies this`writeIndex, this`current, this`openRequest, this`sent, Buffer(current)
      ensures Valid() && Routed() == old(Routed()) + [a]
      ensures old(sent) <= sent && |sent| <= old(|sent|) + 1
      ensures old(openRequest).Some? ==> Buffer(old(openRequest).value)[..] == old(Buffer(openRequest.value)[..])
    {
      hide Flatten;
      ghost var open, before := openRequest, Buffer(current)[..writeIndex];
      Buffer(current)[writeIndex] := a;
      writeIndex := writeIndex + 1;
      assert Buffer(current)[..writeIndex] == before + [a];
      if writeIndex == size {
        FlattenSnoc(sent, Buffer(current)[..]);
        assert Buffer(current)[..writeIndex] == Buffer(current)[..];
        Send(worldSize);
        assert Flatten(sent) + [] == Flatten(sent);
        assert Flatten(old(sent)) + (before + [a]) == (Flatten(old(sent)) + before) + [a];
      } else {
        assert Flatten(sent) + (before + [a]) == (Flatten(sent) + before) + [a];
      }
    }
  }

  /** One buffer pair for each worker, and what has been processed so far. */
  class Coordinator {
    const workers: seq<WorkerBuffer>
    const worldSize: nat
    ghost var processed: seq<MemoryAccess>

    ghost function Objects(): set<object> {
      set k, o | 0 <= k < |workers| && o in workers[k].Own() :: o
    }

    ghost predicate Valid()
      reads this, Objects()
    {
      && |workers| == WORKERS && 11 <= worldSize <= 16 && Apart(workers)
      && forall k :: 0 <= k < WORKERS ==>
           && workers[k].Valid() && workers[k].size == 1024
           && workers[k].Routed() == Shard(CACHE_LINE_SIZE, processed, WORKERS, k)
    }

    constructor (worldSize: nat, filler: MemoryAccess)
      requires 11 <= worldSize <= 16
      ensures Valid() && processed == [] && fresh(Objects())
    {
      var built: seq<WorkerBuffer> := [];
      for k := 0 to WORKERS
        invariant |built| == k && Apart(built)
        invariant forall j :: 0 <= j < k ==> fresh(built[j].Own()) && built[j].Valid() && built[j].Routed() == []
        invariant forall j :: 0 <= j < k ==> built[j].size == 1024
      {
        var w := new WorkerBuffer(1024, filler);
        built := built + [w];
      }
      workers, this.worldSize, processed := built, worldSize, [];
    }

    /**
     * Routes one access to the worker of its line. Every worker's batches and pending buffer together
     * stay the accesses of its lines, in order; every access goes to exactly one worker.
     */
    method ProcessCacheAccess(a: MemoryAccess)
      requires Valid()
      modifies this`processed, Objects()
      ensures Valid() && processed == old(processed) + [a]
      ensures forall k :: 0 <= k < WORKERS ==> old(workers[k].sent) <= workers[k].sent
    {
      hide Shard, Flatten, WorkerBuffer.Valid, WorkerBuffer.Routed, WorkerBuffer.Waiting;
      var index := (a.address / CACHE_LINE_SIZE) % WORKERS;
      var w := workers[index];
      assert w in w.Own() && w.Buffer(w.current) in w.Own();
      w.Put(a, worldSize);
      processed := processed + [a];
      forall k | 0 <= k < WORKERS
        ensures workers[k].Valid() && workers[k].Routed() == Shard(CACHE_LINE_SIZE, processed, WORKERS, k)
        ensures old(workers[k].sent) <= workers[k].sent
      {
        ShardSnoc(old(processed), a, k);
        if k != index {
          assert workers[k].Own() !! w.Own();
        }
      }
    }

    /** Issues the instruction fetches of a translated block, in rising line order. */
    method FetchBlock(cpu: nat, pc: nat, size: nat, tick: nat)
      requires Valid()
      modifies this`processed, Objects()
      ensures Valid() && processed == old(processed) + Fetches(cpu, pc, tick, FetchCount(size))
    {
      var i := 0;
      while size - i * CACHE_LINE_SIZE > -(CACHE_LINE_SIZE as int)
        invariant Valid() && i <= FetchCount(size)
        invariant processed == old(processed) + Fetches(cpu, pc, tick, i)
        decreases FetchCount(size) - i
      {
        ProcessCacheAccess(MemoryAccess(cpu, pc + i * CACHE_LINE_SIZE, tick, KIND_FETCH));
        assert Fetches(cpu, pc, tick, i + 1) ==
          Fetches(cpu, pc, tick, i) + [MemoryAccess(cpu, pc + i * CACHE_LINE_SIZE, tick, KIND_FETCH)];
        i := i + 1;
      }
    }
  }

  // ----- instruction fetches of a block

  // How many accesses a block of a size above 0 gives: i goes on while size - 64 i > -64.
  function FetchCount(size: nat): nat {
    (size + 127) / CACHE_LINE_SIZE
  }

  function Fetches(cpu: nat, pc: nat, tick: nat, n: nat): (r: seq<MemoryAccess>)
    ensures |r| == n && forall i :: 0 <= i < n ==> r[i] == MemoryAccess(cpu, pc + i * CACHE_LINE_SIZE, tick, KIND_FETCH)
  {
    seq(n, (i: nat) => MemoryAccess(cpu, pc + i * CACHE_LINE_SIZE, tick, KIND_FETCH))
  }

  lemma LineOfFetch(pc: nat, i: nat)
    ensures (pc + i * CACHE_LINE_SIZE) / CACHE_LINE_SIZE == pc / CACHE_LINE_SIZE + i
  {
    DivideUnique(pc + i * CACHE_LINE_SIZE, CACHE_LINE_SIZE, pc / CACHE_LINE_SIZE + i, pc % CACHE_LINE_SIZE);
  }

  // Line number x has a byte in common with the block.
  predicate Meets(x: nat, pc: nat, size: nat) {
    x * CACHE_LINE_SIZE < pc + size && pc < x * CACHE_LINE_SIZE + CACHE_LINE_SIZE
  }

  /** The fetches of a block go through the lines that it meets, each once, and at most one line beyond. */
  lemma FetchesCoverBlock(cpu: nat, pc: nat, size: nat, tick: nat)
    requires size > 0
    ensures var f := Fetches(cpu, pc, tick, FetchCount(size));
      && (forall x: nat :: Meets(x, pc, size) ==> exists i :: 0 <= i < |f| && f[i].address / CACHE_LINE_SIZE == x)
      && (forall i :: 0 <= i < |f| - 1 ==> Meets(f[i].address / CACHE_LINE_SIZE, pc, size))
      && (forall i, j :: 0 <= i < j < |f| ==> f[i].address / CACHE_LINE_SIZE != f[j].address / CACHE_LINE_SIZE)
  {
    var f := Fetches(cpu, pc, tick, FetchCount(size));
    forall i | 0 <= i < |f| ensures f[i].address / CACHE_LINE_SIZE == pc / CACHE_LINE_SIZE + i {
      LineOfFetch(pc, i);
    }
    forall x: nat | Meets(x, pc, size) ensures exists i :: 0 <= i < |f| && f[i].address / CACHE_LINE_SIZE == x {
      var i := x - pc / CACHE_LINE_SIZE;
      assert 0 <= i < |f|;
      assert f[i].address / CACHE_LINE_SIZE == x;
    }
  }

  // No two workers share a record or a buffer.
  ghost predicate Apart(workers: seq<WorkerBuffer>) {
    forall j, k :: 0 <= j < k < |workers| ==> workers[j].Own() !! workers[k].Own()
  }

  lemma ShardSnoc(trace: seq<MemoryAccess>, a: MemoryAccess, k: nat)
    ensures Shard(CACHE_LINE_SIZE, trace + [a], WORKERS, k) ==
      Shard(CACHE_LINE_SIZE, trace, WORKERS, k) + if (a.address / CACHE_LINE_SIZE) % WORKERS == k then [a] else []
  {
    assert (trace + [a])[..|trace + [a]| - 1] == trace;
  }

  // ----- the whole system

  // A worker goes through its batches one after the other.
  function RunBatches(h: Hierarchy, s: System, batches: seq<seq<MemoryAccess>>): (r: Outcome)
    requires ValidHierarchy(h) && Shaped(h.topology, s)
    ensures Shaped(h.topology, r.system)
  {
    if batches == [] then Outcome(s, [])
    else
      var before := RunBatches(h, s, batches[..|batches| - 1]);
      Then(before, Run(h, before.system, batches[|batches| - 1]))
  }

  lemma {:induction false} BatchesAreOneRun(h: Hierarchy, s: System, batches: seq<seq<MemoryAccess>>)
    requires ValidHierarchy(h) && Shaped(h.topology, s)
    ensures RunBatches(h, s, batches) == Run(h, s, Flatten(batches))
  {
    if batches != [] {
      var init, last := batches[..|batches| - 1], batches[|batches| - 1];
      BatchesAreOneRun(h, s, init);
      RunAppend(h, s, Flatten(init), last);
    }
  }

  /**
   * Distributed simulation equals sequential simulation. Worker k has worked through the batches sent to
   * it; once the accesses pending for it have followed, each of its caches holds, in every set of class k,
   * exactly what one hierarchy fed the whole trace holds there, and it has reported the same misses about
   * its lines in the same order.
   */
  lemma WorkersComputeTheWhole(h: Hierarchy, trace: seq<MemoryAccess>, k: nat, sent: seq<seq<MemoryAccess>>,
                               pending: seq<MemoryAccess>)
    requires ValidHierarchy(h) && Shardable(h.topology, WORKERS) && h.topology.lineSize == CACHE_LINE_SIZE
    requires Flatten(sent) + pending == Shard(CACHE_LINE_SIZE, trace, WORKERS, k)
    ensures Shaped(h.topology, Fresh(h.topology))
    ensures var s := Fresh(h.topology);
      var whole, worker := Run(h, s, trace), RunBatches(h, s, sent);
      var final := Then(worker, Run(h, worker.system, pending));
      AgreeOn(h.topology, WORKERS, k, whole.system, final.system)
      && final.reports == ReportsAbout(CACHE_LINE_SIZE, whole.reports, WORKERS, k)
  {
    var s := Fresh(h.topology);
    FreshIsGood(h.topology);
    BatchesAreOneRun(h, s, sent);
    RunAppend(h, s, Flatten(sent), pending);
    ShardEqualsShareOfWhole(h, s, trace, WORKERS, k);
  }

  /** Put together: every line of every cache of the whole simulation is the one the worker of its set computed. */
  lemma WholeFromShares(h: Hierarchy, trace: seq<MemoryAccess>, c: nat, i: nat)
    requires ValidHierarchy(h) && Shardable(h.topology, WORKERS) && h.topology.lineSize == CACHE_LINE_SIZE
    requires c < |h.topology.nodes| && i < h.topology.nodes[c].geometry.size
    ensures Shaped(h.topology, Fresh(h.topology))
    ensures var s, k := Fresh(h.topology), (i / h.topology.nodes[c].geometry.associativity) % WORKERS;
      Run(h, s, trace).system[c][i] == Run(h, s, Shard(CACHE_LINE_SIZE, trace, WORKERS, k)).system[c][i]
  {
    FreshIsGood(h.topology);
    ShardEqualsShareOfWhole(h, Fresh(h.topology), trace, WORKERS,
      (i / h.topology.nodes[c].geometry.associativity) % WORKERS);
  }
}
