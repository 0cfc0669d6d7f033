/** Running a trace of memory accesses through a hierarchy (cache/hierarchy.c), on values. */
module Hierarchy {
  import opened Msi
  import opened CacheSpec
  import opened Coherence

  // Event types of a trace; anything outside NONE..FETCH is refused.
  const KIND_NONE: int := 0
  const KIND_READ: int := 1
  const KIND_WRITE: int := 2
  const KIND_FETCH: int := 3

  datatype MemoryAccess = MemoryAccess(cpu: nat, address: nat, tick: nat, kind: int)

  /**
   * The first level as seen by the processors: one data cache for all of them or one each, and
   * likewise instruction caches if the level has them. No data cache at all means no level at all.
   */
  datatype Hierarchy = Hierarchy(topology: Topology, cpus: nat, data: seq<nat>, instruction: seq<nat>)

  ghost predicate ValidHierarchy(h: Hierarchy) {
    && Valid(h.topology)
    && Known(h.topology, h.data) && Known(h.topology, h.instruction)
    && (|h.data| in {0, 1} || |h.data| >= h.cpus)
    && |h.instruction| in {0, |h.data|}
  }

  predicate Refused(h: Hierarchy, m: MemoryAccess) {
    m.cpu >= h.cpus || m.kind < KIND_NONE || m.kind > KIND_FETCH
  }

  // The cache an access enters at.
  function Entry(h: Hierarchy, m: MemoryAccess): (c: nat)
    requires ValidHierarchy(h) && !Refused(h, m) && |h.data| != 0
    ensures c < |h.topology.nodes|
  {
    var i := if |h.data| == 1 then 0 else m.cpu;
    if |h.instruction| != 0 && m.kind == KIND_FETCH then h.instruction[i] else h.data[i]
  }

  function Request(m: MemoryAccess): Access {
    Access(m.address, m.tick, m.kind == KIND_WRITE)
  }

  function Step(h: Hierarchy, s: System, m: MemoryAccess): (r: Outcome)
    requires ValidHierarchy(h) && Shaped(h.topology, s)
    ensures Shaped(h.topology, r.system)
  {
    if Refused(h, m) || |h.data| == 0 then Outcome(s, [])
    else AccessCache(h.topology, s, Entry(h, m), Request(m))
  }

  function Run(h: Hierarchy, s: System, trace: seq<MemoryAccess>): (r: Outcome)
    requires ValidHierarchy(h) && Shaped(h.topology, s)
    ensures Shaped(h.topology, r.system)
  {
    if trace == [] then Outcome(s, [])
    else
      var before := Run(h, s, trace[..|trace| - 1]);
      var last := Step(h, before.system, trace[|trace| - 1]);
      Outcome(last.system, before.reports + last.reports)
  }

  // Freshly set up caches: every line unused and invalid.
  const UNUSED: CacheLine := CacheLine(EMPTY_TAG, Invalid, 0)

  function Fresh(t: Topology): (s: System) {
    seq(|t.nodes|, c requires 0 <= c < |t.nodes| => seq(t.nodes[c].geometry.size, i => UNUSED))
  }

  lemma FreshIsGood(t: Topology)
    requires Valid(t)
    ensures Shaped(t, Fresh(t)) && Good(t, Fresh(t))
  {
    var s := Fresh(t);
    forall c: nat, line: nat | c < |t.nodes| ensures Held(t, s, c, line) == Invalid {
    }
  }

  ghost predicate AddressableTrace(trace: seq<MemoryAccess>) {
    forall i :: 0 <= i < |trace| ==> trace[i].address < ADDRESS_LIMIT
  }

  lemma {:induction false} RunKeeps(h: Hierarchy, s: System, trace: seq<MemoryAccess>)
    requires ValidHierarchy(h) && Shaped(h.topology, s) && Good(h.topology, s) && AddressableTrace(trace)
    ensures Good(h.topology, Run(h, s, trace).system)
  {
    if trace != [] {
      var m := trace[|trace| - 1];
      RunKeeps(h, s, trace[..|trace| - 1]);
      if !Refused(h, m) && |h.data| != 0 {
        AccessKeeps(h.topology, Run(h, s, trace[..|trace| - 1]).system, Entry(h, m), Request(m));
      }
    }
  }

  /**
   * Single writer: whatever the processors do to a fresh hierarchy, and whichever replacement variant
   * runs, a line held modified by one cache of a bus is held by no other cache of that bus.
   */
  lemma SingleWriterAlways(h: Hierarchy, trace: seq<MemoryAccess>)
    requires ValidHierarchy(h) && AddressableTrace(trace)
    ensures Shaped(h.topology, Fresh(h.topology))
    ensures SingleWriter(h.topology, Run(h, Fresh(h.topology), trace).system)
  {
    FreshIsGood(h.topology);
    RunKeeps(h, Fresh(h.topology), trace);
  }

  /** No set of any cache ever holds a real tag twice. */
  lemma NoDuplicateTagsEver(h: Hierarchy, trace: seq<MemoryAccess>)
    requires ValidHierarchy(h) && AddressableTrace(trace)
    ensures Shaped(h.topology, Fresh(h.topology))
    ensures AllTidy(h.topology, Run(h, Fresh(h.topology), trace).system)
  {
    FreshIsGood(h.topology);
    RunKeeps(h, Fresh(h.topology), trace);
  }

  // One more access.
  lemma RunLast(h: Hierarchy, s: System, trace: seq<MemoryAccess>, m: MemoryAccess)
    requires ValidHierarchy(h) && Shaped(h.topology, s)
    ensures Run(h, s, trace + [m]) == Then(Run(h, s, trace), Step(h, Run(h, s, trace).system, m))
  {
    assert (trace + [m])[..|trace + [m]| - 1] == trace;
  }

  /** An access of a processor that there is not, or of a kind that is none of the four, changes and reports nothing. */
  lemma UnknownIsRefused(h: Hierarchy, s: System, trace: seq<MemoryAccess>, m: MemoryAccess)
    requires ValidHierarchy(h) && Shaped(h.topology, s) && (m.cpu >= h.cpus || m.kind !in {0, 1, 2, 3})
    ensures Run(h, s, trace + [m]) == Run(h, s, trace)
  {
    RunLast(h, s, trace, m);
  }

  /**
   * After any run, the line of the last access is where its processor will look for it: in its data cache or the
   * one for all, a fetched line in the instruction cache if there are any. Under the protocol a line that was written,
   * or had been modified there before, is modified there, and any other is shared.
   */
  lemma LastAccessIsServed(h: Hierarchy, trace: seq<MemoryAccess>, m: MemoryAccess)
    requires ValidHierarchy(h) && AddressableTrace(trace) && m.address < ADDRESS_LIMIT
    requires |h.data| > 0 && m.cpu < h.cpus && KIND_NONE <= m.kind <= KIND_FETCH
    ensures Shaped(h.topology, Fresh(h.topology))
    ensures var s0, s := Run(h, Fresh(h.topology), trace).system, Run(h, Fresh(h.topology), trace + [m]).system;
      var t, i, line := h.topology, if |h.data| == 1 then 0 else m.cpu, m.address / h.topology.lineSize;
      var c := if m.kind == KIND_FETCH && h.instruction != [] then h.instruction[i] else h.data[i];
      Held(t, s, c, line) ==
        if !t.nodes[c].coherent || m.kind == KIND_WRITE || Held(t, s0, c, line) == Modified then Modified else Shared
  {
    FreshIsGood(h.topology);
    RunKeeps(h, Fresh(h.topology), trace);
    RunLast(h, Fresh(h.topology), trace, m);
    AccessKeeps(h.topology, Run(h, Fresh(h.topology), trace).system, Entry(h, m), Request(m));
  }

  function Then(r1: Outcome, r2: Outcome): Outcome {
    Outcome(r2.system, r1.reports + r2.reports)
  }

  lemma RunNothing(h: Hierarchy, s: System)
    requires ValidHierarchy(h) && Shaped(h.topology, s)
    ensures Run(h, s, []) == Outcome(s, [])
  {
  }

  /** A run over two traces is the second run after the first. */
  lemma {:induction false} RunAppend(h: Hierarchy, s: System, t1: seq<MemoryAccess>, t2: seq<MemoryAccess>)
    requires ValidHierarchy(h) && Shaped(h.topology, s)
    ensures Run(h, s, t1 + t2) == Then(Run(h, s, t1), Run(h, Run(h, s, t1).system, t2))
    decreases |t2|
  {
    hide Step, Run;
    if t2 == [] {
      assert t1 + t2 == t1;
      RunNothing(h, Run(h, s, t1).system);
    } else {
      var init, m := t2[..|t2| - 1], t2[|t2| - 1];
      var r1 := Run(h, s, t1);
      var ri := Run(h, r1.system, init);
      RunAppend(h, s, t1, init);
      RunLast(h, s, t1 + init, m);
      RunLast(h, r1.system, init, m);
      assert t1 + t2 == (t1 + init) + [m] && t2 == init + [m];
      assert (r1.reports + ri.reports) + Step(h, ri.system, m).reports ==
        r1.reports + (ri.reports + Step(h, ri.system, m).reports);
    }
  }
}
