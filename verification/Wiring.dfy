/**
 * Building a hierarchy (cache/hierarchy.c, cache/state.c:49-67, cache/bus.c:22-36). Caches and buses are
 * named by their position in a table; the methods update the table and the levels in place and are
 * proved against functions on values, for which the shape of every hierarchy so built is proved.
 */
module Wiring {
  import opened Options
  import opened CacheSpec

  // ----- the growing pointer array behind a bus and behind a list of lower-level caches

  /** An array with a count of used slots, moved to one of eight more slots when it is full. */
  class GrowingArray {
    var slots: array<nat>
    var amount: nat

    ghost predicate Valid()
      reads this
    {
      amount <= slots.Length
    }

    ghost function Members(): seq<nat>
      requires Valid()
      reads this, slots
    {
      slots[..amount]
    }

    constructor (capacity: nat)
      ensures Valid() && Members() == [] && slots.Length == capacity && fresh(slots)
    {
      slots := new nat[capacity](i => 0);
      amount := 0;
    }

    /** Adds a member after all earlier ones, growing by eight slots if there is no room. */
    method Add(x: nat)
      requires Valid()
      modifies this, slots
      ensures Valid() && Members() == old(Members()) + [x]
      ensures slots.Length == old(slots.Length) + if old(amount) == old(slots.Length) then 8 else 0
      ensures slots == old(slots) || fresh(slots)
    {
      if amount == slots.Length {
        var bigger := new nat[slots.Length + 8](i => 0);
        var i := 0;
        while i < slots.Length
          invariant i <= slots.Length && slots == old(slots) && amount == slots.Length
          invariant bigger[..i] == slots[..i] && slots[..] == old(slots[..])
        {
          bigger[i] := slots[i];
          i := i + 1;
        }
        slots := bigger;
      }
      slots[amount] := x;
      amount := amount + 1;
    }
  }

  // ----- links on values

  /** What is known of a cache besides its lines; the owner is the level, by its number, that it was set up for. */
  datatype Record = Record(geometry: Geometry, coherent: bool, reports: bool, owner: nat,
                           higher: Option<nat>, lower: seq<nat>, bus: Option<nat>)

  datatype Links = Links(records: seq<Record>, buses: seq<seq<nat>>)

  datatype Level = Level(room: nat, hasInstruction: bool, data: seq<nat>, instruction: seq<nat>, bus: Option<nat>)

  function Unlinked(g: Geometry, reports: bool, owner: nat): Record {
    Record(g, true, reports, owner, None, [], None)
  }

  function AddLower(k: Links, higher: nat, lower: nat): (k': Links)
    requires higher < |k.records| && lower < |k.records|
    ensures |k'.records| == |k.records| && k'.buses == k.buses
  {
    var r := k.records[higher := k.records[higher].(lower := k.records[higher].lower + [lower])];
    Links(r[lower := r[lower].(higher := Some(higher))], k.buses)
  }

  function AddToBus(k: Links, bus: nat, cache: nat): (k': Links)
    requires bus < |k.buses| && cache < |k.records|
    ensures |k'.records| == |k.records| && |k'.buses| == |k.buses|
  {
    Links(k.records[cache := k.records[cache].(bus := Some(bus))], k.buses[bus := k.buses[bus] + [cache]])
  }

  // A data cache and, if there is one, its instruction cache.
  function AddPairToBus(k: Links, bus: nat, data: nat, instruction: Option<nat>): (k': Links)
    requires bus < |k.buses| && data < |k.records| && (instruction.Some? ==> instruction.value < |k.records|)
    ensures |k'.records| == |k.records| && |k'.buses| == |k.buses|
  {
    var k1 := AddToBus(k, bus, data);
    if instruction.Some? then AddToBus(k1, bus, instruction.value) else k1
  }

  ghost predicate LevelKnown(k: Links, l: Level) {
    && (forall i :: 0 <= i < |l.data| ==> l.data[i] < |k.records|)
    && (forall i :: 0 <= i < |l.instruction| ==> l.instruction[i] < |k.records|)
    && |l.instruction| == (if l.hasInstruction then |l.data| else 0)
    && (if |l.data| <= 1 then l.bus.None? else l.bus.Some? && l.bus.value < |k.buses|)
  }

  function RefuseCaches(l: Level, instruction: Option<nat>): int {
    if |l.data| == l.room then 1
    else if instruction.None? && l.hasInstruction then 2
    else if instruction.Some? && !l.hasInstruction then 3
    else 0
  }

  function InstructionAt(l: Level, i: nat): Option<nat>
    requires i < |l.data| && |l.instruction| == (if l.hasInstruction then |l.data| else 0)
  {
    if l.hasInstruction then Some(l.instruction[i]) else None
  }

  // The second cache of a level brings a bus, which the first one joins before it.
  function AddCaches(k: Links, l: Level, data: nat, instruction: Option<nat>): (r: (Links, Level))
    requires LevelKnown(k, l) && RefuseCaches(l, instruction) == 0
    requires data < |k.records| && (instruction.Some? ==> instruction.value < |k.records|)
    ensures LevelKnown(r.0, r.1) && |r.0.records| == |k.records|
  {
    var l' := l.(data := l.data + [data],
                 instruction := if l.hasInstruction then l.instruction + [instruction.value] else []);
    if |l.data| == 0 then (k, l')
    else if |l.data| == 1 then
      var b := |k.buses|;
      var k1 := AddPairToBus(k.(buses := k.buses + [[]]), b, l.data[0], InstructionAt(l, 0));
      (AddPairToBus(k1, b, data, instruction), l'.(bus := Some(b)))
    else (AddPairToBus(k, l.bus.value, data, instruction), l')
  }

  function RefuseLevel(cpus: nat, levels: seq<Level>, l: Level): int {
    if |levels| == MAX_CACHE_LEVELS then 1
    else if cpus < |l.data| then 1
    else if |levels| > 0 && |l.data| != 1 && |l.data| != |levels[|levels| - 1].data| then 2
    else 0
  }

  // Links the first n caches (and instruction caches) of the last level to the new one.
  function LinkLevels(k: Links, last: Level, l: Level, n: nat): (k': Links)
    requires LevelKnown(k, last) && LevelKnown(k, l) && n <= |last.data| && Fits(last, l)
    ensures |k'.records| == |k.records| && k'.buses == k.buses
  {
    if n == 0 then k
    else LinkCache(LinkLevels(k, last, l, n - 1), last, l, n - 1)
  }

  // The new level is shared by all caches of the last one or has one for each, and has instruction
  // caches only above instruction caches.
  predicate Fits(last: Level, l: Level) {
    |l.data| in {1, |last.data|} && (l.hasInstruction ==> last.hasInstruction)
  }

  function LinkCache(k: Links, last: Level, l: Level, i: nat): (k': Links)
    requires i < |last.data| && Fits(last, l) && LevelKnown(k, last) && LevelKnown(k, l)
    ensures |k'.records| == |k.records| && k'.buses == k.buses
  {
    var j := if |l.data| == 1 then 0 else i;
    var k1 := AddLower(k, l.data[j], last.data[i]);
    if l.hasInstruction then AddLower(k1, l.instruction[j], last.instruction[i])
    else if last.hasInstruction then AddLower(k1, l.data[j], last.instruction[i])
    else k1
  }

  // ----- the same in place

  class CacheTable {
    var links: Links

    constructor ()
      ensures links == Links([], [])
    {
      links := Links([], []);
    }

    /** A new coherent cache, linked to nothing, for the level of the given number. */
    method SetupCacheState(geometry: Geometry, reports: bool, owner: nat) returns (id: nat)
      modifies this
      ensures id == |old(links).records|
      ensures links == old(links).(records := old(links).records + [Unlinked(geometry, reports, owner)])
    {
      id := |links.records|;
      links := links.(records := links.records + [Unlinked(geometry, reports, owner)]);
    }

    method AddLowerLevelCache(higher: nat, lower: nat)
      requires higher < |links.records| && lower < |links.records|
      modifies this
      ensures links == AddLower(old(links), higher, lower)
      ensures links.buses == old(links.buses) && links.records[lower].higher == Some(higher)
      ensures links.records[higher].lower == old(links.records[higher].lower) + [lower]
      ensures forall c :: 0 <= c < |links.records| && c != lower ==>
        links.records[c].higher == old(links.records)[c].higher
      ensures forall c :: 0 <= c < |links.records| && c != higher ==>
        links.records[c].lower == old(links.records)[c].lower
    {
      var r := links.records;
      r := r[higher := r[higher].(lower := r[higher].lower + [lower])];
      r := r[lower := r[lower].(higher := Some(higher))];
      links := links.(records := r);
    }

    method InitBus() returns (bus: nat)
      modifies this
      ensures bus == old(|links.buses|) && links == old(links).(buses := old(links.buses) + [[]])
    {
      bus := |links.buses|;
      links := links.(buses := links.buses + [[]]);
    }

    method AddCacheToBus(bus: nat, cache: nat)
      requires bus < |links.buses| && cache < |links.records|
      modifies this
      ensures links == AddToBus(old(links), bus, cache)
      ensures links.buses == old(links.buses)[bus := old(links.buses)[bus] + [cache]]
      ensures links.records == old(links.records)[cache := old(links.records)[cache].(bus := Some(bus))]
    {
      links := links.(buses := links.buses[bus := links.buses[bus] + [cache]]);
      links := links.(records := links.records[cache := links.records[cache].(bus := Some(bus))]);
    }
  }

  class CacheLevel {
    var level: Level

    constructor (room: nat, hasInstruction: bool)
      ensures level == Level(room, hasInstruction, [], [], None)
    {
      level := Level(room, hasInstruction, [], [], None);
    }

    /** Adds a data cache and perhaps an instruction cache; refused with 1, 2 or 3. */
    method AddCachesToLevel(table: CacheTable, data: nat, instruction: Option<nat>) returns (code: int)
      requires LevelKnown(table.links, level)
      requires data < |table.links.records| && (instruction.Some? ==> instruction.value < |table.links.records|)
      modifies this, table
      ensures code == RefuseCaches(old(level), instruction)
      ensures code == 1 <==> |old(level).data| == level.room
      ensures code == 2 <==> |old(level).data| != level.room && level.hasInstruction && instruction.None?
      ensures code == 3 <==> |old(level).data| != level.room && !level.hasInstruction && instruction.Some?
      ensures code in {0, 1, 2, 3}
      ensures code == 0 ==> (table.links, level) == AddCaches(old(table.links), old(level), data, instruction)
      ensures code != 0 ==> level == old(level) && table.links == old(table.links)
      ensures code == 0 ==> level.data == old(level.data) + [data]
      ensures code == 0 && instruction.Some? ==> level.instruction == old(level.instruction) + [instruction.value]
      ensures code == 0 && instruction.None? ==> level.instruction == []
      ensures code == 0 ==> level.room == old(level.room) && level.hasInstruction == old(level.hasInstruction)
    {
      if |level.data| == level.room {
        return 1;
      }
      if instruction.None? && level.hasInstruction {
        return 2;
      } else if instruction.Some? && !level.hasInstruction {
        return 3;
      }
      var bus := level.bus;
      if |level.data| == 1 {
        var b := table.InitBus();
        bus := Some(b);
        table.AddCacheToBus(b, level.data[0]);
        if level.hasInstruction {
          table.AddCacheToBus(b, level.instruction[0]);
        }
      }
      level := level.(data := level.data + [data], bus := bus);
      if level.hasInstruction {
        level := level.(instruction := level.instruction + [instruction.value]);
      }
      if |level.data| > 1 {
        table.AddCacheToBus(bus.value, data);
        if level.hasInstruction {
          table.AddCacheToBus(bus.value, instruction.value);
        }
      }
      return 0;
    }
  }

  /** The levels that were put on, lowest first. They are the objects that caches may still be added to. */
  class CacheHierarchy {
    const cpus: nat
    var levels: seq<CacheLevel>

    constructor (cpus: nat)
      ensures this.cpus == cpus && levels == []
    {
      this.cpus, levels := cpus, [];
    }

    // What the levels hold now.
    function Values(): (r: seq<Level>)
      reads this, levels
      ensures |r| == |levels| && forall i :: 0 <= i < |r| ==> r[i] == levels[i].level
    {
      seq(|levels|, i requires 0 <= i < |levels| reads this, levels => levels[i].level)
    }

    /** Puts a level above all others; refused with 1 or 2. */
    method AddLevel(table: CacheTable, l: CacheLevel) returns (code: int)
      requires LevelKnown(table.links, l.level)
      requires |levels| > 0 ==> LevelKnown(table.links, levels[|levels| - 1].level)
      requires |levels| > 0 && l.level.hasInstruction ==> levels[|levels| - 1].level.hasInstruction
      modifies this, table
      ensures code == RefuseLevel(cpus, old(Values()), l.level)
      ensures code == 1 <==> |old(levels)| == 8 || |l.level.data| > cpus
      ensures code == 2 <==>
        code != 1 && |old(levels)| > 0 && |l.level.data| !in {1, |old(levels[|levels| - 1].level).data|}
      ensures code in {0, 1, 2}
      ensures code != 0 ==> levels == old(levels) && table.links == old(table.links)
      ensures code == 0 ==> levels == old(levels) + [l]
      ensures code == 0 && |old(levels)| == 0 ==> table.links == old(table.links)
      ensures code == 0 && |old(levels)| > 0 ==>
        var last := old(levels)[|old(levels)| - 1].level;
        table.links == LinkLevels(old(table.links), last, l.level, |last.data|)
    {
      hide AddLower;
      if |levels| == MAX_CACHE_LEVELS {
        return 1;
      }
      if cpus < |l.level.data| {
        return 1;
      }
      if |levels| > 0 {
        var last := levels[|levels| - 1].level;
        var added := l.level;
        if |added.data| != 1 && |added.data| != |last.data| {
          return 2;
        }
        var i := 0;
        while i < |last.data|
          invariant i <= |last.data|
          invariant table.links == LinkLevels(old(table.links), last, added, i)
          invariant levels == old(levels)
        {
          var j := if |added.data| == 1 then 0 else i;
          table.AddLowerLevelCache(added.data[j], last.data[i]);
          if added.hasInstruction {
            table.AddLowerLevelCache(added.instruction[j], last.instruction[i]);
          } else if last.hasInstruction {
            table.AddLowerLevelCache(added.data[j], last.instruction[i]);
          }
          i := i + 1;
        }
      }
      levels := levels + [l];
      return 0;
    }
  }
}
