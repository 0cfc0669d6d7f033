/**
 * Reading and writing the simulated memory (memory/memory.c:69-173): accesses are cut at page borders, the
 * result is as if they were not.
 */
module MemoryAccess {
  import opened MemorySpec
  import opened LazyMemory

  /**
   * Reading: whatever is there from an address on, whether or not it crosses pages or is loaded. The tree may
   * grow; what the memory holds stays.
   */
  method ReadSimMemory(m: SimMemory, address: nat, size: nat) returns (r: seq<byte>)
    requires m.Valid()
    modifies m.Repr
    ensures m.Valid() && fresh(m.Repr - old(m.Repr))
    ensures m.contents == old(m.contents) && r == Read(Below(m.contents), address, size)
    decreases size
  {
    hide *;
    var i := m.Find(address);
    if i == -1 || address >= GUARD {
      NothingToRead(m.contents, address, size);
      return [];
    }
    if Crosses(address, size) {
      var left := LeftSize(address);
      m.RestOfPage(i, address, left);
      ghost var visible := Below(m.contents);
      var l := ReadSimMemory(m, address, left);
      var rest := ReadSimMemory(m, address + left, size - left);
      ReadSplit(visible, address, left, size - left);
      return l + rest;
    }
    r := m.ReadFromOne(i, address, size);
  }

  /**
   * Writing: the value is stored from its address on, up to the first byte that is missing; the result is
   * how much of it was.
   */
  method WriteSimMemory(m: SimMemory, address: nat, value: seq<byte>) returns (count: nat)
    requires m.Valid()
    modifies m.Repr
    ensures m.Valid() && fresh(m.Repr - old(m.Repr))
    ensures m.contents == Store(old(m.contents), address, value) && count == Present(old(m.contents), address, |value|)
    decreases |value|
  {
    hide *;
    var i := m.Find(address);
    if i == -1 {
      NonePresent(m.contents, address, value);
      return 0;
    }
    if Crosses(address, |value|) {
      var left := LeftSize(address);
      var l, r := value[..left], value[left..];
      assert value == l + r;
      m.RestOfPage(i, address, left);
      StoreSplit(m.contents, address, l, r);
      var writtenLeft := WriteSimMemory(m, address, l);
      var writtenRight := WriteSimMemory(m, address + left, r);
      return writtenLeft + writtenRight;
    }
    m.WriteToOne(i, address, value);
    count := |value|;
  }
}
