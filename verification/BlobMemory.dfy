/**
 * The memory that keeps each range in one slab (memory/memory.c:329-404), and the fact that the tree of
 * pages cannot be told from it.
 */
module BlobMemory {
  import opened MemorySpec
  import opened LazyMemory

  const CHUNK: nat := 1024

  /** One range of addresses and its bytes. */
  class Blob {
    const start: nat
    const end: nat
    const table: array<byte>

    ghost predicate Valid() {
      start <= end && table.Length == end - start
    }

    predicate Has(a: nat) {
      start <= a < end
    }

    ghost function At(a: nat): byte
      requires Valid() && Has(a)
      reads table
    {
      table[a - start]
    }

    ghost function Contents(): (c: Image)
      requires Valid()
      reads table
    {
      map a: nat | start <= a < end :: At(a)
    }

    /** The slab is read from the file a chunk at a time; what is less than a chunk at the end is not read. */
    constructor (file: seq<byte>, from: nat, to: nat)
      requires from <= to && |file| == to - from
      ensures Valid() && start == from && end == to && fresh(table)
      ensures var n := |file| / CHUNK * CHUNK; table[..n] == file[..n]
    {
      start, end := from, to;
      table := new byte[to - from];
      new;
      for i := 0 to |file| / CHUNK
        invariant table[..i * CHUNK] == file[..i * CHUNK]
      {
        forall k | 0 <= k < CHUNK {
          table[i * CHUNK + k] := file[i * CHUNK + k];
        }
      }
    }
  }

  /** A list of slabs for disjoint ranges. */
  class BlobMemories {
    const memories: seq<Blob>

    constructor (bs: seq<Blob>)
      ensures memories == bs
    {
      memories := bs;
    }

    ghost predicate Valid() {
      && (forall i :: 0 <= i < |memories| ==> memories[i].Valid())
      && (forall i, j :: 0 <= i < j < |memories| ==> memories[i].table != memories[j].table)
      && (forall i, j, a: nat :: 0 <= i < j < |memories| && memories[i].Has(a) ==> !memories[j].Has(a))
    }

    ghost function Tables(): set<object> {
      set m | m in memories :: m.table
    }

    ghost function Parts(k: nat): (r: seq<Image>)
      requires Valid() && k <= |memories|
      reads Tables()
      ensures |r| == k && forall i :: 0 <= i < k ==> r[i] == memories[i].Contents()
    {
      if k == 0 then [] else Parts(k - 1) + [memories[k - 1].Contents()]
    }

    ghost function Contents(): Image
      requires Valid()
      reads Tables()
    {
      Join(Parts(|memories|))
    }

    // All bytes of the access are in one slab.
    predicate Inside(address: nat, size: nat) {
      exists i :: 0 <= i < |memories| && memories[i].Has(address) && address + size <= memories[i].end
    }

    method Find(address: nat) returns (r: int)
      requires Valid()
      ensures r == -1 ==> forall k :: 0 <= k < |memories| ==> !memories[k].Has(address)
      ensures r != -1 ==> 0 <= r < |memories| && memories[r].Has(address)
    {
      r := -1;
      for i := 0 to |memories|
        invariant forall k :: 0 <= k < i ==> !memories[k].Has(address)
      {
        if memories[i].start <= address && address < memories[i].end {
          return i;
        }
      }
    }

    // In a slab every byte is answered for by that slab.
    lemma SlabOnce(i: nat, address: nat, size: nat, ps: seq<Image>)
      requires Valid() && i < |memories| && memories[i].Has(address) && address + size <= memories[i].end
      requires |ps| == |memories| && forall k, a: nat :: 0 <= k < |ps| ==> (a in ps[k] <==> memories[k].Has(a))
      ensures forall a: nat :: address <= a < address + size ==> MemorySpec.First(ps, a) == i
    {
      forall a: nat | address <= a < address + size ensures MemorySpec.First(ps, a) == i {
        var k := MemorySpec.First(ps, a);
        assert memories[i].Has(a) && a in ps[i];
        assert memories[k].Has(a);
      }
    }

    // Bytes of a slab are bytes of the whole.
    lemma SlabBytes(i: nat, address: nat, size: nat)
      requires Valid() && i < |memories| && memories[i].Has(address) && address + size <= memories[i].end
      ensures var at := address - memories[i].start;
        memories[i].table[at..at + size] == Read(Contents(), address, size)
      ensures Present(Contents(), address, size) == size
    {
      var ps, m := Parts(|memories|), memories[i];
      SlabOnce(i, address, size, ps);
      JoinReads(ps, i, address, size);
      AllPresent(m.Contents(), address, size);
      var at, r := address - m.start, Read(ps[i], address, size);
      forall k | 0 <= k < size ensures m.table[at..at + size][k] == r[k] {
        assert m.Contents()[address + k] == m.At(address + k);
      }
    }

    /** Reading inside a slab. */
    method ReadSimMemory(address: nat, size: nat) returns (r: seq<byte>)
      requires Valid() && Inside(address, size)
      ensures r == Read(Contents(), address, size) && |r| == size
    {
      var i := Find(address);
      var at := address - memories[i].start;
      r := memories[i].table[at..at + size];
      SlabBytes(i, address, size);
    }

    // The slab written to holds the value, the others are as they were.
    twostate lemma Stored(access: (nat, nat, seq<byte>))
      requires var (i, address, value) := access;
        && Valid() && i < |memories| && memories[i].Has(address) && address + |value| <= memories[i].end
        && forall a: nat :: memories[i].Has(a) ==>
          memories[i].At(a) == if address <= a < address + |value| then value[a - address] else old(memories[i].At(a))
      requires forall k :: 0 <= k < |memories| && k != access.0 ==> unchanged(memories[k].table)
      ensures Contents() == Store(old(Contents()), access.1, access.2)
      ensures Present(old(Contents()), access.1, |access.2|) == |access.2|
    {
      var (i, address, value) := access;
      var before, after := old(Parts(|memories|)), Parts(|memories|);
      SlabOnce(i, address, |value|, before);
      AllPresent(before[i], address, |value|);
      StoredOneWay(before[i], after[i], Store(before[i], address, value), address, value, |value|);
      assert after == before[i := Store(before[i], address, value)];
      JoinStore(before, i, address, value);
    }

    /** Writing inside a slab; an address in none of them is refused. */
    method WriteSimMemory(address: nat, value: seq<byte>) returns (count: nat)
      requires Valid()
      requires (exists k :: 0 <= k < |memories| && memories[k].Has(address)) ==> Inside(address, |value|)
      modifies Tables()
      ensures Contents() == Store(old(Contents()), address, value)
      ensures count == Present(old(Contents()), address, |value|)
    {
      var i := Find(address);
      if i == -1 {
        Nowhere(address, value);
        return 0;
      }
      CopyInto(memories[i].table, address - memories[i].start, value);
      count := |value|;
      Stored((i, address, value));
    }

    lemma Nowhere(address: nat, value: seq<byte>)
      requires Valid() && forall k :: 0 <= k < |memories| ==> !memories[k].Has(address)
      ensures Store(Contents(), address, value) == Contents() && Present(Contents(), address, |value|) == 0
    {
      JoinAt(Parts(|memories|), address);
      NonePresent(Contents(), address, value);
    }
  }
}
