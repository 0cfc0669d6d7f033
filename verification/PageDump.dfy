/**
 * Dumps of page tables, as they are written: for each table its address and its 512 entries. What the loader of
 * PageWalk.dfy leaves in memory is said here in terms of these.
 */
module PageDump {
  import opened Options
  import opened Arith
  import opened MemorySpec
  import opened LazyMemory
  import opened PageTable
  import opened Numbers
  import opened PageWalk

  const WORD: nat := 0x1_0000_0000_0000_0000

  /** The address of a table, of which bits 12 to 49 count, and what it holds. */
  datatype Table = Table(address: nat, entries: seq<nat>)

  ghost predicate Writable(t: Table) {
    t.address < WORD && |t.entries| == 512 && forall i :: 0 <= i < |t.entries| ==> t.entries[i] < WORD
  }

  function EntriesBytes(entries: seq<nat>): (b: seq<byte>)
    ensures |b| == 8 * |entries|
  {
    if entries == [] then [] else LittleBytes(entries[0], 8) + EntriesBytes(entries[1..])
  }

  function DumpBytes(ts: seq<Table>): seq<byte> {
    if ts == [] then []
    else LittleBytes(ts[0].address, 8) + EntriesBytes(ts[0].entries) + DumpBytes(ts[1..])
  }

  lemma {:induction false} EntriesBytesAt(entries: seq<nat>, i: nat)
    requires i < |entries|
    ensures EntriesBytes(entries)[8 * i..8 * i + 8] == LittleBytes(entries[i], 8)
  {
    hide LittleBytes;
    var b := EntriesBytes(entries);
    if i > 0 {
      EntriesBytesAt(entries[1..], i - 1);
      assert b[8..] == EntriesBytes(entries[1..]);
      assert b[8 * i..8 * i + 8] == b[8..][8 * (i - 1)..8 * (i - 1) + 8];
    }
  }

  // A written table is a whole record.
  lemma FirstTable(ts: seq<Table>, tail: seq<byte>)
    requires ts != [] && Writable(ts[0])
    ensures var file := DumpBytes(ts) + tail;
      && Whole(file) && RecordFrame(file) == TableAddress(ts[0].address)
      && RecordTable(file) == EntriesBytes(ts[0].entries) && Rest(file) == DumpBytes(ts[1..]) + tail
  {
    hide LittleBytes, Little, EntriesBytes, TableAddress, Frame;
    var file, a, b := DumpBytes(ts) + tail, LittleBytes(ts[0].address, 8), EntriesBytes(ts[0].entries);
    assert file == a + b + (DumpBytes(ts[1..]) + tail);
    Powers();
    LittleRoundTrip(ts[0].address, 8);
    assert file[..8] == a;
    assert file[8..8 + TABLE] == b;
    FrameBits(ts[0].address);
  }

  ghost predicate AllWritable(ts: seq<Table>) {
    forall k :: 0 <= k < |ts| ==> Writable(ts[k])
  }

  // No table after this one goes to the same place.
  ghost predicate IsLast(ts: seq<Table>, k: nat)
    requires k < |ts|
  {
    forall j :: k < j < |ts| ==> TableAddress(ts[j].address) != TableAddress(ts[k].address)
  }

  lemma {:induction false} NoRecordFor(ts: seq<Table>, tail: seq<byte>, frame: nat)
    requires AllWritable(ts) && |tail| < RECORD
    requires forall j :: 0 <= j < |ts| ==> TableAddress(ts[j].address) != frame
    ensures LastRecord(DumpBytes(ts) + tail, frame).None?
  {
    hide RecordFrame, RecordTable, PageWalk.Rest, TableAddress, Writable;
    if ts == [] {
      assert DumpBytes(ts) + tail == tail;
    } else {
      FirstTable(ts, tail);
      NoRecordFor(ts[1..], tail, frame);
    }
  }

  lemma {:induction false} RecordOfLast(ts: seq<Table>, tail: seq<byte>, k: nat)
    requires AllWritable(ts) && |tail| < RECORD && k < |ts| && IsLast(ts, k)
    ensures LastRecord(DumpBytes(ts) + tail, TableAddress(ts[k].address)) == Some(EntriesBytes(ts[k].entries))
  {
    hide RecordFrame, RecordTable, PageWalk.Rest, TableAddress, Writable, EntriesBytes;
    FirstTable(ts, tail);
    if k == 0 {
      NoRecordFor(ts[1..], tail, TableAddress(ts[0].address));
    } else {
      assert ts[1..][k - 1] == ts[k];
      RecordOfLast(ts[1..], tail, k - 1);
    }
  }

  lemma AddressOfEntry(address: nat, i: nat)
    requires i < 512
    ensures FrameOf(TableAddress(address) + 8 * i) == TableAddress(address)
  {
    hide TableAddress;
    FrameBits(address);
    DivideUnique(TableAddress(address) + 8 * i, TABLE, TableAddress(address) / TABLE, 8 * i);
  }

  /**
   * After loading a dump, perhaps cut off inside a table, each entry of each table is read back at its place, if no
   * later table of the dump goes there and there is room for it below the guard.
   */
  lemma LoadedEntry(c: Image, ts: seq<Table>, tail: seq<byte>, k: nat, i: nat)
    requires AllWritable(ts) && |tail| < RECORD && k < |ts| && IsLast(ts, k) && i < 512
    requires Loadable(c, TableAddress(ts[k].address))
    ensures |ts[k].entries| == 512
    ensures Looks(Below(Load(c, DumpBytes(ts) + tail)))(TableAddress(ts[k].address) + 8 * i) == Some(ts[k].entries[i])
  {
    hide TableAddress, Loadable, LastRecord, Load, Little, LittleBytes, EntryAt, Below, FrameOf, IsLast, EntriesBytes,
      DumpBytes;
    var file, frame := DumpBytes(ts) + tail, TableAddress(ts[k].address);
    RecordOfLast(ts, tail, k);
    AddressOfEntry(ts[k].address, i);
    EntriesBytesAt(ts[k].entries, i);
    Powers();
    LittleRoundTrip(ts[k].entries[i], 8);
    EntryReadsBack(c, file, frame + 8 * i);
  }

  /** Outside the tables of the dump, what is in memory stays. */
  lemma {:induction false} LoadedElsewhere(c: Image, ts: seq<Table>, tail: seq<byte>, a: nat)
    requires AllWritable(ts) && |tail| < RECORD
    requires forall k :: 0 <= k < |ts| ==> !(TableAddress(ts[k].address) <= a < TableAddress(ts[k].address) + TABLE)
    ensures var d := Load(c, DumpBytes(ts) + tail); (a in d <==> a in c) && (a in c ==> d[a] == c[a])
    decreases |ts|
  {
    hide RecordFrame, RecordTable, PageWalk.Rest, TableAddress, Writable, EntriesBytes, Present;
    var file := DumpBytes(ts) + tail;
    if ts == [] {
      assert file == tail;
    } else {
      FirstTable(ts, tail);
      var d := Store(c, RecordFrame(file), RecordTable(file));
      assert a in d.Keys <==> a in c.Keys;
      LoadedElsewhere(d, ts[1..], tail, a);
    }
  }

  /** The loader ends with 0 exactly if at most the address of a table is cut off. */
  lemma CutOff(ts: seq<Table>, tail: seq<byte>)
    requires AllWritable(ts) && |tail| < RECORD
    ensures Leftover(DumpBytes(ts) + tail) == |tail|
  {
    hide Writable, Leftover;
    LengthOfDump(ts);
    DivideUnique(|DumpBytes(ts) + tail|, RECORD, |ts|, |tail|);
    LeftoverIs(DumpBytes(ts) + tail);
  }

  lemma LeftoverIs(file: seq<byte>)
    ensures Leftover(file) == |file| % RECORD
  {
  }

  lemma {:induction false} LengthOfDump(ts: seq<Table>)
    requires AllWritable(ts)
    ensures |DumpBytes(ts)| == |ts| * RECORD
  {
    if ts != [] {
      assert Writable(ts[0]);
      LengthOfDump(ts[1..]);
    }
  }
}
