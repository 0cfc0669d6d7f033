/** The two implementations of the memory interface cannot be told apart. */
module MemoryAgreement {
  import opened Arith
  import opened MemorySpec
  import opened LazyMemory
  import MemoryAccess
  import opened BlobMemory

  datatype Request =
    | ReadAt(address: nat, size: nat)
    | WriteAt(address: nat, value: seq<byte>)
  {
    function Size(): nat {
      match this
      case ReadAt(_, size) => size
      case WriteAt(_, value) => |value|
    }
  }

  datatype Answer = Bytes(bytes: seq<byte>) | Count(count: nat)

  /** What a request gets from memory with these contents, and what it leaves. */
  function Reply(c: Image, q: Request): (Answer, Image) {
    match q
    case ReadAt(address, size) => (Bytes(Read(c, address, size)), c)
    case WriteAt(address, value) => (Count(Present(c, address, |value|)), Store(c, address, value))
  }

  function Answers(c: Image, requests: seq<Request>): (r: (seq<Answer>, Image))
    ensures |r.0| == |requests|
  {
    if requests == [] then ([], c)
    else
      var (answers, d) := Answers(c, requests[..|requests| - 1]);
      var (answer, e) := Reply(d, requests[|requests| - 1]);
      (answers + [answer], e)
  }

  lemma AnswersNext(c: Image, requests: seq<Request>, k: nat)
    requires k < |requests|
    ensures var (answers, d) := Answers(c, requests[..k]);
      var (answer, e) := Reply(d, requests[k]);
      Answers(c, requests[..k + 1]) == (answers + [answer], e)
  {
    assert requests[..k + 1][..k] == requests[..k];
  }

  // ----- starting from files

  /** A range of addresses and the file behind it. */
  datatype Range = Range(from: nat, to: nat, file: seq<byte>) {
    predicate Valid() {
      from <= to <= from + LARGEST && from % PAGE == 0 && to % PAGE == 0 && |file| == to - from
    }

    function At(a: nat): byte
      requires Valid() && from <= a < to
    {
      file[a - from]
    }

    function Contents(): (c: Image)
      requires Valid()
      ensures forall a: nat :: a in c <==> from <= a < to
    {
      map a: nat | from <= a < to :: At(a)
    }

    // A range is a number of pages, so it is a number of chunks.
    lemma WholeChunks()
      requires Valid()
      ensures from <= to && |file| == to - from && |file| / CHUNK * CHUNK == |file|
    {
      var a, b := from / PAGE, to / PAGE;
      assert |file| == 4 * (b - a) * CHUNK;
      DivideUnique(|file|, CHUNK, 4 * (b - a), 0);
    }
  }

  predicate Apart(rs: seq<Range>) {
    && (forall i :: 0 <= i < |rs| ==> rs[i].Valid())
    && (forall i, j :: 0 <= i < j < |rs| ==> rs[i].to <= rs[j].from || rs[j].to <= rs[i].from)
  }

  function Files(rs: seq<Range>): (r: seq<Image>)
    requires forall i :: 0 <= i < |rs| ==> rs[i].Valid()
    ensures |r| == |rs| && forall i :: 0 <= i < |r| ==> r[i] == rs[i].Contents()
  {
    seq(|rs|, i requires 0 <= i < |rs| => rs[i].Contents())
  }

  method Plant(r: Range) returns (m: Memory)
    requires r.Valid()
    ensures m.Valid() && fresh(m.Repr) && m.contents == r.Contents()
  {
    hide Memory.Valid, Range.Contents;
    m := new Memory(r.file, r.from, r.to);
    SameBytes(m.contents, r);
  }

  lemma SameBytes(c: Image, r: Range)
    requires r.Valid() && (forall a: nat :: a in c <==> r.from <= a < r.to)
    requires forall a: nat :: r.from <= a < r.to ==> c[a] == r.file[a - r.from]
    ensures c == r.Contents()
  {
  }

  method Fill(r: Range) returns (b: Blob)
    requires r.Valid()
    ensures b.Valid() && fresh(b) && fresh(b.table)
    ensures b.start == r.from && b.end == r.to && b.Contents() == r.Contents()
  {
    hide Range.Valid, Range.Contents;
    r.WholeChunks();
    b := new Blob(r.file, r.from, r.to);
    SlabIsFile(b, r);
  }

  lemma SlabIsFile(b: Blob, r: Range)
    requires r.Valid() && b.Valid() && b.start == r.from && b.end == r.to && b.table[..] == r.file
    ensures b.Contents() == r.Contents()
  {
    assert forall a: nat :: r.from <= a < r.to ==> b.At(a) == r.At(a);
  }

  lemma OneMore(ms: seq<Memory>, m: Memory)
    requires AllValid(ms) && m.Valid() && m.Repr !! Footprint(ms)
    ensures AllValid(ms + [m]) && Footprint(ms + [m]) == Footprint(ms) + m.Repr
  {
    hide Memory.Valid;
    var all := ms + [m];
    forall i | 0 <= i < |ms| ensures ms[i].Repr <= Footprint(ms) {
    }
    forall o | o in Footprint(ms) + m.Repr ensures o in Footprint(all) {
      if o in m.Repr {
        assert all[|ms|] == m;
      } else {
        var i :| 0 <= i < |ms| && o in ms[i].Repr;
        assert all[i] == ms[i];
      }
    }
  }

  lemma NoMemories()
    ensures AllValid([]) && Footprint([]) == {}
  {
  }

  method PlantAll(rs: seq<Range>) returns (ms: seq<Memory>)
    requires Apart(rs)
    ensures AllValid(ms) && fresh(Footprint(ms)) && Parts(ms) == Files(rs)
  {
    hide Memory.Valid, Range.Valid, Range.Contents, AllValid;
    ms := [];
    NoMemories();
    for k := 0 to |rs|
      invariant |ms| == k && AllValid(ms) && fresh(Footprint(ms))
      invariant forall i :: 0 <= i < k ==> ms[i].contents == rs[i].Contents()
    {
      var m := Plant(rs[k]);
      OneMore(ms, m);
      ms := ms + [m];
    }
  }

  method FillAll(rs: seq<Range>) returns (bs: seq<Blob>)
    requires Apart(rs)
    ensures |bs| == |rs| && forall i :: 0 <= i < |rs| ==> Filled(bs[i], rs[i]) && fresh(bs[i].table)
    ensures forall i, j :: 0 <= i < j < |bs| ==> bs[i].table != bs[j].table
  {
    hide Range.Valid, Range.Contents, Blob.Contents;
    bs := [];
    for k := 0 to |rs|
      invariant |bs| == k && forall i :: 0 <= i < k ==> Filled(bs[i], rs[i]) && fresh(bs[i].table)
      invariant forall i, j :: 0 <= i < j < k ==> bs[i].table != bs[j].table
    {
      var b := Fill(rs[k]);
      bs := bs + [b];
    }
  }

  ghost predicate Filled(b: Blob, r: Range)
    requires r.Valid()
    reads b.table
  {
    b.Valid() && b.start == r.from && b.end == r.to && b.Contents() == r.Contents()
  }

  lemma SlabsAreFiles(b: BlobMemories, rs: seq<Range>)
    requires Apart(rs) && |b.memories| == |rs|
    requires forall i :: 0 <= i < |rs| ==> Filled(b.memories[i], rs[i])
    requires forall i, j :: 0 <= i < j < |rs| ==> b.memories[i].table != b.memories[j].table
    ensures b.Valid() && b.Contents() == Join(Files(rs))
  {
    hide Range.Contents, Blob.Contents, Join, Range.Valid;
    assert b.Valid();
    assert b.Parts(|rs|) == Files(rs);
  }

  method SetUpTree(rs: seq<Range>) returns (m: SimMemory)
    requires Apart(rs)
    ensures m.Valid() && fresh(m.Repr) && m.contents == Join(Files(rs))
  {
    hide Memory.Valid, Range.Valid, Range.Contents, Join, Footprint, AllValid;
    var ms := PlantAll(rs);
    m := new SimMemory(ms);
  }

  method SetUpSlabs(rs: seq<Range>) returns (b: BlobMemories)
    requires Apart(rs)
    ensures b.Valid() && fresh(b.Tables()) && b.Contents() == Join(Files(rs))
    ensures |b.memories| == |rs|
    ensures forall i :: 0 <= i < |rs| ==> b.memories[i].start == rs[i].from && b.memories[i].end == rs[i].to
  {
    hide Range.Valid, Range.Contents, Join, Blob.Contents, BlobMemories.Valid, BlobMemories.Contents;
    var bs := FillAll(rs);
    b := new BlobMemories(bs);
    SlabsAreFiles(b, rs);
  }

  /** The two memories for the same files: they hold the same bytes and share no object. */
  method SetUp(rs: seq<Range>) returns (m: SimMemory, b: BlobMemories)
    requires Apart(rs)
    ensures fresh(m.Repr) && fresh(b.Tables()) && m.Repr !! b.Tables()
    ensures m.Valid() && b.Valid() && m.contents == b.Contents() == Join(Files(rs))
    ensures |b.memories| == |rs|
    ensures forall i :: 0 <= i < |rs| ==> b.memories[i].start == rs[i].from && b.memories[i].end == rs[i].to
  {
    hide *;
    m := SetUpTree(rs);
    b := SetUpSlabs(rs);
  }

  /**
   * Any sequence of reads and writes, each inside one range and below the reader's guard, gets from the tree of
   * pages and from the slabs what the contents alone determine.
   */
  method RunBoth(m: SimMemory, b: BlobMemories, requests: seq<Request>)
    returns (fromTree: seq<Answer>, fromBlob: seq<Answer>)
    requires m.Valid() && b.Valid() && m.Repr !! b.Tables() && m.contents == b.Contents()
    requires forall q :: q in requests ==> b.Inside(q.address, q.Size()) && q.address + q.Size() <= GUARD
    modifies m.Repr, b.Tables()
    ensures fromTree == fromBlob == Answers(old(m.contents), requests).0
    ensures m.Valid() && m.contents == b.Contents() == Answers(old(m.contents), requests).1
  {
    hide *;
    ghost var before := m.contents;
    fromTree, fromBlob := [], [];
    NothingAsked(before, requests);
    for k := 0 to |requests|
      invariant m.Valid() && m.contents == b.Contents() && fresh(m.Repr - old(m.Repr)) && m.Repr !! b.Tables()
      invariant fromTree == fromBlob && (fromTree, m.contents) == Answers(before, requests[..k])
    {
      AnswersNext(before, requests, k);
      var tree, blob := Both(m, b, requests[k]);
      fromTree, fromBlob := fromTree + [tree], fromBlob + [blob];
    }
    assert requests[..|requests|] == requests;
  }

  lemma NothingAsked(c: Image, requests: seq<Request>)
    ensures Answers(c, requests[..0]) == ([], c)
  {
  }

  method Both(m: SimMemory, b: BlobMemories, q: Request) returns (tree: Answer, blob: Answer)
    requires m.Valid() && b.Valid() && m.Repr !! b.Tables() && m.contents == b.Contents()
    requires b.Inside(q.address, q.Size()) && q.address + q.Size() <= GUARD
    modifies m.Repr, b.Tables()
    ensures tree == blob == Reply(old(m.contents), q).0
    ensures m.Valid() && m.contents == b.Contents() == Reply(old(m.contents), q).1
    ensures fresh(m.Repr - old(m.Repr)) && m.Repr !! b.Tables()
  {
    hide SimMemory.Valid, BlobMemories.Valid, BlobMemories.Contents, Below, Read, Store;
    match q
    case ReadAt(address, size) =>
      BelowReads(m.contents, address, size);
      var r := MemoryAccess.ReadSimMemory(m, address, size);
      var s := b.ReadSimMemory(address, size);
      tree, blob := Bytes(r), Bytes(s);
    case WriteAt(address, value) =>
      var n := MemoryAccess.WriteSimMemory(m, address, value);
      var k := b.WriteSimMemory(address, value);
      tree, blob := Count(n), Count(k);
  }

  /** Started on the same files, both give the answers that the files determine. */
  method RunFromFiles(rs: seq<Range>, requests: seq<Request>) returns (fromTree: seq<Answer>, fromBlob: seq<Answer>)
    requires Apart(rs)
    requires forall q :: q in requests ==> InOneRange(rs, q) && q.address + q.Size() <= GUARD
    ensures fromTree == fromBlob == Answers(Join(Files(rs)), requests).0
  {
    hide SimMemory.Valid, BlobMemories.Valid, BlobMemories.Contents, Range.Valid, Range.Contents, Join, Files, Answers;
    var m, b := SetUp(rs);
    forall q | q in requests ensures b.Inside(q.address, q.Size()) {
      var i :| 0 <= i < |rs| && rs[i].from <= q.address < rs[i].to && q.address + q.Size() <= rs[i].to;
      assert b.memories[i].Has(q.address);
    }
    fromTree, fromBlob := RunBoth(m, b, requests);
  }

  predicate InOneRange(rs: seq<Range>, q: Request) {
    exists i :: 0 <= i < |rs| && rs[i].from <= q.address < rs[i].to && q.address + q.Size() <= rs[i].to
  }
}
