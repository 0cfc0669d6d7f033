/**
 * The stream through two shared buffers (filereader/sharedmemreader.c:58-127): a producer fills them in turn, a
 * reader empties them in turn, and four semaphores keep the two apart. Every interleaving of their steps is a
 * run; a copy moves one byte at a step.
 */
module SharedMem {
  import opened Options
  import opened MemorySpec
  import opened Sequences

  // The producer waits for its buffer, or has put some bytes into it.
  datatype Producer = Waits | Fills(filled: nat)

  // The reader has not begun, has bytes to copy from its buffer and from the next one, or waits for that one.
  datatype Reader = Begins | Copies(now: nat, later: nat) | WaitsFor(later: nat)

  /**
   * Buffers and semaphores are numbered 0 and 1; turn is the producer's buffer, cur the reader's and at its
   * place in it. What has happened is kept as well: the chunks completed, how many of them the reader has
   * taken, the bytes it got and how many it asked for.
   */
  datatype State = State(
    size: nat,
    bufs: seq<seq<byte>>,
    writeSem: seq<nat>,
    readSem: seq<nat>,
    producer: Producer,
    turn: nat,
    reader: Reader,
    cur: nat,
    at: nat,
    chunks: seq<seq<byte>>,
    taken: nat,
    got: seq<byte>,
    asked: nat
  )

  datatype Action =
    | WaitWrite | Fill(b: byte) | PostRead
    | TakeFirst | Ask(n: nat) | Copy | PostWrite | WaitRead

  function Initial(bufs: seq<seq<byte>>, size: nat): State {
    State(size, bufs, [1, 1], [0, 0], Waits, 0, Begins, 0, 0, [], 0, [], 0)
  }

  predicate Shaped(s: State) {
    && s.size > 0 && |s.bufs| == |s.writeSem| == |s.readSem| == 2
    && |s.bufs[0]| == |s.bufs[1]| == s.size && s.turn < 2 && s.cur < 2
    && (s.producer.Fills? ==> s.producer.filled <= s.size)
    && (s.reader.Copies? ==> s.at + s.reader.now <= s.size)
    && (!s.reader.Begins? ==> s.reader.later <= s.size)
  }

  predicate Enabled(s: State, a: Action)
    requires Shaped(s)
  {
    match a
    case WaitWrite => s.producer.Waits? && s.writeSem[s.turn] > 0
    case Fill(_) => s.producer.Fills? && s.producer.filled < s.size
    case PostRead => s.producer.Fills? && s.producer.filled == s.size
    case TakeFirst => s.reader.Begins? && s.readSem[0] > 0
    case Ask(n) => s.reader == Copies(0, 0) && n <= s.size
    case Copy => s.reader.Copies? && s.reader.now > 0
    case PostWrite => s.reader.Copies? && s.reader.now == 0 && s.reader.later > 0
    case WaitRead => s.reader.WaitsFor? && s.readSem[1 - s.cur] > 0
  }

  function Put(buf: seq<byte>, k: nat, b: byte): seq<byte>
    requires k < |buf|
  {
    buf[..k] + [b] + buf[k + 1..]
  }

  function Step(s: State, a: Action): (t: State)
    requires Shaped(s) && Enabled(s, a)
    ensures Shaped(t)
  {
    match a
    case WaitWrite =>
      s.(writeSem := s.writeSem[s.turn := s.writeSem[s.turn] - 1], producer := Fills(0))
    case Fill(b) =>
      var k := s.producer.filled;
      s.(bufs := s.bufs[s.turn := Put(s.bufs[s.turn], k, b)], producer := Fills(k + 1))
    case PostRead =>
      s.(readSem := s.readSem[s.turn := s.readSem[s.turn] + 1], producer := Waits, turn := 1 - s.turn,
         chunks := s.chunks + [s.bufs[s.turn]])
    case TakeFirst =>
      s.(readSem := s.readSem[0 := s.readSem[0] - 1], reader := Copies(0, 0), cur := 0, at := 0, taken := 1)
    case Ask(n) =>
      var here := if s.at + n <= s.size then n else s.size - s.at;
      s.(reader := Copies(here, n - here), asked := s.asked + n)
    case Copy =>
      s.(got := s.got + [s.bufs[s.cur][s.at]], at := s.at + 1, reader := Copies(s.reader.now - 1, s.reader.later))
    case PostWrite =>
      s.(writeSem := s.writeSem[s.cur := s.writeSem[s.cur] + 1], reader := WaitsFor(s.reader.later))
    case WaitRead =>
      s.(readSem := s.readSem[1 - s.cur := s.readSem[1 - s.cur] - 1], reader := Copies(s.reader.later, 0),
         cur := 1 - s.cur, at := 0, taken := s.taken + 1)
  }

  // Of the first n chunks, how many go through buffer b.
  function Share(n: nat, b: nat): nat
    requires b < 2
  {
    (n + 1 - b) / 2
  }

  lemma ShareNext(n: nat, b: nat)
    requires b < 2
    ensures Share(n + 1, b) == Share(n, b) + if n % 2 == b then 1 else 0
    ensures Share(n + 2, b) == Share(n, b) + 1
  {
  }

  // What one kind of semaphore stands at: chunks let in minus chunks gone through, for each buffer.
  ghost predicate Stands(sem: seq<nat>, up: nat, down: nat) {
    |sem| == 2 && down <= up && forall b :: 0 <= b < 2 ==> sem[b] == Share(up, b) - Share(down, b)
  }

  lemma Posted(sem: seq<nat>, up: nat, down: nat)
    requires Stands(sem, up, down)
    ensures Stands(sem[up % 2 := sem[up % 2] + 1], up + 1, down)
  {
    hide Share;
    ShareNext(up, 0);
    ShareNext(up, 1);
  }

  // A wait for the next chunk goes on only if that chunk has been let in.
  lemma Waited(sem: seq<nat>, up: nat, down: nat)
    requires Stands(sem, up, down) && sem[down % 2] > 0
    ensures Stands(sem[down % 2 := sem[down % 2] - 1], up, down + 1)
  {
    hide Share;
    ShareNext(down, 0);
    ShareNext(down, 1);
    assert down != up;
  }

  // With at most two chunks under way, a wait is held up only if there is nothing to wait for.
  lemma HeldUp(sem: seq<nat>, up: nat, down: nat)
    requires Stands(sem, up, down) && sem[down % 2] == 0
    ensures up == down
  {
    ShareNext(down, down % 2);
    ShareMonotone(down + 1, if up > down then up else down + 1, down % 2);
  }

  lemma ShareMonotone(m: nat, n: nat, b: nat)
    requires m <= n && b < 2
    ensures Share(m, b) <= Share(n, b)
  {
  }

  function Inside(s: State): nat { if s.reader.Copies? then 1 else 0 }

  function Filling(s: State): nat { if s.producer.Fills? then 1 else 0 }

  // Chunks given back by the reader, chunks begun by the producer.
  function Released(s: State): int { s.taken - Inside(s) }

  function Begun(s: State): nat { |s.chunks| + Filling(s) }

  // Whose turn it is, and what the semaphores stand at.
  ghost predicate Counted(s: State) {
    && Shaped(s)
    && s.turn == |s.chunks| % 2
    && Released(s) >= 0
    && (if s.reader.Begins? then s.taken == 0 else s.taken > 0 && s.cur == (s.taken - 1) % 2)
    && Stands(s.writeSem, Released(s) + 2, Begun(s))
    && Stands(s.readSem, |s.chunks|, s.taken)
  }

  lemma CountedKept(s: State, a: Action)
    requires Counted(s) && Enabled(s, a)
    ensures Counted(Step(s, a))
  {
    hide Stands;
    match a
    case WaitWrite => Waited(s.writeSem, Released(s) + 2, Begun(s));
    case PostRead => Posted(s.readSem, |s.chunks|, s.taken);
    case TakeFirst => Waited(s.readSem, |s.chunks|, s.taken);
    case PostWrite => Posted(s.writeSem, Released(s) + 2, Begun(s));
    case WaitRead => Waited(s.readSem, |s.chunks|, s.taken);
    case _ =>
  }

  // Chunks not yet given back are in their buffers.
  ghost predicate Stored(s: State)
    requires Counted(s)
  {
    forall k :: Released(s) <= k < |s.chunks| ==> s.bufs[k % 2] == s.chunks[k]
  }

  // What was read is what was produced, as far as it was asked for.
  ghost predicate Faithful(s: State)
    requires Counted(s)
  {
    match s.reader
    case Begins => s.got == [] && s.asked == 0
    case Copies(now, later) =>
      && s.got == Flatten(s.chunks[..s.taken - 1]) + s.bufs[s.cur][..s.at]
      && (later > 0 ==> s.at + now == s.size)
      && s.asked == |s.got| + now + later
    case WaitsFor(later) =>
      && s.got == Flatten(s.chunks[..s.taken])
      && 0 < later && s.asked == |s.got| + later
  }

  ghost predicate Inv(s: State) {
    Counted(s) && Stored(s) && Faithful(s)
  }

  /** The producer never fills the buffer that the reader is in. */
  lemma NeverTheSameBuffer(s: State)
    requires Counted(s) && s.producer.Fills? && s.reader.Copies?
    ensures s.turn != s.cur
  {
  }

  function ProducerIn(s: State, b: nat): nat { if s.producer.Fills? && s.turn == b then 1 else 0 }

  function ReaderIn(s: State, b: nat): nat { if s.reader.Copies? && s.cur == b then 1 else 0 }

  /** For each buffer there is one token: a write permit, a read permit, the producer in it or the reader in it. */
  lemma OneTokenEach(s: State, b: nat)
    requires Counted(s) && b < 2
    ensures s.writeSem[b] + s.readSem[b] + ProducerIn(s, b) + ReaderIn(s, b) == 1
  {
    hide Share;
    ShareNext(|s.chunks|, b);
    ShareNext(Released(s), b);
    assert Share(Begun(s), b) == Share(|s.chunks|, b) + ProducerIn(s, b);
    assert Share(s.taken, b) == Share(Released(s), b) + ReaderIn(s, b);
    assert s.writeSem[b] == Share(Released(s) + 2, b) - Share(Begun(s), b);
    assert s.readSem[b] == Share(|s.chunks|, b) - Share(s.taken, b);
  }

  predicate ProducerHeldUp(s: State)
    requires Shaped(s)
  {
    s.producer.Waits? && !Enabled(s, WaitWrite)
  }

  predicate ReaderHeldUp(s: State)
    requires Shaped(s)
  {
    (s.reader.Begins? && !Enabled(s, TakeFirst)) || (s.reader.WaitsFor? && !Enabled(s, WaitRead))
  }

  lemma ProducerHeldUpMeans(s: State)
    requires Counted(s) && ProducerHeldUp(s)
    ensures |s.chunks| == Released(s) + 2
  {
    HeldUp(s.writeSem, Released(s) + 2, Begun(s));
  }

  lemma ReaderHeldUpMeans(s: State)
    requires Counted(s) && ReaderHeldUp(s)
    ensures |s.chunks| == Released(s)
  {
    HeldUp(s.readSem, |s.chunks|, s.taken);
  }

  /** The two sides are never both held up. */
  lemma NoDeadlock(s: State)
    requires Counted(s)
    ensures !ProducerHeldUp(s) || !ReaderHeldUp(s)
  {
    hide ProducerHeldUp, ReaderHeldUp, Stands;
    if ProducerHeldUp(s) {
      ProducerHeldUpMeans(s);
    }
    if ReaderHeldUp(s) {
      ReaderHeldUpMeans(s);
    }
  }

  lemma StoredKept(s: State, a: Action)
    requires Inv(s) && Enabled(s, a)
    ensures Counted(Step(s, a)) && Stored(Step(s, a))
  {
    hide Stands;
    CountedKept(s, a);
    var t := Step(s, a);
    if a.Fill? {
      forall k | Released(t) <= k < |t.chunks| ensures t.bufs[k % 2] == t.chunks[k] {
        assert s.bufs[k % 2] == s.chunks[k];
        OtherBuffer(s, k);
      }
    }
  }

  // The buffer being filled holds no chunk that is still wanted.
  lemma OtherBuffer(s: State, k: nat)
    requires Counted(s) && s.producer.Fills? && Released(s) <= k < |s.chunks|
    ensures k % 2 != s.turn
  {
  }

  lemma ProducerKeepsFaith(s: State, a: Action)
    requires Inv(s) && Enabled(s, a) && (a.WaitWrite? || a.Fill? || a.PostRead?)
    ensures Counted(Step(s, a)) && Faithful(Step(s, a))
  {
    CountedKept(s, a);
    if s.reader.Copies? && s.producer.Fills? {
      NeverTheSameBuffer(s);
    }
    hide Stands, Share, Flatten;
    var t := Step(s, a);
    assert t.chunks[..s.taken] == s.chunks[..s.taken];
    assert s.taken > 0 ==> t.chunks[..s.taken - 1] == s.chunks[..s.taken - 1];
  }

  lemma ReaderKeepsFaith(s: State, a: Action)
    requires Inv(s) && Enabled(s, a) && !(a.WaitWrite? || a.Fill? || a.PostRead?)
    ensures Counted(Step(s, a)) && Faithful(Step(s, a))
  {
    CountedKept(s, a);
    if a.PostWrite? {
      ChunkRead(s);
    }
    hide Stands, Share;
    var t := Step(s, a);
    if a.Copy? {
      assert s.bufs[s.cur][..s.at + 1] == s.bufs[s.cur][..s.at] + [s.bufs[s.cur][s.at]];
    } else if a.TakeFirst? || a.WaitRead? {
      assert t.bufs[t.cur][..0] == [] && t.chunks[..t.taken - 1] == s.chunks[..s.taken];
    }
  }

  // A buffer read to its end is a chunk read.
  lemma ChunkRead(s: State)
    requires Inv(s) && s.reader.Copies? && s.at == s.size
    ensures s.got == Flatten(s.chunks[..s.taken])
  {
    FlattenNext(s.chunks, s.taken - 1);
    assert s.bufs[s.cur][..s.size] == s.bufs[s.cur];
  }

  // ----- runs

  // The state after some actions, if each of them could be taken.
  function Run(s: State, actions: seq<Action>): Option<State>
    requires Shaped(s)
    ensures Run(s, actions).Some? ==> Shaped(Run(s, actions).value)
  {
    if actions == [] then Some(s) else
      var before := Run(s, actions[..|actions| - 1]);
      var a := actions[|actions| - 1];
      if before.Some? && Enabled(before.value, a) then Some(Step(before.value, a)) else None
  }

  /** Every interleaving keeps the invariant. */
  lemma {:induction false} AlwaysInv(bufs: seq<seq<byte>>, size: nat, actions: seq<Action>)
    requires size > 0 && |bufs| == 2 && |bufs[0]| == |bufs[1]| == size
    requires Run(Initial(bufs, size), actions).Some?
    ensures Inv(Run(Initial(bufs, size), actions).value)
  {
    if actions == [] {
      return;
    }
    AlwaysInv(bufs, size, actions[..|actions| - 1]);
    var s := Run(Initial(bufs, size), actions[..|actions| - 1]).value;
    InvKept(s, actions[|actions| - 1]);
  }

  lemma InvKept(s: State, a: Action)
    requires Inv(s) && Enabled(s, a)
    ensures Inv(Step(s, a))
  {
    StoredKept(s, a);
    if a.WaitWrite? || a.Fill? || a.PostRead? {
      ProducerKeepsFaith(s, a);
    } else {
      ReaderKeepsFaith(s, a);
    }
  }

  lemma GotIsPrefix(s: State)
    requires Inv(s)
    ensures s.got <= Flatten(s.chunks)
  {
    hide Share, Flatten;
    FlattenPrefix(s.chunks, s.taken);
    if s.reader.Copies? {
      FlattenPart(s.chunks, s.taken - 1, s.at);
    }
  }

  /**
   * Between two reads the reader has got exactly as many bytes as it asked for, and they are the first of what
   * the producer made: the results are one unbroken stream.
   */
  lemma ReadsAreAPrefix(bufs: seq<seq<byte>>, size: nat, actions: seq<Action>)
    requires size > 0 && |bufs| == 2 && |bufs[0]| == |bufs[1]| == size
    requires Run(Initial(bufs, size), actions).Some?
    ensures var s := Run(Initial(bufs, size), actions).value;
      s.got <= Flatten(s.chunks) && (s.reader == Copies(0, 0) ==> |s.got| == s.asked)
  {
    AlwaysInv(bufs, size, actions);
    GotIsPrefix(Run(Initial(bufs, size), actions).value);
  }

  // The sides are apart, each buffer has one token and somebody can go on.
  ghost predicate Apart(s: State)
    requires Shaped(s)
  {
    && (s.producer.Fills? && s.reader.Copies? ==> s.turn != s.cur)
    && (forall b :: 0 <= b < 2 ==> s.writeSem[b] + s.readSem[b] + ProducerIn(s, b) + ReaderIn(s, b) == 1)
    && (!ProducerHeldUp(s) || !ReaderHeldUp(s))
  }

  lemma CountedIsApart(s: State)
    requires Counted(s)
    ensures Apart(s)
  {
    hide ProducerHeldUp, ReaderHeldUp, ProducerIn, ReaderIn, Share;
    if s.producer.Fills? && s.reader.Copies? {
      NeverTheSameBuffer(s);
    }
    OneTokenEach(s, 0);
    OneTokenEach(s, 1);
    NoDeadlock(s);
  }

  /** In every reachable state the sides are apart, each buffer has one token and somebody can go on. */
  lemma AlwaysApart(bufs: seq<seq<byte>>, size: nat, actions: seq<Action>)
    requires size > 0 && |bufs| == 2 && |bufs[0]| == |bufs[1]| == size
    requires Run(Initial(bufs, size), actions).Some?
    ensures Apart(Run(Initial(bufs, size), actions).value)
  {
    AlwaysInv(bufs, size, actions);
    CountedIsApart(Run(Initial(bufs, size), actions).value);
  }
}
