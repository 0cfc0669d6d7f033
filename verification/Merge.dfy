/**
 * The merge of the workers' misses by time (simulator/distributed/output.c:99-130), first as what it does to
 * the queues' contents, then as the program does it.
 */
module Merge {
  import opened OutputQueue

  /** A buffer of misses as it arrives; messages of one worker arrive in the order they were sent. */
  datatype Message = Message(source: nat, misses: seq<Miss>)

  type Written = seq<(nat, Miss)>

  // What a worker has sent, and what of a worker has been written out.
  function Sent(ms: seq<Message>, w: nat): seq<Miss> {
    if ms == [] then [] else
      var last := ms[|ms| - 1];
      Sent(ms[..|ms| - 1], w) + if last.source == w then last.misses else []
  }

  function Chosen(out: Written, w: nat): seq<Miss> {
    if out == [] then [] else
      var last := out[|out| - 1];
      Chosen(out[..|out| - 1], w) + if last.0 == w then [last.1] else []
  }

  ghost predicate Sorted(s: seq<Miss>) {
    forall i, j :: 0 <= i <= j < |s| ==> s[i].timestamp <= s[j].timestamp
  }

  ghost predicate InOrder(out: Written) {
    forall i, j :: 0 <= i <= j < |out| ==> out[i].1.timestamp <= out[j].1.timestamp
  }

  // Nothing is lost, doubled or reordered: what was written and what is pending is what has arrived.
  ghost predicate Conserved(out: Written, pending: seq<seq<Miss>>, arrived: seq<Message>) {
    forall w :: 0 <= w < |pending| ==> Chosen(out, w) + pending[w] == Sent(arrived, w)
  }

  // What was written is in order, and nothing that a worker has left to write is earlier.
  ghost predicate Ahead(out: Written, sent: seq<Miss>, w: nat) {
    out != [] ==> forall k :: |Chosen(out, w)| <= k < |sent| ==> out[|out| - 1].1.timestamp <= sent[k].timestamp
  }

  ghost predicate Merged(out: Written, pending: seq<seq<Miss>>, all: seq<Message>) {
    && InOrder(out)
    && forall w :: 0 <= w < |pending| ==> Ahead(out, Sent(all, w), w)
  }

  lemma SentSnoc(ms: seq<Message>, m: Message, w: nat)
    ensures Sent(ms + [m], w) == Sent(ms, w) + if m.source == w then m.misses else []
  {
    assert (ms + [m])[..|ms|] == ms;
  }

  lemma ChosenSnoc(out: Written, c: (nat, Miss), w: nat)
    ensures Chosen(out + [c], w) == Chosen(out, w) + if c.0 == w then [c.1] else []
  {
    assert (out + [c])[..|out|] == out;
  }

  lemma {:induction false} SentPrefix(ms: seq<Message>, n: nat, w: nat)
    requires n <= |ms|
    ensures Sent(ms[..n], w) <= Sent(ms, w)
    decreases |ms|
  {
    if n < |ms| {
      var shorter := ms[..|ms| - 1];
      SentPrefix(shorter, n, w);
      assert shorter[..n] == ms[..n];
    } else {
      assert ms[..n] == ms;
    }
  }

  /** A message goes behind what its worker has pending. */
  lemma ReceiveKeeps(out: Written, pending: seq<seq<Miss>>, arrived: seq<Message>, m: Message)
    requires Conserved(out, pending, arrived) && m.source < |pending|
    ensures Conserved(out, pending[m.source := pending[m.source] + m.misses], arrived + [m])
  {
    var pending' := pending[m.source := pending[m.source] + m.misses];
    forall w | 0 <= w < |pending'| ensures Chosen(out, w) + pending'[w] == Sent(arrived + [m], w) {
      SentSnoc(arrived, m, w);
      assert Chosen(out, w) + pending[w] == Sent(arrived, w);
    }
  }

  // The earliest of the first pending misses, the lowest worker among equals.
  ghost predicate Smallest(pending: seq<seq<Miss>>, i: nat) {
    && i < |pending| && (forall w :: 0 <= w < |pending| ==> pending[w] != [])
    && forall w :: 0 <= w < |pending| ==>
      && pending[i][0].timestamp <= pending[w][0].timestamp
      && (w < i ==> pending[i][0].timestamp < pending[w][0].timestamp)
  }

  lemma TakeConserves(out: Written, pending: seq<seq<Miss>>, arrived: seq<Message>, i: nat)
    requires Conserved(out, pending, arrived) && i < |pending| && pending[i] != []
    ensures Conserved(out + [(i, pending[i][0])], pending[i := pending[i][1..]], arrived)
  {
    var c := (i, pending[i][0]);
    var pending' := pending[i := pending[i][1..]];
    forall w | 0 <= w < |pending'| ensures Chosen(out + [c], w) + pending'[w] == Sent(arrived, w) {
      ChosenSnoc(out, c, w);
      assert Chosen(out, w) + pending[w] == Sent(arrived, w);
      assert pending[i] == [pending[i][0]] + pending[i][1..];
    }
  }

  // The place of a pending miss in all that its worker sends.
  lemma PendingIsNext(p: seq<Miss>, arrived: seq<Miss>, sent: seq<Miss>, chosen: seq<Miss>)
    requires chosen + p == arrived && arrived <= sent && p != []
    ensures |chosen| < |sent| && sent[|chosen|] == p[0]
  {
    assert arrived[|chosen|] == p[0];
  }

  /** Taking the smallest keeps the output in order: whatever arrives later is not earlier. */
  lemma TakeMerges(out: Written, pending: seq<seq<Miss>>, all: seq<Message>, n: nat, i: nat)
    requires n <= |all| && Conserved(out, pending, all[..n]) && Merged(out, pending, all) && Smallest(pending, i)
    requires forall w :: 0 <= w < |pending| ==> Sorted(Sent(all, w))
    ensures Merged(out + [(i, pending[i][0])], pending, all)
  {
    var c := (i, pending[i][0]);
    var out' := out + [c];
    forall w | 0 <= w < |pending| ensures Ahead(out', Sent(all, w), w) {
      SentPrefix(all, n, w);
      assert Chosen(out, w) + pending[w] == Sent(all[..n], w);
      PendingIsNext(pending[w], Sent(all[..n], w), Sent(all, w), Chosen(out, w));
      ChosenSnoc(out, c, w);
      assert Sorted(Sent(all, w));
    }
    SentPrefix(all, n, i);
    assert Chosen(out, i) + pending[i] == Sent(all[..n], i);
    PendingIsNext(pending[i], Sent(all[..n], i), Sent(all, i), Chosen(out, i));
    assert Ahead(out, Sent(all, i), i);
  }

  // ----- the result of a merge

  // The earliest head among the first n streams, the lowest stream among equals.
  function Pick(s: seq<seq<Miss>>, n: nat): (i: nat)
    requires 0 < n <= |s| && forall w :: 0 <= w < |s| ==> s[w] != []
    ensures i < n
    ensures forall w :: 0 <= w < n ==>
      s[i][0].timestamp <= s[w][0].timestamp && (w < i ==> s[i][0].timestamp < s[w][0].timestamp)
  {
    if n == 1 then 0
    else
      var j := Pick(s, n - 1);
      if s[n - 1][0].timestamp < s[j][0].timestamp then n - 1 else j
  }

  predicate AllGoOn(s: seq<seq<Miss>>) {
    |s| > 0 && forall w :: 0 <= w < |s| ==> s[w] != []
  }

  /** The streams merged by time, up to the end of the first that ends. */
  function MergeOf(s: seq<seq<Miss>>): Written
    decreases Total(s)
  {
    if !AllGoOn(s) then []
    else
      var i := Pick(s, |s|);
      TotalTaken(s, i);
      [(i, s[i][0])] + MergeOf(s[i := s[i][1..]])
  }

  // All that n workers send.
  function AllSent(all: seq<Message>, n: nat): (s: seq<seq<Miss>>)
    ensures |s| == n && forall w :: 0 <= w < n ==> s[w] == Sent(all, w)
  {
    seq(n, w requires 0 <= w => Sent(all, w))
  }

  // What of it has not been written out.
  function Rests(out: Written, all: seq<Message>, n: nat): (s: seq<seq<Miss>>)
    ensures |s| == n && forall w :: 0 <= w < n ==> s[w] == Rest(out, all, w)
  {
    seq(n, w requires 0 <= w => Rest(out, all, w))
  }

  function Rest(out: Written, all: seq<Message>, w: nat): seq<Miss> {
    var k := |Chosen(out, w)|;
    if k <= |Sent(all, w)| then Sent(all, w)[k..] else []
  }

  // What was written out is how the merge of all that is sent begins.
  ghost predicate Begun(out: Written, all: seq<Message>, n: nat) {
    out + MergeOf(Rests(out, all, n)) == MergeOf(AllSent(all, n))
  }

  lemma NothingBegun(pending: seq<seq<Miss>>, all: seq<Message>)
    requires forall w :: 0 <= w < |pending| ==> pending[w] == []
    ensures Conserved([], pending, all[..0]) && Merged([], pending, all) && Begun([], all, |pending|)
  {
    assert Rests([], all, |pending|) == AllSent(all, |pending|);
  }

  lemma HeadsPending(out: Written, pending: seq<seq<Miss>>, all: seq<Message>, n: nat, w: nat)
    requires n <= |all| && Conserved(out, pending, all[..n]) && w < |pending| && pending[w] != []
    ensures Rest(out, all, w) != [] && Rest(out, all, w)[0] == pending[w][0]
  {
    SentPrefix(all, n, w);
    assert Chosen(out, w) + pending[w] == Sent(all[..n], w);
    PendingIsNext(pending[w], Sent(all[..n], w), Sent(all, w), Chosen(out, w));
  }

  lemma RestsTaken(out: Written, all: seq<Message>, n: nat, i: nat)
    requires i < n && Rest(out, all, i) != []
    ensures var rest := Rests(out, all, n);
      Rests(out + [(i, rest[i][0])], all, n) == rest[i := rest[i][1..]]
  {
    var rest := Rests(out, all, n);
    var c := (i, rest[i][0]);
    forall w: nat | w < n ensures Rest(out + [c], all, w) == rest[i := rest[i][1..]][w] {
      ChosenSnoc(out, c, w);
    }
  }

  lemma PickIsSmallest(s: seq<seq<Miss>>, i: nat)
    requires Smallest(s, i)
    ensures MergeOf(s) == [(i, s[i][0])] + MergeOf(s[i := s[i][1..]])
  {
    var j := Pick(s, |s|);
    assert s[i][0].timestamp <= s[j][0].timestamp;
  }

  /** Taking the smallest of what is pending is the next step of the merge of everything. */
  lemma TakeGoesOn(out: Written, pending: seq<seq<Miss>>, all: seq<Message>, n: nat, i: nat)
    requires n <= |all| && Conserved(out, pending, all[..n]) && Smallest(pending, i) && Begun(out, all, |pending|)
    ensures Begun(out + [(i, pending[i][0])], all, |pending|)
  {
    hide Chosen, Sent, Rest, MergeOf, Conserved;
    var rest := Rests(out, all, |pending|);
    forall w | 0 <= w < |pending| ensures rest[w] != [] && rest[w][0] == pending[w][0] {
      HeadsPending(out, pending, all, n, w);
    }
    PickIsSmallest(rest, i);
    RestsTaken(out, all, |pending|, i);
    var c := (i, pending[i][0]);
    assert (out + [c]) + MergeOf(rest[i := rest[i][1..]]) == out + ([c] + MergeOf(rest[i := rest[i][1..]]));
  }

  /** When everything has arrived and one worker has nothing left, the merge is complete. */
  lemma MergeEnds(out: Written, pending: seq<seq<Miss>>, all: seq<Message>, i: nat)
    requires Conserved(out, pending, all) && i < |pending| && pending[i] == [] && Begun(out, all, |pending|)
    ensures out == MergeOf(AllSent(all, |pending|)) && Chosen(out, i) == Sent(all, i)
  {
    assert Chosen(out, i) + pending[i] == Sent(all, i);
    assert Rests(out, all, |pending|)[i] == [];
  }

  // What is pending does not matter to the order, only whose it is.
  lemma SamePlaces(out: Written, pending: seq<seq<Miss>>, pending': seq<seq<Miss>>, all: seq<Message>)
    requires Merged(out, pending, all) && |pending| == |pending'|
    ensures Merged(out, pending', all)
  {
  }

  // How much is pending in all.
  function Total(pending: seq<seq<Miss>>): nat {
    if pending == [] then 0 else |pending[0]| + Total(pending[1..])
  }

  lemma {:induction false} TotalTaken(pending: seq<seq<Miss>>, i: nat)
    requires i < |pending| && pending[i] != []
    ensures Total(pending[i := pending[i][1..]]) < Total(pending)
  {
    if i > 0 {
      TotalTaken(pending[1..], i - 1);
      assert pending[i := pending[i][1..]][1..] == pending[1..][i - 1 := pending[i][1..]];
    } else {
      assert pending[0 := pending[0][1..]][1..] == pending[1..];
    }
  }
}
