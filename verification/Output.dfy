/**
 * The output process (simulator/distributed/output.c): it receives buffers from any worker and writes the misses by
 * time.
 */
module Output {
  import opened OutputQueue
  import opened Merge

  ghost function AllOf(qs: seq<Queue>): (r: set<object>)
    reads qs
    ensures forall i :: 0 <= i < |qs| ==> qs[i].Repr <= r
  {
    if qs == [] then {} else
      assert forall q :: q in qs[1..] ==> q in qs;
      qs[0].Repr + AllOf(qs[1..])
  }

  /**
   * One queue for each worker. What will arrive is given, in the order in which it arrives; a run goes on until
   * the process waits for a buffer that never comes.
   */
  class OutputProcess {
    const size: nat                      // misses in a buffer
    const arrivals: seq<Message>
    const workers: seq<Queue>
    var arrived: nat
    var out: Written
    ghost var pending: seq<seq<Miss>>    // what each queue holds
    ghost var Repr: set<object>

    // The queues share nothing and hold what is pending.
    ghost predicate Apart()
      reads this, Repr
    {
      && this in Repr && |workers| > 0 && |pending| == |workers|
      && (forall i :: 0 <= i < |workers| ==>
        && workers[i] in Repr && workers[i] in workers[i].Repr && workers[i].Repr <= Repr && this !in workers[i].Repr
        && workers[i].Valid() && workers[i].size == size && workers[i].pending == pending[i])
      && (forall i, j :: 0 <= i < j < |workers| ==> workers[i].Repr !! workers[j].Repr)
    }

    // Messages come from workers, whole, and each worker's misses in the order of time.
    ghost predicate GoodArrivals() {
      && size > 0
      && (forall k :: 0 <= k < |arrivals| ==> arrivals[k].source < |workers| && |arrivals[k].misses| == size)
      && forall w :: 0 <= w < |workers| ==> Sorted(Sent(arrivals, w))
    }

    ghost predicate Valid()
      reads this, Repr
    {
      && Apart() && arrived <= |arrivals| && GoodArrivals()
      && Conserved(out, pending, arrivals[..arrived])
      && Merged(out, pending, arrivals)
      && Begun(out, arrivals, |workers|)
    }

    // Nothing has arrived yet. The merge itself starts when everybody has a buffer.
    constructor (size: nat, arrivals: seq<Message>, workers: seq<Queue>)
      requires size > 0 && |workers| > 0
      requires forall i :: 0 <= i < |workers| ==>
        && workers[i].Valid() && workers[i] in workers[i].Repr && workers[i].size == size && workers[i].pending == []
      requires forall i, j :: 0 <= i < j < |workers| ==> workers[i].Repr !! workers[j].Repr
      requires forall k :: 0 <= k < |arrivals| ==> arrivals[k].source < |workers| && |arrivals[k].misses| == size
      requires forall w :: 0 <= w < |workers| ==> Sorted(Sent(arrivals, w))
      ensures Valid() && arrived == 0 && out == [] && this.arrivals == arrivals && this.workers == workers
    {
      hide Queue.Valid, Conserved, Merged, Begun;
      this.size, this.arrivals, this.workers, this.arrived, this.out := size, arrivals, workers, 0, [];
      pending := seq(|workers|, _ => []);
      new;
      Repr := {this} + AllOf(workers);
      NothingBegun(pending, arrivals);
    }

    // A buffer arrives and goes behind those of its worker.
    method Append(i: nat, misses: seq<Miss>)
      requires Apart() && i < |workers| && |misses| == size
      modifies Repr
      ensures Apart() && fresh(Repr - old(Repr))
      ensures pending == old(pending)[i := old(pending)[i] + misses] && arrived == old(arrived) && out == old(out)
    {
      hide Queue.Valid;
      workers[i].Append(misses);
      pending := pending[i := pending[i] + misses];
      Repr := Repr + workers[i].Repr;
    }

    // The first miss of a queue leaves it.
    method Remove(i: nat)
      requires Apart() && i < |workers| && pending[i] != []
      modifies Repr
      ensures Apart() && fresh(Repr - old(Repr))
      ensures pending == old(pending)[i := old(pending)[i][1..]] && arrived == old(arrived) && out == old(out)
    {
      hide Queue.Valid;
      workers[i].Take();
      pending := pending[i := pending[i][1..]];
    }

    lemma QueueOf(i: nat)
      requires Apart() && i < |workers|
      ensures workers[i].Valid() && workers[i].pending == pending[i]
      ensures workers[i].IsEmpty() <==> pending[i] == []
    {
      workers[i].EmptyMeans();
    }

    lemma ApartMeans()
      requires Apart()
      ensures this in Repr && |workers| == |pending| > 0
    {
    }

    /** The next buffer, whoever it is from. */
    method Receive() returns (sender: nat)
      requires Valid() && arrived < |arrivals|
      modifies Repr
      ensures Valid() && fresh(Repr - old(Repr)) && out == old(out) && arrived == old(arrived) + 1
      ensures sender == arrivals[old(arrived)].source < |workers| && pending[sender] != []
      ensures pending == old(pending)[sender := old(pending)[sender] + arrivals[old(arrived)].misses]
    {
      hide Apart, Conserved, Merged, Begun;
      ApartMeans();
      var m := arrivals[arrived];
      ReceiveKeeps(out, pending, arrivals[..arrived], m);
      assert arrivals[..arrived] + [m] == arrivals[..arrived + 1];
      SamePlaces(out, pending, pending[m.source := pending[m.source] + m.misses], arrivals);
      Append(m.source, m.misses);
      sender := m.source;
      Count();
    }

    method Count()
      requires Apart()
      modifies this`arrived
      ensures Apart() && arrived == old(arrived) + 1
    {
      arrived := arrived + 1;
    }

    method Write(c: (nat, Miss))
      requires Apart()
      modifies this`out
      ensures Apart() && out == old(out) + [c]
    {
      out := out + [c];
    }

    // Everybody has something to write.
    ghost predicate AllHave()
      reads this
    {
      forall w :: 0 <= w < |pending| ==> pending[w] != []
    }

    /** The worker with the earliest miss, the first of them among equals. */
    method Select() returns (smallest: nat, t: Miss)
      requires Valid() && AllHave()
      ensures Smallest(pending, smallest) && t == pending[smallest][0]
    {
      hide Apart, Conserved, Merged, Begun, GoodArrivals, Queue.Valid;
      ApartMeans();
      smallest := 0;
      QueueOf(0);
      t := workers[0].Head();
      for i := 1 to |workers|
        invariant Apart() && AllHave() && |pending| == |workers| && smallest < i && t == pending[smallest][0]
        invariant forall w :: 0 <= w < i ==> t.timestamp <= pending[w][0].timestamp
        invariant forall w :: 0 <= w < smallest ==> t.timestamp < pending[w][0].timestamp
      {
        QueueOf(i);
        var cur := workers[i].Head();
        if cur.timestamp < t.timestamp {
          smallest, t := i, cur;
        }
      }
    }

    // The earliest miss is written out and leaves its queue.
    method Emit(i: nat, m: Miss)
      requires Valid() && Smallest(pending, i) && m == pending[i][0]
      modifies Repr
      ensures Valid() && fresh(Repr - old(Repr)) && out == old(out) + [(i, m)] && arrived == old(arrived)
      ensures pending == old(pending)[i := old(pending)[i][1..]]
    {
      hide Apart, Conserved, Merged, Begun;
      ApartMeans();
      TakeGoesOn(out, pending, arrivals, arrived, i);
      TakeConserves(out, pending, arrivals[..arrived], i);
      TakeMerges(out, pending, arrivals, arrived, i);
      SamePlaces(out + [(i, m)], pending, pending[i := pending[i][1..]], arrivals);
      Remove(i);
      Write((i, m));
    }

    /**
     * One round: the earliest miss is written out; if its worker has none left, buffers are received, from
     * whomever, until one is from that worker. Unless that never happens, everybody has something again.
     */
    method Round() returns (more: bool)
      requires Valid() && AllHave()
      modifies Repr
      ensures Valid() && fresh(Repr - old(Repr))
      ensures exists i: nat :: Smallest(old(pending), i) && out == old(out) + [(i, old(pending)[i][0])]
      ensures more ==> AllHave()
      ensures !more ==> arrived == |arrivals| && !AllHave()
      ensures old(arrived) <= arrived <= |arrivals|
      ensures arrived == old(arrived) ==> Total(pending) < old(Total(pending))
    {
      hide Apart, Conserved, Merged, Begun, GoodArrivals;
      ApartMeans();
      var i, m := Select();
      TotalTaken(pending, i);
      Emit(i, m);
      QueueOf(i);
      more := true;
      if workers[i].IsEmpty() {
        more := false;
        while arrived < |arrivals| && !more
          invariant Valid() && fresh(Repr - old(Repr)) && out == old(out) + [(i, m)]
          invariant old(arrived) <= arrived <= |arrivals|
          invariant arrived == old(arrived) ==> Total(pending) < old(Total(pending))
          invariant |pending| == |workers| && (!more ==> pending[i] == [])
          invariant forall w :: 0 <= w < |pending| && (w != i || more) ==> pending[w] != []
          decreases |arrivals| - arrived
        {
          var sender := Receive();
          more := sender == i;
        }
      }
    }

    /**
     * The whole run. When it has to wait for ever, it has received everything and has written the merge of all that
     * the workers sent, up to the end of the first stream that ends, whatever the order of arrival was: in the order
     * of time, and each worker's misses in the order it sent them.
     */
    method Run()
      requires Valid() && AllHave()
      modifies Repr
      ensures Valid() && arrived == |arrivals| && out == MergeOf(AllSent(arrivals, |workers|))
      ensures exists w :: 0 <= w < |workers| && pending[w] == [] && Chosen(out, w) == Sent(arrivals, w)
      ensures InOrder(out) && forall w :: 0 <= w < |workers| ==> Chosen(out, w) <= Sent(arrivals, w)
    {
      hide Apart, Conserved, Merged, Begun, GoodArrivals;
      var more := true;
      while more
        invariant Valid() && fresh(Repr - old(Repr))
        invariant if more then AllHave() else arrived == |arrivals| && !AllHave()
        decreases |arrivals| - arrived, Total(pending), more
      {
        more := Round();
      }
      Finished();
    }

    lemma Finished()
      requires Valid() && arrived == |arrivals| && !AllHave()
      ensures InOrder(out) && out == MergeOf(AllSent(arrivals, |workers|))
      ensures exists w :: 0 <= w < |workers| && pending[w] == [] && Chosen(out, w) == Sent(arrivals, w)
      ensures forall w :: 0 <= w < |workers| ==> Chosen(out, w) <= Sent(arrivals, w)
    {
      hide Begun, MergeOf;
      assert arrivals[..arrived] == arrivals;
      forall w | 0 <= w < |workers| ensures Chosen(out, w) <= Sent(arrivals, w) {
        assert Chosen(out, w) + pending[w] == Sent(arrivals, w);
      }
      var i :| 0 <= i < |pending| && pending[i] == [];
      MergeEnds(out, pending, arrivals, i);
    }
  }
}
