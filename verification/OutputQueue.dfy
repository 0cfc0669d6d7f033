/**
 * What the output process holds of one worker: a linked list of received buffers
 * (simulator/distributed/output.c:14-50).
 */
module OutputQueue {
  import opened Sequences

  datatype Miss = Miss(address: nat, cpu: nat, timestamp: nat)

  /** A received buffer; what lies before its offset has been written out. */
  class Node {
    const misses: seq<Miss>
    var next: Node?
    var offset: nat

    constructor (misses: seq<Miss>)
      ensures this.misses == misses && next == null && offset == 0
    {
      this.misses, next, offset := misses, null, 0;
    }
  }

  ghost function Contents(nodes: seq<Node>): (r: seq<seq<Miss>>)
    ensures |r| == |nodes|
  {
    seq(|nodes|, i requires 0 <= i < |nodes| => nodes[i].misses)
  }

  // What is not yet written out of a list of buffers, when the first has been written out up to a place.
  ghost function Unwritten(nodes: seq<Node>, offset: nat): seq<Miss> {
    if nodes == [] || offset > |nodes[0].misses| then [] else nodes[0].misses[offset..] + Flatten(Contents(nodes[1..]))
  }

  lemma UnwrittenLonger(nodes: seq<Node>, offset: nat, n: Node)
    requires nodes == [] ==> offset == 0
    requires nodes != [] ==> offset <= |nodes[0].misses|
    ensures Unwritten(nodes + [n], offset) == Unwritten(nodes, offset) + n.misses
  {
    hide Flatten, Contents;
    if nodes == [] {
      assert (nodes + [n])[1..] == [];
      NoContents();
    } else {
      assert (nodes + [n])[1..] == nodes[1..] + [n];
      ContentsLonger(nodes[1..], n);
      FlattenSnoc(Contents(nodes[1..]), n.misses);
      var head := nodes[0].misses[offset..];
      assert head + (Flatten(Contents(nodes[1..])) + n.misses) == (head + Flatten(Contents(nodes[1..]))) + n.misses;
    }
  }

  lemma NoContents()
    ensures Flatten(Contents([])) == []
  {
  }

  lemma ContentsLonger(nodes: seq<Node>, n: Node)
    ensures Contents(nodes + [n]) == Contents(nodes) + [n.misses]
  {
  }

  lemma UnwrittenNext(nodes: seq<Node>, offset: nat)
    requires nodes != [] && offset < |nodes[0].misses|
    ensures Unwritten(nodes, offset) == [nodes[0].misses[offset]] + Unwritten(nodes, offset + 1)
  {
  }

  lemma UnwrittenShorter(nodes: seq<Node>)
    requires nodes != []
    ensures Unwritten(nodes, |nodes[0].misses|) == Unwritten(nodes[1..], 0)
  {
    var rest := nodes[1..];
    if rest != [] {
      assert Contents(rest)[1..] == Contents(rest[1..]);
      FlattenCons(Contents(rest));
    }
  }

  // Each node leads to the next, the last one nowhere.
  ghost predicate Linked(ns: seq<Node>)
    reads ns
  {
    && (forall i {:trigger ns[i].next} :: 0 <= i < |ns| - 1 ==> ns[i].next == ns[i + 1])
    && (ns != [] ==> ns[|ns| - 1].next == null)
    && (forall i, j :: 0 <= i < j < |ns| ==> ns[i] != ns[j])
  }

  class Queue {
    const size: nat                      // misses in a buffer
    var first: Node?
    ghost var nodes: seq<Node>
    ghost var pending: seq<Miss>         // what is still to be written out
    ghost var Repr: set<object>

    // Only the first node has been written out in part.
    ghost predicate Shaped()
      reads this, nodes
    {
      && size > 0
      && first == (if nodes == [] then null else nodes[0])
      && Linked(nodes)
      && (forall i :: 0 <= i < |nodes| ==> |nodes[i].misses| == size && (i > 0 ==> nodes[i].offset == 0))
      && (nodes != [] ==> nodes[0].offset < size)
    }

    ghost function Pending(): seq<Miss>
      requires Shaped()
      reads this, nodes
    {
      Unwritten(nodes, if nodes == [] then 0 else nodes[0].offset)
    }

    ghost predicate Valid()
      reads this, Repr
    {
      && Repr == {this} + (set n: object | n in nodes)
      && Shaped() && pending == Pending()
    }

    constructor (size: nat)
      requires size > 0
      ensures Valid() && this.size == size && pending == [] && fresh(Repr)
    {
      this.size := size;
      first, nodes, pending, Repr := null, [], [], {this};
    }

    // The links are followed to the end.
    method FindLast() returns (cur: Node)
      requires Shaped() && nodes != []
      ensures cur == nodes[|nodes| - 1]
    {
      cur := first;
      ghost var i := 0;
      while cur.next != null
        invariant 0 <= i < |nodes| && cur == nodes[i]
        decreases |nodes| - i
      {
        assert nodes[i].next == nodes[i + 1];
        cur := cur.next;
        i := i + 1;
      }
    }

    // A received buffer goes behind the last one.
    method Link(n: Node)
      requires Shaped() && n !in nodes && n.next == null && n.offset == 0 && |n.misses| == size
      modifies this`first, this`nodes, nodes
      ensures Shaped() && nodes == old(nodes) + [n] && Pending() == old(Pending()) + n.misses
    {
      hide Unwritten;
      if first == null {
        UnwrittenLonger(nodes, 0, n);
        first, nodes := n, [n];
      } else {
        UnwrittenLonger(nodes, nodes[0].offset, n);
        var cur := FindLast();
        cur.next := n;
        nodes := nodes + [n];
      }
    }

    /** What is received comes last. */
    method Append(misses: seq<Miss>)
      requires Valid() && |misses| == size
      modifies Repr
      ensures Valid() && fresh(Repr - old(Repr)) && pending == old(pending) + misses
    {
      var n := new Node(misses);
      Link(n);
      KeepTrack();
    }

    ghost method KeepTrack()
      requires Shaped()
      modifies this`pending, this`Repr
      ensures Valid() && pending == old(Pending()) && Repr == {this} + (set n: object | n in nodes)
    {
      pending := Pending();
      Repr := {this} + set n: object | n in nodes;
    }

    predicate IsEmpty()
      reads this
    {
      first == null
    }

    lemma EmptyMeans()
      requires Valid()
      ensures IsEmpty() <==> pending == []
    {
    }

    method Head() returns (m: Miss)
      requires Valid() && pending != []
      ensures m == pending[0]
    {
      m := first.misses[first.offset];
    }

    // The next miss goes out; a buffer that is used up goes away.
    method Unlink()
      requires Shaped() && nodes != []
      modifies this`first, this`nodes, nodes
      ensures Shaped() && old(Pending()) == [old(Pending()[0])] + Pending()
      ensures nodes == old(nodes) || nodes == old(nodes)[1..]
    {
      hide Unwritten;
      UnwrittenNext(nodes, first.offset);
      UnwrittenShorter(nodes);
      first.offset := first.offset + 1;
      if first.offset == size {
        first := first.next;
        ghost var before := nodes;
        nodes := nodes[1..];
        assert forall k :: 0 <= k < |nodes| ==> nodes[k] == before[k + 1];
      }
    }

    /** The next miss is the first of what is pending. */
    method Take()
      requires Valid() && pending != []
      modifies Repr
      ensures Valid() && Repr <= old(Repr) && pending == old(pending)[1..]
    {
      Unlink();
      KeepTrack();
    }
  }
}
