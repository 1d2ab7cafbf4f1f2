/** The heap of timeouts: an array in heap order whose elements know where they are. */
module MinHeaps {

  /** struct event, as far as the heap is concerned; an index of -1 says that it is in no heap. */
  class Node {
    var timeout: int
    var idx: int

    constructor (timeout: int)
      ensures this.timeout == timeout && idx == -1
    {
      this.timeout, idx := timeout, -1;
    }
  }

  function Parent(i: nat): nat
    requires i > 0
  {
    (i - 1) / 2
  }

  ghost predicate SameElements(a: seq<Node>, b: seq<Node>) {
    (forall i :: 0 <= i < |a| ==> a[i] in b) && (forall i :: 0 <= i < |b| ==> b[i] in a)
  }

  ghost predicate NoDup(a: seq<Node>) {
    forall i, j :: 0 <= i < j < |a| ==> a[i] != a[j]
  }

  ghost predicate Within(p: seq<Node>, nodes: set<Node>) {
    forall i :: 0 <= i < |p| ==> p[i] in nodes
  }

  /** Every element knows its place. */
  ghost predicate Indexed(p: seq<Node>)
    reads p`idx
  {
    forall i :: 0 <= i < |p| ==> p[i].idx == i
  }

  ghost predicate IndexedBut(p: seq<Node>, hole: nat)
    reads p`idx
  {
    forall i :: 0 <= i < |p| && i != hole ==> p[i].idx == i
  }

  /** No element comes before its parent. */
  ghost predicate Ordered(p: seq<Node>)
    reads p`timeout
  {
    forall i :: 0 < i < |p| ==> p[Parent(i)].timeout <= p[i].timeout
  }

  /** Heap order wherever the hole is not involved, and across it */
  ghost predicate OrderedBut(p: seq<Node>, hole: nat)
    reads p`timeout
  {
    && (forall i :: 0 < i < |p| && i != hole && Parent(i) != hole ==> p[Parent(i)].timeout <= p[i].timeout)
    && (0 < hole < |p| ==> forall c :: 0 < c < |p| && Parent(c) == hole ==> p[Parent(hole)].timeout <= p[c].timeout)
  }

  /** What lies below the hole is due no earlier. */
  ghost predicate Below(p: seq<Node>, hole: nat, when: int)
    reads p`timeout
  {
    forall c :: 0 < c < |p| && Parent(c) == hole ==> when <= p[c].timeout
  }

  /** Moving an element into the hole and making its place the hole keeps what the array holds once the hole is
      filled. */
  lemma HoleMoved(p: seq<Node>, hole: nat, from: nat, e: Node)
    requires hole < |p| && from < |p| && hole != from
    requires NoDup(p[hole := e])
    ensures SameElements(p[hole := p[from]][from := e], p[hole := e]) && NoDup(p[hole := p[from]][from := e])
  {
    var a, b := p[hole := e], p[hole := p[from]][from := e];
    assert forall i :: 0 <= i < |p| ==> b[i] == a[if i == hole then from else if i == from then hole else i];
    assert forall i :: 0 <= i < |p| ==> a[i] == b[if i == hole then from else if i == from then hole else i];
  }

  lemma SameSelf(a: seq<Node>)
    ensures SameElements(a, a)
  {
  }

  lemma SameAgain(a: seq<Node>, b: seq<Node>, c: seq<Node>)
    requires SameElements(a, b) && SameElements(b, c)
    ensures SameElements(a, c)
  {
    forall i | 0 <= i < |a|
      ensures a[i] in c
    {
      assert a[i] in b;
      var j :| 0 <= j < |b| && b[j] == a[i];
    }
    forall i | 0 <= i < |c|
      ensures c[i] in a
    {
      assert c[i] in b;
      var j :| 0 <= j < |b| && b[j] == c[i];
    }
  }

  /** The parent of the hole may move down into it if it is due later than the element to be placed. */
  lemma UpStep(p: seq<Node>, hole: nat, when: int)
    requires 0 < hole < |p| && OrderedBut(p, hole) && Below(p, hole, when) && p[Parent(hole)].timeout > when
    ensures OrderedBut(p[hole := p[Parent(hole)]], Parent(hole))
    ensures Below(p[hole := p[Parent(hole)]], Parent(hole), when)
  {
  }

  /** The element may be placed once its parent is due no later and all below no earlier. */
  lemma Placed(p: seq<Node>, hole: nat, e: Node)
    requires hole < |p| && OrderedBut(p, hole) && Below(p, hole, e.timeout)
    requires hole > 0 ==> p[Parent(hole)].timeout <= e.timeout
    ensures Ordered(p[hole := e])
  {
  }

  /** struct min_heap: the n elements are p; room for more is not modelled. */
  class MinHeap {
    var p: seq<Node>

    constructor ()
      ensures Valid() && p == []
    {
      p := [];
    }

    ghost predicate Valid()
      reads this, p
    {
      Indexed(p) && Ordered(p)
    }

    /** An element moves into the hole and leaves one where it was. */
    method MoveInto(hole: nat, from: nat, ghost e: Node, ghost nodes: set<Node>)
      requires hole < |p| && from < |p| && hole != from && IndexedBut(p, hole) && NoDup(p[hole := e])
      requires Within(p, nodes)
      modifies `p, nodes`idx
      ensures p == old(p)[hole := old(p)[from]] && IndexedBut(p, from) && Within(p, nodes)
    {
      assert forall i :: 0 <= i < |p| && i != hole ==> p[i] == p[hole := e][i];
      p := p[hole := p[from]];
      p[hole].idx := hole;
    }

    /** The hole is filled. */
    method Fill(hole: nat, e: Node)
      requires hole < |p| && IndexedBut(p, hole) && NoDup(p[hole := e])
      modifies `p, e`idx
      ensures p == old(p)[hole := e] && Indexed(p)
    {
      p := p[hole := e];
      assert forall i :: 0 <= i < |p| && i != hole ==> p[i] != p[hole];
      e.idx := hole;
    }

    /** With e in the hole, the array holds what it must, and all else is in order and knows its place. */
    ghost predicate Open(hole: nat, e: Node, goal: seq<Node>, nodes: set<Node>)
      reads `p, p`timeout, p`idx
    {
      && hole < |p| && Within(p, nodes) && e in nodes
      && OrderedBut(p, hole) && IndexedBut(p, hole) && NoDup(p[hole := e]) && SameElements(p[hole := e], goal)
    }

    /** An element moves into the hole; its own place is the hole then. */
    method Shift(hole: nat, from: nat, e: Node, ghost goal: seq<Node>, ghost nodes: set<Node>)
      requires Open(hole, e, goal, nodes) && from < |p| && from != hole
      requires OrderedBut(p[hole := p[from]], from)
      modifies `p, nodes`idx
      ensures Open(from, e, goal, nodes) && p == old(p)[hole := old(p)[from]]
    {
      HoleMoved(p, hole, from, e);
      SameAgain(p[hole := p[from]][from := e], p[hole := e], goal);
      hide OrderedBut, SameElements, NoDup, IndexedBut, Within;
      MoveInto(hole, from, e, nodes);
    }

    method Close(hole: nat, e: Node, ghost goal: seq<Node>, ghost nodes: set<Node>)
      requires Open(hole, e, goal, nodes) && Ordered(p[hole := e])
      modifies `p, nodes`idx
      ensures Valid() && SameElements(p, goal) && Within(p, nodes)
    {
      hide OrderedBut, SameElements, NoDup, IndexedBut, Ordered;
      Fill(hole, e);
    }

    /** min_heap_shift_up_: the element goes into the hole, or up as long as the parent comes later. */
    method ShiftUp(start: nat, e: Node, ghost nodes: set<Node>)
      requires Within(p, nodes) && e in nodes
      requires start < |p| && OrderedBut(p, start) && IndexedBut(p, start) && NoDup(p[start := e])
      requires Below(p, start, e.timeout)
      modifies `p, nodes`idx
      ensures Valid() && SameElements(p, old(p)[start := e]) && Within(p, nodes)
    {
      var hole: nat := start;
      ghost var goal := p[start := e];
      SameSelf(goal);
      hide OrderedBut, Below, Ordered, SameElements, NoDup, IndexedBut, Indexed, Within;
      while hole > 0 && p[Parent(hole)].timeout > e.timeout
        modifies `p, nodes`idx
        invariant Open(hole, e, goal, nodes) && Below(p, hole, e.timeout)
        decreases hole
      {
        var parent := Parent(hole);
        UpStep(p, hole, e.timeout);
        Shift(hole, parent, e, goal, nodes);
        hole := parent;
      }
      Placed(p, hole, e);
      Close(hole, e, goal, nodes);
    }
 
    /** min_heap_shift_up_unconditional_: the same, when the parent is known to come later */
    method ShiftUpUnconditional(start: nat, e: Node, ghost nodes: set<Node>)
      requires Within(p, nodes) && e in nodes
      requires start < |p| && OrderedBut(p, start) && IndexedBut(p, start) && NoDup(p[start := e])
      requires Below(p, start, e.timeout)
      requires start > 0 && p[Parent(start)].timeout > e.timeout
      modifies `p, nodes`idx
      ensures Valid() && SameElements(p, old(p)[start := e]) && Within(p, nodes)
    {
      ghost var goal := p[start := e];
      SameSelf(goal);
      UpStep(p, start, e.timeout);
      hide OrderedBut, Below, Ordered, SameElements, NoDup, IndexedBut, Indexed, Within;
      Shift(start, Parent(start), e, goal, nodes);
      ghost var filled := p[Parent(start) := e];
      ShiftUp(Parent(start), e, nodes);
      SameAgain(p, filled, goal);
    }

    /** min_heap_shift_down_: the element goes into the hole, or down as long as a child comes earlier. */
    method ShiftDown(start: nat, e: Node, ghost nodes: set<Node>)
      requires Within(p, nodes) && e in nodes
      requires start < |p| && OrderedBut(p, start) && IndexedBut(p, start) && NoDup(p[start := e])
      requires start > 0 ==> p[Parent(start)].timeout <= e.timeout
      modifies `p, nodes`idx
      ensures Valid() && SameElements(p, old(p)[start := e]) && Within(p, nodes)
    {
      var hole: nat := start;
      ghost var goal := p[start := e];
      SameSelf(goal);
      hide OrderedBut, Below, Ordered, SameElements, NoDup, IndexedBut, Indexed, Within;
      var done := false;
      while !done && 2 * (hole + 1) <= |p|
        modifies `p, nodes`idx
        invariant Open(hole, e, goal, nodes)
        invariant hole > 0 ==> p[Parent(hole)].timeout <= e.timeout
        invariant done ==> Below(p, hole, e.timeout)
        decreases |p| - hole, !done
      {
        hole, done := DownOnce(hole, e, goal, nodes);
      }
      if !done {
        NoChildren(p, hole, e.timeout);
      }
      Placed(p, hole, e);
      Close(hole, e, goal, nodes);
    }

    /** One turn of the loop: the child that comes first moves up, unless it comes no earlier than the element. */
    method DownOnce(hole: nat, e: Node, ghost goal: seq<Node>, ghost nodes: set<Node>) returns (next: nat, done: bool)
      requires Open(hole, e, goal, nodes) && 2 * (hole + 1) <= |p|
      requires hole > 0 ==> p[Parent(hole)].timeout <= e.timeout
      modifies `p, nodes`idx
      ensures Open(next, e, goal, nodes) && |p| == |old(p)|
      ensures next > 0 ==> p[Parent(next)].timeout <= e.timeout
      ensures if done then next == hole && Below(p, hole, e.timeout) else next > hole
    {
      hide OrderedBut, Below, SameElements, NoDup, IndexedBut;
      var minChild := 2 * (hole + 1);
      if minChild == |p| || p[minChild].timeout > p[minChild - 1].timeout {
        minChild := minChild - 1;
      }
      ChildrenBelow(p, hole, minChild);
      if !(e.timeout > p[minChild].timeout) {
        BelowAll(p, hole, p[minChild].timeout, e.timeout);
        return hole, true;
      }
      DownStep(p, hole, minChild);
      Shift(hole, minChild, e, goal, nodes);
      next, done := minChild, false;
    }

    ghost predicate Has(e: Node)
      reads this
    {
      e in p
    }

    /** min_heap_push_ */
    method Push(e: Node)
      requires Valid() && e.idx == -1
      modifies this, p`idx, e`idx
      ensures Valid() && Has(e) && e.idx >= 0
      ensures forall x :: Has(x) <==> x == e || x in old(p)
    {
      PushFacts(p, e);
      ghost var was := p;
      p := p + [e];
      ghost var goal := p[|p| - 1 := e];
      assert goal == was + [e];
      hide OrderedBut, Below, Ordered, NoDup, IndexedBut, Indexed, SameElements;
      ShiftUp(|p| - 1, e, (set x | x in was) + {e});
      PushedSame(p, was, e);
    }

    /** min_heap_top_ */
    method Top() returns (e: Node?)
      requires Valid()
      ensures (e == null <==> p == []) && (e != null ==> e == p[0])
      ensures e != null ==> Has(e) && forall x: Node :: Has(x) ==> e.timeout <= x.timeout
    {
      if p == [] {
        return null;
      }
      e := p[0];
      forall x: Node | Has(x)
        ensures p[0].timeout <= x.timeout
      {
        var i :| 0 <= i < |p| && p[i] == x;
        TopIsLeast(p, i);
      }
    }

    /** min_heap_erase_ */
    method Erase(e: Node) returns (r: int)
      requires Valid() && (e.idx != -1 ==> Has(e))
      modifies this, p`idx, e`idx
      ensures Valid() && e.idx == -1
      ensures r == if old(e.idx) == -1 then -1 else 0
      ensures forall x :: Has(x) <==> x in old(p) && (x != e || r == -1)
    {
      if e.idx == -1 {
        return -1;
      }
      r := Detach(e, set x | x in p);
      e.idx := -1;
    }

    /** An element fills the hole, and goes up or down from there as needed: never both. */
    method Refill(hole: nat, e: Node, ghost nodes: set<Node>)
      requires Within(p, nodes) && e in nodes
      requires hole < |p| && OrderedBut(p, hole) && IndexedBut(p, hole) && NoDup(p[hole := e])
      requires hole > 0 && p[Parent(hole)].timeout > e.timeout ==> Below(p, hole, e.timeout)
      modifies `p, nodes`idx
      ensures Valid() && SameElements(p, old(p)[hole := e]) && Within(p, nodes)
    {
      hide OrderedBut, Below, Ordered, NoDup, IndexedBut, Indexed, SameElements, Within;
      if hole > 0 && p[Parent(hole)].timeout > e.timeout {
        ShiftUpUnconditional(hole, e, nodes);
      } else {
        ShiftDown(hole, e, nodes);
      }
    }

    /** The last element takes the place of this one, and goes up or down from there. */
    method Detach(e: Node, ghost nodes: set<Node>) returns (r: int)
      requires Valid() && e.idx != -1 && Has(e) && Within(p, nodes)
      modifies `p, nodes`idx
      ensures Valid() && !Has(e) && r == 0 && Within(p, nodes)
      ensures forall x :: Has(x) <==> x in old(p) && x != e
    {
      var hole, last := e.idx, p[|p| - 1];
      ghost var was := p;
      r := 0;
      p := p[..|p| - 1];
      DetachFacts(was, hole, e, nodes);
      hide OrderedBut, Below, Ordered, NoDup, IndexedBut, Indexed, SameElements, Within;
      if hole == |p| {
        DetachedLast(was, e);
      } else {
        Refill(hole, last, nodes);
        DetachedSame(p, was, hole, e);
      }
    }

    /** min_heap_pop_ */
    method Pop() returns (e: Node?)
      requires Valid()
      modifies this, p`idx
      ensures Valid() && (e == null <==> old(p) == [])
      ensures e != null ==> e in old(p) && e.idx == -1 && forall x: Node :: x in old(p) ==> e.timeout <= x.timeout
      ensures forall x :: Has(x) <==> x in old(p) && x != e
    {
      e := Top();
      if e == null {
        return;
      }
      ghost var was := p;
      assert e == p[0];
      var r := Detach(e, set x | x in p);
      e.idx := -1;
    }

    /** min_heap_adjust_, after the time of the element has changed */
    method Adjust(e: Node)
      requires if e.idx == -1 then Valid()
               else Indexed(p) && 0 <= e.idx < |p| && p[e.idx] == e && OrderedBut(p, e.idx)
      modifies this, p`idx, e`idx
      ensures Valid() && forall x :: Has(x) <==> x == e || x in old(p)
    {
      if e.idx == -1 {
        Push(e);
        return;
      }
      var hole: nat := e.idx;
      AdjustFacts(p, hole, e);
      ghost var was := p;
      hide OrderedBut, Below, Ordered, NoDup, IndexedBut, SameElements;
      Refill(hole, e, set x | x in p);
      SameHas(p, was);
    }
  }

  lemma DetachFacts(was: seq<Node>, hole: nat, e: Node, nodes: set<Node>)
    requires Within(was, nodes) && Indexed(was) && Ordered(was) && e in was && e.idx == hole
    ensures Within(was[..|was| - 1], nodes) && was[|was| - 1] in nodes
    ensures hole < |was| && was[hole] == e && NoDup(was) && Indexed(was[..|was| - 1]) && Ordered(was[..|was| - 1])
    ensures var p, last := was[..|was| - 1], was[|was| - 1];
            hole < |p| ==>
              && OrderedBut(p, hole) && IndexedBut(p, hole) && NoDup(p[hole := last])
              && (hole > 0 && p[Parent(hole)].timeout > last.timeout ==> Below(p, hole, last.timeout))
  {
    var i :| 0 <= i < |was| && was[i] == e;
  }

  lemma DetachedLast(was: seq<Node>, e: Node)
    requires was != [] && was[|was| - 1] == e && NoDup(was)
    ensures forall x :: x in was[..|was| - 1] <==> x in was && x != e
  {
    assert was == was[..|was| - 1] + [e];
  }

  lemma DetachedSame(p: seq<Node>, was: seq<Node>, hole: nat, e: Node)
    requires hole < |was| - 1 && was[hole] == e && NoDup(was)
    requires SameElements(p, was[..|was| - 1][hole := was[|was| - 1]])
    ensures forall x :: x in p <==> x in was && x != e
  {
    var filled := was[..|was| - 1][hole := was[|was| - 1]];
    assert forall i :: 0 <= i < |filled| ==> filled[i] == was[if i == hole then |was| - 1 else i];
    forall x
      ensures x in p <==> x in was && x != e
    {
      if x in p {
        var i :| 0 <= i < |p| && p[i] == x;
        assert p[i] in filled;
      }
      if x in was && x != e {
        var j :| 0 <= j < |was| && was[j] == x;
        assert filled[if j == |was| - 1 then hole else j] in p;
      }
    }
  }

  lemma AdjustFacts(p: seq<Node>, hole: nat, e: Node)
    requires Indexed(p) && hole < |p| && p[hole] == e && OrderedBut(p, hole)
    ensures IndexedBut(p, hole) && NoDup(p[hole := e]) && p[hole := e] == p
    ensures hole > 0 && p[Parent(hole)].timeout > e.timeout ==> Below(p, hole, e.timeout)
  {
  }

  lemma SameHas(p: seq<Node>, was: seq<Node>)
    requires SameElements(p, was)
    ensures forall x :: x in p <==> x in was
  {
    forall x
      ensures x in p <==> x in was
    {
      if x in p {
        var i :| 0 <= i < |p| && p[i] == x;
      }
      if x in was {
        var i :| 0 <= i < |was| && was[i] == x;
      }
    }
  }

  lemma PushFacts(p: seq<Node>, e: Node)
    requires Indexed(p) && Ordered(p) && e.idx == -1
    ensures e !in p && NoDup((p + [e])[|p| := e]) && IndexedBut(p + [e], |p|) && OrderedBut(p + [e], |p|)
    ensures Below(p + [e], |p|, e.timeout)
  {
  }

  lemma PushedSame(p: seq<Node>, was: seq<Node>, e: Node)
    requires SameElements(p, was + [e])
    ensures forall x :: x in p <==> x == e || x in was
  {
    forall x
      ensures x in p <==> x == e || x in was
    {
      if x in p {
        var i :| 0 <= i < |p| && p[i] == x;
        assert p[i] in was + [e];
      }
      if x == e {
        assert (was + [e])[|was|] == e;
      }
      if x in was {
        var j :| 0 <= j < |was| && was[j] == x;
        assert (was + [e])[j] in p;
      }
    }
  }

  lemma {:induction false} TopIsLeast(p: seq<Node>, i: nat)
    requires Ordered(p) && i < |p|
    ensures p[0].timeout <= p[i].timeout
  {
    if i > 0 {
      TopIsLeast(p, Parent(i));
    }
  }

  lemma ChildrenBelow(p: seq<Node>, hole: nat, c: nat)
    requires c < |p| && (c == 2 * hole + 1 || c == 2 * hole + 2)
    requires c == 2 * hole + 1 ==> c + 1 >= |p| || p[c].timeout < p[c + 1].timeout
    requires c == 2 * hole + 2 ==> p[c].timeout <= p[c - 1].timeout
    ensures Below(p, hole, p[c].timeout) && Parent(c) == hole
  {
  }

  lemma BelowAll(p: seq<Node>, hole: nat, when: int, earlier: int)
    requires Below(p, hole, when) && earlier <= when
    ensures Below(p, hole, earlier)
  {
  }

  lemma NoChildren(p: seq<Node>, hole: nat, when: int)
    requires 2 * (hole + 1) > |p|
    ensures Below(p, hole, when)
  {
  }

  /** The child that comes first may move up into the hole. */
  lemma DownStep(p: seq<Node>, hole: nat, c: nat)
    requires hole < |p| && 0 < c < |p| && Parent(c) == hole && OrderedBut(p, hole)
    requires Below(p, hole, p[c].timeout)
    ensures OrderedBut(p[hole := p[c]], c)
  {
  }
}
