/** The circular doubly linked lists of cf_clist.c, tied to the sequence of their nodes. */
module CLists {

  /** CF_CListNode_t; a node outside any list points to itself. */
  class Node {
    var next: Node
    var prev: Node

    constructor ()
      ensures Alone()
    {
      next, prev := this, this;
    }

    ghost predicate Alone()
      reads this
    {
      next == this && prev == this
    }
  }

  function Succ(i: nat, n: nat): nat { if i + 1 < n then i + 1 else 0 }

  ghost predicate Distinct(ring: seq<Node>) {
    forall i, j :: 0 <= i < j < |ring| ==> ring[i] != ring[j]
  }

  /** The nodes form one ring: next and prev are mutually inverse along it. */
  ghost predicate Linked(ring: seq<Node>)
    reads ring
  {
    forall i :: 0 <= i < |ring| ==> ring[i].next == ring[Succ(i, |ring|)] && ring[Succ(i, |ring|)].prev == ring[i]
  }

  function Without(ring: seq<Node>, k: nat): seq<Node>
    requires k < |ring|
  {
    ring[..k] + ring[k + 1..]
  }

  /** A list: its head, and as a ghost the nodes in order. */
  class CList {
    var head: Node?
    ghost var ring: seq<Node>

    ghost predicate Valid()
      reads this, ring
    {
      && Distinct(ring) && Linked(ring)
      && head == if ring == [] then null else ring[0]
    }

    constructor ()
      ensures Valid() && ring == []
    {
      head, ring := null, [];
    }

    /** CF_CList_InsertFront. */
    method InsertFront(node: Node)
      requires Valid() && node !in ring && node.Alone()
      modifies this, ring, node
      ensures Valid() && ring == [node] + old(ring)
    {
      ghost var was := ring;
      InsertedFacts(was, 0, node);
      assert Inserted(was, 0, node) == [node] + was;
      if head != null {
        var last := head.prev;
        LastBeforeFirst(was);
        node.next := head;
        node.prev := last;
        last.next := node;
        head.prev := node;
        LinkedIn(was, 0, node);
      }
      head := node;
      ring := Inserted(was, 0, node);
    }

    /** CF_CList_InsertBack. */
    method InsertBack(node: Node)
      requires Valid() && node !in ring && node.Alone()
      modifies this, ring, node
      ensures Valid() && ring == Inserted(old(ring), |old(ring)|, node)
    {
      ghost var was := ring;
      InsertedFacts(was, |was|, node);
      if head == null {
        head := node;
      } else {
        var last := head.prev;
        LastBeforeFirst(was);
        node.next := head;
        head.prev := node;
        node.prev := last;
        last.next := node;
        LinkedIn(was, |was|, node);
      }
      ring := Inserted(was, |was|, node);
    }

    /** The rewiring of CF_CList_InsertAfter. */
    method LinkAfter(start: Node, after: Node, ghost k: nat)
      requires Valid() && k < |ring| && ring[k] == start && after !in ring
      modifies ring, after
      ensures Linked(Inserted(ring, k + 1, after))
    {
      ghost var was, n := ring, |ring|;
      Neighbours(was, k);
      after.next := start.next;
      start.next := after;
      after.prev := start;
      after.next.prev := after;
      hide Inserted;
      LinkedIn(was, k + 1, after);
    }

    /** CF_CList_InsertAfter; k is the position of start. */
    method InsertAfter(start: Node, after: Node, ghost k: nat)
      requires Valid() && k < |ring| && ring[k] == start && after !in ring
      modifies this, ring, after
      ensures Valid() && ring == Inserted(old(ring), k + 1, after)
    {
      InsertedFacts(ring, k + 1, after);
      hide Inserted;
      hide Linked;
      hide Distinct;
      LinkAfter(start, after, k);
      ring := Inserted(ring, k + 1, after);
    }

    /** The rewiring of CF_CList_Remove around a node that is not alone. */
    method Unlink(node: Node, ghost k: nat)
      requires Valid() && k < |ring| && ring[k] == node && |ring| > 1
      modifies ring
      ensures Linked(Without(ring, k)) && node.next == old(node.next)
    {
      ghost var was := ring;
      Neighbours(was, k);
      node.next.prev := node.prev;
      node.prev.next := node.next;
      LinkedOut(was, k);
      hide Without;
    }

    /** CF_CList_Remove; k is the position of node. */
    method Remove(node: Node, ghost k: nat)
      requires Valid() && k < |ring| && ring[k] == node
      modifies this, ring
      ensures Valid() && ring == Without(old(ring), k) && node.Alone()
    {
      ghost var rest := Without(ring, k);
      OnlyNode(ring, k);
      WithoutFacts(ring, k);
      Neighbours(ring, k);
      FirstLeft(ring, k);
      if node.next == node {
        head := null;
        node.next, node.prev := node, node;
        ring := rest;
      } else {
        hide Without;
        Unlink(node, k);
        if head == node {
          head := node.next;
        }
        node.next, node.prev := node, node;
        ring := rest;
      }
    }

    /** CF_CList_Pop. */
    method Pop() returns (node: Node?)
      requires Valid()
      modifies this, ring
      ensures Valid() && (node == null <==> old(ring) == [])
      ensures node != null ==> node == old(ring)[0] && node.Alone()
      ensures ring == if old(ring) == [] then [] else old(ring)[1..]
    {
      node := head;
      if node != null {
        assert Without(ring, 0) == ring[1..];
        Remove(node, 0);
      }
    }

    /** The callback of a traversal on one node, which may remove it. */
    method Visit(node: Node, r: Reaction, ghost k: nat)
      requires Valid() && k < |ring| && ring[k] == node
      modifies this, ring
      ensures Valid() && ring == if r.remove then Without(old(ring), k) else old(ring)
      ensures if r.remove then node.Alone() else node.next == old(node.next) && node.prev == old(node.prev)
    {
      if r.remove {
        Remove(node, k);
      }
    }

    /** One turn of the loop of CF_CList_Traverse at the i-th node. */
    method Turn(node: Node, start: Node, r: Reaction,
                ghost was: seq<Node>, ghost reactions: seq<Reaction>, ghost i: nat)
      returns (nodeNext: Node, startNext: Node, last: bool)
      requires Valid() && Distinct(was) && i < |was| && r == React(reactions, i)
      requires ring == Current(was, reactions, i) && ring != [] && node == was[i] && start == ring[0]
      requires forall x :: x in ring ==> x in was
      modifies this, was
      ensures Valid() && ring == Current(was, reactions, i + 1) && last == (i + 1 == |was|)
      ensures forall x :: x in ring ==> x in was
      ensures !last && !r.stop ==> ring != [] && nodeNext == was[i + 1] && startNext == ring[0]
    {
      hide Kept;
      hide Current;
      ghost var k := KeptCount(was, reactions, i);
      CurrentStep(was, reactions, i, k);
      NextIsStart(was, reactions, i, k);
      WithoutFacts(ring, k);
      Neighbours(ring, k);
      hide Linked;
      hide Distinct;
      nodeNext, startNext := node.next, start;
      last := nodeNext == start;
      assert forall j :: 0 <= j < |ring| ==> ring[j] in was;
      Visit(node, r, k);
      if !r.stop && start == node && node.next != nodeNext {
        startNext := nodeNext;
      }
    }

    /** The state of a traversal before its next call. */
    ghost predicate Traversing(was: seq<Node>, reactions: seq<Reaction>, i: nat, node: Node, start: Node, last: bool)
      reads this, ring
    {
      && Valid() && i <= |was| && ring == Current(was, reactions, i) && (forall x :: x in ring ==> x in was)
      && (forall j :: 0 <= j < i ==> !React(reactions, j).stop)
      && if last then i == |was| else i < |was| && ring != [] && node == was[i] && start == ring[0]
    }

    /** The loop of CF_CList_Traverse. */
    method TraverseFrom(first: Node, reactions: seq<Reaction>, ghost was: seq<Node>) returns (visited: seq<Node>)
      requires Valid() && ring == was && was != [] && first == ring[0]
      modifies this, was
      ensures Valid() && VisitedInOrder(was, reactions, visited) && ring == Current(was, reactions, |visited|)
    {
      hide Current;
      hide Linked;
      hide Distinct;
      visited := [];
      var start, node, last := first, first, false;
      CurrentStart(was, reactions);
      while !last
        invariant Traversing(was, reactions, |visited|, node, start, last) && visited == was[..|visited|]
        decreases |was| - |visited|, !last
      {
        var r := React(reactions, |visited|);
        var current := node;
        node, start, last := Turn(node, start, r, was, reactions, |visited|);
        visited := visited + [current];
        if r.stop {
          return;
        }
      }
    }

    /** CF_CList_Traverse from the head.  reactions says of each call of the callback whether it
        removes the node it is given and whether it ends the traversal. */
    method Traverse(reactions: seq<Reaction>) returns (visited: seq<Node>)
      requires Valid()
      modifies this, ring
      ensures Valid() && VisitedInOrder(old(ring), reactions, visited)
      ensures ring == Current(old(ring), reactions, |visited|)
    {
      visited := [];
      if head != null {
        visited := TraverseFrom(head, reactions, ring);
      }
    }

    /** One turn of the loop of CF_CList_Traverse_R, at the i-th node from the back. */
    method TurnBack(node: Node, end: Node, r: Reaction,
                    ghost was: seq<Node>, ghost reactions: seq<Reaction>, ghost i: nat)
      returns (nodeNext: Node, endNext: Node, last: bool)
      requires Valid() && Distinct(was) && i < |was| && r == React(reactions, i)
      requires ring == CurrentBack(was, reactions, i) && ring != []
      requires node == was[|was| - 1 - i] && end == ring[|ring| - 1]
      requires forall x :: x in ring ==> x in was
      modifies this, was
      ensures Valid() && ring == CurrentBack(was, reactions, i + 1) && last == (i + 1 == |was|)
      ensures forall x :: x in ring ==> x in was
      ensures !last && !r.stop ==> ring != [] && nodeNext == was[|was| - 2 - i] && endNext == ring[|ring| - 1]
    {
      hide KeptBack;
      hide CurrentBack;
      ghost var k := |was| - 1 - i;
      BackStep(was, reactions, i, k);
      PrevIsEnd(was, reactions, i, k);
      WithoutFacts(ring, k);
      Neighbours(ring, k);
      hide Linked;
      hide Distinct;
      nodeNext, endNext := node.prev, end;
      last := nodeNext == end;
      assert forall j :: 0 <= j < |ring| ==> ring[j] in was;
      Visit(node, r, k);
      if !r.stop && end == node && node.prev != nodeNext {
        endNext := nodeNext;
      }
    }

    /** The state of a reverse traversal before its next call. */
    ghost predicate TraversingBack(was: seq<Node>, reactions: seq<Reaction>, i: nat, node: Node, end: Node, last: bool)
      reads this, ring
    {
      && Valid() && i <= |was| && ring == CurrentBack(was, reactions, i) && (forall x :: x in ring ==> x in was)
      && (forall j :: 0 <= j < i ==> !React(reactions, j).stop)
      && if last then i == |was|
         else i < |was| && ring != [] && node == was[|was| - 1 - i] && end == ring[|ring| - 1]
    }

    /** One turn and the bookkeeping around it. */
    method StepBack(node: Node, end: Node, r: Reaction, visited: seq<Node>,
                    ghost was: seq<Node>, ghost reactions: seq<Reaction>)
      returns (nodeNext: Node, endNext: Node, last: bool, visitedNext: seq<Node>)
      requires TraversingBack(was, reactions, |visited|, node, end, false) && Distinct(was)
      requires r == React(reactions, |visited|) && VisitedBack(was, visited)
      modifies this, was
      ensures VisitedBack(was, visitedNext) && |visitedNext| == |visited| + 1
      ensures Valid() && ring == CurrentBack(was, reactions, |visitedNext|)
      ensures forall j :: 0 <= j < |visited| ==> !React(reactions, j).stop
      ensures !r.stop ==> TraversingBack(was, reactions, |visitedNext|, nodeNext, endNext, last)
    {
      hide CurrentBack;
      hide React;
      nodeNext, endNext, last := TurnBack(node, end, r, was, reactions, |visited|);
      visitedNext := visited + [node];
      hide Linked;
      hide Distinct;
    }

    /** CF_CList_Traverse_R, given the head of the list. */
    method TraverseBack(first: Node, reactions: seq<Reaction>, ghost was: seq<Node>) returns (visited: seq<Node>)
      requires Valid() && ring == was && was != [] && first == ring[0]
      modifies this, was
      ensures Valid() && VisitedInOrder(Reversed(was), reactions, visited)
      ensures ring == CurrentBack(was, reactions, |visited|)
    {
      LastBeforeFirst(was);
      visited := [];
      var node, last := first.prev, false;
      var end := node;
      BackStart(was, reactions);
      assert Distinct(was) && VisitedBack(was, []);
      hide CurrentBack;
      hide Linked;
      hide Distinct;
      hide VisitedBack;
      hide VisitedInOrder;
      while !last
        invariant TraversingBack(was, reactions, |visited|, node, end, last) && VisitedBack(was, visited)
        decreases |was| - |visited|, !last
      {
        var r := React(reactions, |visited|);
        node, end, last, visited := StepBack(node, end, r, visited, was, reactions);
        if r.stop {
          OrderBack(was, reactions, visited);
          return;
        }
      }
      OrderBack(was, reactions, visited);
    }
  }

  /** A reverse traversal has visited the nodes from the last on. */
  ghost predicate VisitedBack(was: seq<Node>, visited: seq<Node>) {
    |visited| <= |was| && forall j :: 0 <= j < |visited| ==> visited[j] == was[|was| - 1 - j]
  }

  lemma OrderBack(was: seq<Node>, reactions: seq<Reaction>, visited: seq<Node>)
    requires VisitedBack(was, visited)
    requires forall j :: 0 <= j < |visited| - 1 ==> !React(reactions, j).stop
    requires |visited| < |was| ==> visited != [] && React(reactions, |visited| - 1).stop
    ensures VisitedInOrder(Reversed(was), reactions, visited)
  {
    assert visited == Reversed(was)[..|visited|];
  }

  /** What the callback of a traversal does with the node it is given. */
  datatype Reaction = Reaction(remove: bool, stop: bool)

  function React(reactions: seq<Reaction>, i: nat): Reaction {
    if i < |reactions| then reactions[i] else Reaction(false, false)
  }

  /** Of the first i nodes, those that were not removed. */
  ghost function Kept(ring: seq<Node>, reactions: seq<Reaction>, i: nat): seq<Node>
    requires i <= |ring|
  {
    if i == 0 then []
    else Kept(ring, reactions, i - 1) + if React(reactions, i - 1).remove then [] else [ring[i - 1]]
  }

  /** The list after i calls of the callback. */
  ghost function Current(ring: seq<Node>, reactions: seq<Reaction>, i: nat): seq<Node>
    requires i <= |ring|
  {
    Kept(ring, reactions, i) + ring[i..]
  }

  ghost function KeptCount(ring: seq<Node>, reactions: seq<Reaction>, i: nat): nat
    requires i <= |ring|
  {
    |Kept(ring, reactions, i)|
  }

  lemma CurrentStart(ring: seq<Node>, reactions: seq<Reaction>)
    ensures Current(ring, reactions, 0) == ring
  {}

  /** One call takes the i-th node out of the list or leaves it. */
  lemma CurrentStep(ring: seq<Node>, reactions: seq<Reaction>, i: nat, k: nat)
    requires i < |ring| && k == KeptCount(ring, reactions, i)
    ensures var cur := Current(ring, reactions, i);
            && k < |cur| && cur[k] == ring[i]
            && Current(ring, reactions, i + 1) == if React(reactions, i).remove then Without(cur, k) else cur
  {}

  /** The successor of the visited node is where the traversal started just when it is the last. */
  lemma NextIsStart(ring: seq<Node>, reactions: seq<Reaction>, i: nat, k: nat)
    requires Distinct(ring) && i < |ring| && k == KeptCount(ring, reactions, i)
    requires k < |Current(ring, reactions, i)| && Distinct(Current(ring, reactions, i))
    ensures var cur := Current(ring, reactions, i);
            && (cur[Succ(k, |cur|)] == cur[0] <==> i + 1 == |ring|)
            && (i + 1 < |ring| ==> cur[Succ(k, |cur|)] == ring[i + 1] && ring[i + 1] != ring[i])
            && (i + 1 < |ring| ==> Current(ring, reactions, i + 1)[0] ==
                                   if k == 0 && React(reactions, i).remove then ring[i + 1] else cur[0])
            && (k > 0 ==> cur[0] != ring[i])
  {
    assert Current(ring, reactions, i)[k] == ring[i];
  }

  ghost function Reversed(ring: seq<Node>): (r: seq<Node>)
    ensures |r| == |ring| && forall i :: 0 <= i < |ring| ==> r[i] == ring[|ring| - 1 - i]
  {
    seq(|ring|, i requires 0 <= i < |ring| => ring[|ring| - 1 - i])
  }

  /** Of the last i nodes, those that a reverse traversal did not remove. */
  ghost function KeptBack(ring: seq<Node>, reactions: seq<Reaction>, i: nat): seq<Node>
    requires i <= |ring|
  {
    if i == 0 then []
    else (if React(reactions, i - 1).remove then [] else [ring[|ring| - i]]) + KeptBack(ring, reactions, i - 1)
  }

  /** The list after i calls of the callback of a reverse traversal. */
  ghost function CurrentBack(ring: seq<Node>, reactions: seq<Reaction>, i: nat): seq<Node>
    requires i <= |ring|
  {
    ring[..|ring| - i] + KeptBack(ring, reactions, i)
  }

  lemma BackStart(ring: seq<Node>, reactions: seq<Reaction>)
    ensures CurrentBack(ring, reactions, 0) == ring
  {}

  lemma Cut(ring: seq<Node>, k: nat, kept: seq<Node>)
    requires k < |ring|
    ensures var cur := ring[..k + 1] + kept;
            cur[k] == ring[k] && Without(cur, k) == ring[..k] + kept && cur == ring[..k] + ([ring[k]] + kept)
  {}

  lemma BackStep(ring: seq<Node>, reactions: seq<Reaction>, i: nat, k: nat)
    requires i < |ring| && k == |ring| - 1 - i
    ensures var cur := CurrentBack(ring, reactions, i);
            && k < |cur| && cur[k] == ring[k]
            && CurrentBack(ring, reactions, i + 1) == if React(reactions, i).remove then Without(cur, k) else cur
  {
    var kept := KeptBack(ring, reactions, i);
    assert KeptBack(ring, reactions, i + 1) == (if React(reactions, i).remove then [] else [ring[k]]) + kept;
    assert [] + kept == kept;
    hide KeptBack;
    hide Without;
    Cut(ring, k, kept);
  }

  lemma PrevIsEnd(ring: seq<Node>, reactions: seq<Reaction>, i: nat, k: nat)
    requires Distinct(ring) && i < |ring| && k == |ring| - 1 - i
    requires k < |CurrentBack(ring, reactions, i)| && Distinct(CurrentBack(ring, reactions, i))
    ensures var cur, next := CurrentBack(ring, reactions, i), CurrentBack(ring, reactions, i + 1);
            && (cur[Pred(k, |cur|)] == cur[|cur| - 1] <==> i + 1 == |ring|)
            && (k > 0 ==> cur[Pred(k, |cur|)] == ring[k - 1] && ring[k - 1] != ring[k])
            && (k > 0 ==> next[|next| - 1] ==
                          if k == |cur| - 1 && React(reactions, i).remove then ring[k - 1] else cur[|cur| - 1])
            && (k < |cur| - 1 ==> cur[|cur| - 1] != ring[k])
  {
    assert CurrentBack(ring, reactions, i)[k] == ring[k];
    BackStep(ring, reactions, i, k);
  }

  /** Each node once, in order, up to the call that ends the traversal. */
  ghost predicate VisitedInOrder(ring: seq<Node>, reactions: seq<Reaction>, visited: seq<Node>) {
    && |visited| <= |ring| && visited == ring[..|visited|]
    && (forall j :: 0 <= j < |visited| - 1 ==> !React(reactions, j).stop)
    && (|visited| < |ring| ==> visited != [] && React(reactions, |visited| - 1).stop)
  }

  function Inserted(ring: seq<Node>, at: nat, node: Node): seq<Node>
    requires at <= |ring|
  {
    ring[..at] + [node] + ring[at..]
  }

  /** The neighbours of a place in a ring. */
  function Before(at: nat, n: nat): nat
    requires 0 < n && at <= n
  {
    if at == 0 then n - 1 else at - 1
  }

  function Behind(at: nat, n: nat): nat
    requires 0 < n && at <= n
  {
    if at == n then 0 else at
  }

  /** A ring whose nodes at one place point to node instead of to each other. */
  lemma LinkedIn(ring: seq<Node>, at: nat, node: Node)
    requires ring != [] && at <= |ring| && Distinct(ring) && node !in ring
    requires forall i :: 0 <= i < |ring| ==>
               && ring[i].next == (if i == Before(at, |ring|) then node else ring[Succ(i, |ring|)])
               && ring[Succ(i, |ring|)].prev == (if i == Before(at, |ring|) then node else ring[i])
    requires node.next == ring[Behind(at, |ring|)] && node.prev == ring[Before(at, |ring|)]
    ensures Linked(Inserted(ring, at, node))
  {
    InsertedFacts(ring, at, node);
    hide Inserted;
    hide Distinct;
    var r, n := Inserted(ring, at, node), |ring|;
    forall i | 0 <= i < n + 1
      ensures r[i].next == r[Succ(i, n + 1)] && r[Succ(i, n + 1)].prev == r[i]
    {
      var o := if i < at then i else if i == at then Before(at, n) else i - 1;
      assert ring[o].next == if o == Before(at, n) then node else ring[Succ(o, n)];
    }
  }

  /** The successor of i in a ring that skips k. */
  function Skip(i: nat, k: nat, n: nat): nat {
    if Succ(i, n) == k then Succ(k, n) else Succ(i, n)
  }

  lemma LinkedOut(ring: seq<Node>, k: nat)
    requires 1 < |ring| && k < |ring|
    requires forall i :: 0 <= i < |ring| && i != k ==>
               ring[i].next == ring[Skip(i, k, |ring|)] && ring[Skip(i, k, |ring|)].prev == ring[i]
    ensures Linked(Without(ring, k))
  {
    var r, n := Without(ring, k), |ring|;
    forall i | 0 <= i < n - 1
      ensures r[i].next == r[Succ(i, n - 1)] && r[Succ(i, n - 1)].prev == r[i]
    {
      var o := if i < k then i else i + 1;
      assert r[i] == ring[o] && r[Succ(i, n - 1)] == ring[Skip(o, k, n)];
    }
  }

  lemma FirstLeft(ring: seq<Node>, k: nat)
    requires k < |ring|
    ensures Without(ring, k) == [] <==> |ring| == 1
    ensures |ring| > 1 ==> Without(ring, k)[0] == ring[if k == 0 then 1 else 0]
  {}

  lemma InsertedFacts(ring: seq<Node>, at: nat, node: Node)
    requires Distinct(ring) && at <= |ring| && node !in ring
    ensures var r := Inserted(ring, at, node);
            && Distinct(r) && |r| == |ring| + 1 && r[at] == node
            && (forall i :: 0 <= i < at ==> r[i] == ring[i])
            && (forall i :: at < i <= |ring| ==> r[i] == ring[i - 1])
  {}

  lemma WithoutFacts(ring: seq<Node>, k: nat)
    requires Distinct(ring) && k < |ring|
    ensures Distinct(Without(ring, k)) && ring[k] !in Without(ring, k)
    ensures forall x :: x in Without(ring, k) ==> x in ring
  {}

  function Pred(i: nat, n: nat): nat
    requires i < n
  {
    if i == 0 then n - 1 else i - 1
  }

  lemma Neighbours(ring: seq<Node>, k: nat)
    requires Distinct(ring) && Linked(ring) && k < |ring|
    ensures ring[k].next == ring[Succ(k, |ring|)] && ring[k].prev == ring[Pred(k, |ring|)]
  {
    assert Succ(Pred(k, |ring|), |ring|) == k;
  }

  lemma OnlyNode(ring: seq<Node>, k: nat)
    requires Distinct(ring) && Linked(ring) && k < |ring|
    ensures ring[k].next == ring[k] <==> |ring| == 1
  {}

  lemma LastBeforeFirst(ring: seq<Node>)
    requires ring != [] && Linked(ring)
    ensures ring[0].prev == ring[|ring| - 1] && ring[|ring| - 1].next == ring[0]
  {
    assert Succ(|ring| - 1, |ring|) == 0;
  }
}
