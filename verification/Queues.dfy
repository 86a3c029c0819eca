/** The queues of a channel with their size counters (cf_utils.h): every move keeps each node in
    exactly one queue, the counters equal to the ring lengths, and the total unchanged. */
module Queues {
  import opened CLists

  /** No node is in two of the rings. */
  ghost predicate Apart(rings: seq<seq<Node>>) {
    forall i, j, x :: 0 <= i < |rings| && 0 <= j < |rings| && i != j && x in rings[i] ==> x !in rings[j]
  }

  /** The part of CF_Channel_t and its housekeeping that holds queues. */
  class Channel {
    const qs: seq<CList>
    var qSize: seq<nat>
    ghost var nodes: set<Node>

    /** Queue i is a list of known nodes. */
    ghost predicate QueueOk(i: nat)
      requires i < |qs|
      reads this, qs, nodes
    {
      (forall x :: x in qs[i].ring ==> x in nodes) && qs[i].Valid()
    }

    /** The queues as sequences of nodes. */
    ghost function Rings(): (rings: seq<seq<Node>>)
      reads this, qs
      ensures |rings| == |qs| && forall i :: 0 <= i < |qs| ==> rings[i] == qs[i].ring
    {
      seq(|qs|, i requires 0 <= i < |qs| reads this, qs => qs[i].ring)
    }

    ghost predicate Valid()
      reads this, qs, nodes
    {
      && |qSize| == |qs|
      && (forall i, j :: 0 <= i < |qs| && 0 <= j < |qs| && i != j ==> qs[i] != qs[j])
      && (forall i :: 0 <= i < |qs| ==> QueueOk(i) && qSize[i] == |qs[i].ring|)
      && Apart(Rings())
    }

    /** What is left to check after a change of one queue. */
    lemma ValidWith(rings: seq<seq<Node>>)
      requires |rings| == |qs| == |qSize| && Apart(rings)
      requires forall i, j :: 0 <= i < |qs| && 0 <= j < |qs| && i != j ==> qs[i] != qs[j]
      requires forall i :: 0 <= i < |qs| ==> qs[i].ring == rings[i] && QueueOk(i) && qSize[i] == |rings[i]|
      ensures Valid() && Rings() == rings
    {}

    /** CF_CList_Remove_Ex, with which CF_DequeueTransaction begins as well; k is the position of node. */
    method RemoveEx(q: nat, node: Node, ghost k: nat)
      requires Valid() && q < |qs| && k < |qs[q].ring| && qs[q].ring[k] == node
      modifies this`qSize, qs, nodes
      ensures Valid() && node.Alone()
      ensures Rings() == old(Rings())[q := Without(old(qs[q].ring), k)]
      ensures forall i :: 0 <= i < |qs| ==> node !in qs[i].ring
    {
      assert QueueOk(q) && Distinct(qs[q].ring);
      hide CList.Valid;
      hide Rings;
      hide Distinct;
      hide Apart;
      hide Without;
      ghost var rings := Rings();
      ghost var after := rings[q := Without(rings[q], k)];
      RemovedFacts(rings, q, k);
      qs[q].Remove(node, k);
      forall i | 0 <= i < |qs|
        ensures qs[i].ring == after[i] && QueueOk(i)
      {
        if i != q {
          ApartPair(rings, i, q);
          assert old(QueueOk(i));
          StillValid(qs[i]);
        }
      }
      qSize := qSize[q := qSize[q] - 1];
      ValidWith(after);
      hide QueueOk;
    }

    /** CF_CList_InsertBack_Ex, of a node that is in no queue. */
    method InsertBackEx(q: nat, node: Node)
      requires Valid() && q < |qs| && node.Alone() && forall i :: 0 <= i < |qs| ==> node !in qs[i].ring
      modifies this, qs, nodes, node
      ensures Valid() && nodes == old(nodes) + {node}
      ensures Rings() == old(Rings())[q := Inserted(old(qs[q].ring), |old(qs[q].ring)|, node)]
    {
      hide CList.Valid;
      hide Rings;
      hide Apart;
      hide Inserted;
      assert QueueOk(q);
      ghost var rings := Rings();
      ApartInserted(rings, q, |rings[q]|, node);
      InsertedMembers(rings[q], |rings[q]|, node);
      qs[q].InsertBack(node);
      nodes := nodes + {node};
      forall i | 0 <= i < |qs| && i != q
        ensures qs[i].ring == rings[i] && QueueOk(i)
      {
        ApartPair(rings, i, q);
        assert old(QueueOk(i));
        StillValid(qs[i]);
      }
      qSize := qSize[q := qSize[q] + 1];
      ValidWith(rings[q := Inserted(rings[q], |rings[q]|, node)]);
      hide QueueOk;
    }

    /** CF_CList_InsertAfter_Ex, of a node that is in no queue; k is the position of start. */
    method InsertAfterEx(q: nat, start: Node, node: Node, ghost k: nat)
      requires Valid() && q < |qs| && k < |qs[q].ring| && qs[q].ring[k] == start
      requires forall i :: 0 <= i < |qs| ==> node !in qs[i].ring
      modifies this, qs, nodes, node
      ensures Valid() && nodes == old(nodes) + {node}
      ensures Rings() == old(Rings())[q := Inserted(old(qs[q].ring), k + 1, node)]
    {
      hide CList.Valid;
      hide Rings;
      hide Apart;
      hide Inserted;
      assert QueueOk(q);
      ghost var rings := Rings();
      ApartInserted(rings, q, k + 1, node);
      InsertedMembers(rings[q], k + 1, node);
      qs[q].InsertAfter(start, node, k);
      nodes := nodes + {node};
      forall i | 0 <= i < |qs| && i != q
        ensures qs[i].ring == rings[i] && QueueOk(i)
      {
        ApartPair(rings, i, q);
        assert old(QueueOk(i));
        StillValid(qs[i]);
      }
      qSize := qSize[q := qSize[q] + 1];
      ValidWith(rings[q := Inserted(rings[q], k + 1, node)]);
      hide QueueOk;
    }

    /** CF_MoveTransaction: from its queue, where it is at position k, to the back of another or of
        the same one. */
    method MoveTransaction(node: Node, from: nat, to: nat, ghost k: nat)
      requires Valid() && from < |qs| && to < |qs| && k < |qs[from].ring| && qs[from].ring[k] == node
      modifies this, qs, nodes
      ensures Valid() && nodes == old(nodes)
      ensures Rings() == Moved(old(Rings()), from, to, k)
    {
      assert QueueOk(from);
      RemoveEx(from, node, k);
      InsertBackEx(to, node);
    }
  }

  /** The rings after the node at position k of one queue went to the back of another. */
  function Moved(rings: seq<seq<Node>>, from: nat, to: nat, k: nat): seq<seq<Node>>
    requires from < |rings| && to < |rings| && k < |rings[from]|
  {
    var taken := rings[from := Without(rings[from], k)];
    taken[to := Inserted(taken[to], |taken[to]|, rings[from][k])]
  }

  /** A list none of whose nodes was touched is still a list. */
  twostate lemma StillValid(l: CList)
    requires old(l.Valid()) && unchanged(l) && forall x :: x in old(l.ring) ==> unchanged(x)
    ensures l.Valid()
  {
    var ring := l.ring;
    forall i | 0 <= i < |ring|
      ensures ring[i].next == ring[Succ(i, |ring|)] && ring[Succ(i, |ring|)].prev == ring[i]
    {
      assert ring[i] in ring && ring[Succ(i, |ring|)] in ring;
      assert old(ring[i].next == ring[Succ(i, |ring|)] && ring[Succ(i, |ring|)].prev == ring[i]);
    }
  }

  lemma ApartWithout(rings: seq<seq<Node>>, q: nat, k: nat)
    requires Apart(rings) && q < |rings| && k < |rings[q]| && Distinct(rings[q])
    ensures var after := rings[q := Without(rings[q], k)];
            Apart(after) && forall i :: 0 <= i < |after| ==> rings[q][k] !in after[i]
  {
    WithoutFacts(rings[q], k);
  }

  lemma RemovedFacts(rings: seq<seq<Node>>, q: nat, k: nat)
    requires Apart(rings) && q < |rings| && k < |rings[q]| && Distinct(rings[q])
    ensures var after := rings[q := Without(rings[q], k)];
            Apart(after) && forall i :: 0 <= i < |after| ==> rings[q][k] !in after[i]
    ensures |Without(rings[q], k)| == |rings[q]| - 1
    ensures forall x :: x in Without(rings[q], k) ==> x in rings[q]
  {
    WithoutFacts(rings[q], k);
    ApartWithout(rings, q, k);
  }

  lemma ApartPair(rings: seq<seq<Node>>, i: nat, q: nat)
    requires Apart(rings) && i < |rings| && q < |rings| && i != q
    ensures forall x :: x in rings[i] ==> x !in rings[q]
  {}

  lemma InsertedMembers(ring: seq<Node>, at: nat, node: Node)
    requires at <= |ring|
    ensures |Inserted(ring, at, node)| == |ring| + 1
    ensures forall x :: x in Inserted(ring, at, node) ==> x == node || x in ring
  {}

  lemma ApartInserted(rings: seq<seq<Node>>, q: nat, at: nat, node: Node)
    requires Apart(rings) && q < |rings| && at <= |rings[q]| && forall i :: 0 <= i < |rings| ==> node !in rings[i]
    ensures Apart(rings[q := Inserted(rings[q], at, node)])
  {
    assert forall x :: x in Inserted(rings[q], at, node) ==> x == node || x in rings[q];
  }

  // ------------------------------------------------------------------ conservation

  function Total(rings: seq<seq<Node>>): nat {
    if rings == [] then 0 else |rings[|rings| - 1]| + Total(rings[..|rings| - 1])
  }

  lemma {:induction false} TotalUpdate(rings: seq<seq<Node>>, q: nat, ring: seq<Node>)
    requires q < |rings|
    ensures Total(rings[q := ring]) == Total(rings) - |rings[q]| + |ring|
  {
    var n := |rings| - 1;
    if q < n {
      TotalUpdate(rings[..n], q, ring);
      assert rings[q := ring][..n] == rings[..n][q := ring];
    } else {
      assert rings[q := ring][..n] == rings[..n];
    }
  }

  /** A move keeps the number of queued transactions and which nodes are queued, and leaves every
      other queue alone. */
  lemma MoveConserves(rings: seq<seq<Node>>, from: nat, to: nat, k: nat)
    requires from < |rings| && to < |rings| && k < |rings[from]|
    ensures Total(Moved(rings, from, to, k)) == Total(rings)
    ensures forall i :: 0 <= i < |rings| && i != from && i != to ==> Moved(rings, from, to, k)[i] == rings[i]
    ensures forall i :: 0 <= i < |rings| && i == to ==>
              var after := Moved(rings, from, to, k)[i]; after != [] && after[|after| - 1] == rings[from][k]
  {
    var taken := rings[from := Without(rings[from], k)];
    TotalUpdate(rings, from, Without(rings[from], k));
    TotalUpdate(taken, to, Inserted(taken[to], |taken[to]|, rings[from][k]));
  }

  datatype Move = Move(from: nat, to: nat, k: nat)

  predicate CanMove(rings: seq<seq<Node>>, m: Move) {
    m.from < |rings| && m.to < |rings| && m.k < |rings[m.from]|
  }

  /** Where a sequence of moves leads; a move of a node that is not there does nothing. */
  function MoveAll(rings: seq<seq<Node>>, moves: seq<Move>): seq<seq<Node>>
    decreases |moves|
  {
    if moves == [] then rings
    else
      var m := moves[0];
      MoveAll(if CanMove(rings, m) then Moved(rings, m.from, m.to, m.k) else rings, moves[1..])
  }

  /** The nodes of all queues. */
  ghost predicate Queued(rings: seq<seq<Node>>, x: Node) {
    exists i :: 0 <= i < |rings| && x in rings[i]
  }

  ghost predicate AllDistinct(rings: seq<seq<Node>>) {
    forall i :: 0 <= i < |rings| ==> Distinct(rings[i])
  }

  lemma MovedKeeps(rings: seq<seq<Node>>, m: Move, x: Node)
    requires Apart(rings) && AllDistinct(rings) && CanMove(rings, m)
    ensures var after := Moved(rings, m.from, m.to, m.k);
            Apart(after) && AllDistinct(after) && (Queued(after, x) <==> Queued(rings, x))
  {
    var node := rings[m.from][m.k];
    var taken := rings[m.from := Without(rings[m.from], m.k)];
    ApartWithout(rings, m.from, m.k);
    WithoutFacts(rings[m.from], m.k);
    ApartInserted(taken, m.to, |taken[m.to]|, node);
    InsertedFacts(taken[m.to], |taken[m.to]|, node);
    QueuedWithout(rings, m.from, m.k, x);
    QueuedInserted(taken, m.to, node, x);
    hide Apart;
    hide Distinct;
    hide Queued;
  }

  lemma QueuedWithout(rings: seq<seq<Node>>, q: nat, k: nat, x: Node)
    requires q < |rings| && k < |rings[q]|
    ensures var taken := rings[q := Without(rings[q], k)];
            (Queued(taken, x) ==> Queued(rings, x)) && (Queued(rings, x) ==> x == rings[q][k] || Queued(taken, x))
    ensures Queued(rings, rings[q][k])
  {
    var taken := rings[q := Without(rings[q], k)];
    if Queued(taken, x) {
      var i :| 0 <= i < |taken| && x in taken[i];
      assert x in rings[i];
    }
    if Queued(rings, x) && x != rings[q][k] {
      var i :| 0 <= i < |rings| && x in rings[i];
      var j :| 0 <= j < |rings[i]| && rings[i][j] == x;
      assert i == q ==> x == Without(rings[q], k)[if j < k then j else j - 1];
      assert x in taken[i];
    }
  }

  lemma QueuedInserted(rings: seq<seq<Node>>, q: nat, node: Node, x: Node)
    requires q < |rings|
    ensures Queued(rings[q := Inserted(rings[q], |rings[q]|, node)], x) <==> x == node || Queued(rings, x)
  {
    var after := rings[q := Inserted(rings[q], |rings[q]|, node)];
    assert Inserted(rings[q], |rings[q]|, node) == rings[q] + [node];
    if x == node {
      assert x in after[q];
    }
    if Queued(rings, x) {
      var i :| 0 <= i < |rings| && x in rings[i];
      assert x in after[i];
    }
  }

  /** Over any sequence of moves: each node stays in exactly one queue, the same nodes are queued,
      and there are as many of them. */
  lemma {:induction false} MovesConserve(rings: seq<seq<Node>>, moves: seq<Move>, x: Node)
    requires Apart(rings) && AllDistinct(rings)
    ensures var after := MoveAll(rings, moves);
            && Apart(after) && AllDistinct(after) && Total(after) == Total(rings)
            && (Queued(after, x) <==> Queued(rings, x))
    decreases |moves|
  {
    if moves != [] {
      hide Apart;
      hide AllDistinct;
      hide Queued;
      hide Moved;
      var m := moves[0];
      if CanMove(rings, m) {
        MovedKeeps(rings, m, x);
        MoveConserves(rings, m.from, m.to, m.k);
        MovesConserve(Moved(rings, m.from, m.to, m.k), moves[1..], x);
      } else {
        MovesConserve(rings, moves[1..], x);
      }
    }
  }
}
