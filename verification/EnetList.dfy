/** The circular doubly linked list of toxtun/list.c. A list is its sentinel followed by its
    elements, each linked to the next and the last to the sentinel. */
module EnetList {

  class Node {
    var next: Node
    var previous: Node

    /** enet_list_clear: a sentinel linked to itself. */
    constructor ()
      ensures Ring([this]) && fresh(this)
    {
      next, previous := this, this;
    }
  }

  function After(n: nat, i: nat): (k: nat)
    requires i < n
    ensures k < n
  {
    if i + 1 < n then i + 1 else 0
  }

  ghost predicate Distinct(nodes: seq<Node>)
  {
    forall i, k :: 0 <= i < k < |nodes| ==> nodes[i] != nodes[k]
  }

  function Before(n: nat, i: nat): (k: nat)
    requires i < n
    ensures k < n
  {
    if i == 0 then n - 1 else i - 1
  }

  ghost predicate Linked(nodes: seq<Node>)
    reads nodes
  {
    forall i :: 0 <= i < |nodes| ==>
      nodes[i].next == nodes[After(|nodes|, i)] && nodes[i].previous == nodes[Before(|nodes|, i)]
  }

  ghost predicate Ring(nodes: seq<Node>)
    reads nodes
  {
    nodes != [] && Distinct(nodes) && Linked(nodes)
  }

  /** The node at position k, where the position after the last is the sentinel's. */
  function At(nodes: seq<Node>, k: nat): (x: Node)
    requires 0 < k <= |nodes|
  {
    if k < |nodes| then nodes[k] else nodes[0]
  }

  function Spliced(nodes: seq<Node>, k: nat, more: seq<Node>): (r: seq<Node>)
    requires k <= |nodes|
  {
    nodes[..k] + more + nodes[k..]
  }

  function Cut(nodes: seq<Node>, i: nat, j: nat): (r: seq<Node>)
    requires i <= j <= |nodes|
  {
    nodes[..i] + nodes[j..]
  }

  lemma Neighbours(nodes: seq<Node>, k: nat)
    requires Ring(nodes) && 0 < k <= |nodes|
    ensures At(nodes, k).previous == nodes[k - 1] && nodes[k - 1].next == At(nodes, k)
    ensures At(nodes, k) in nodes && nodes[k - 1] in nodes
  {
    assert nodes[k - 1].next == nodes[After(|nodes|, k - 1)];
  }

  lemma SplicedAt(nodes: seq<Node>, k: nat, more: seq<Node>)
    requires k <= |nodes|
    ensures var r := Spliced(nodes, k, more);
      && |r| == |nodes| + |more|
      && (forall i :: 0 <= i < k ==> r[i] == nodes[i])
      && (forall i :: k <= i < k + |more| ==> r[i] == more[i - k])
      && (forall i :: k + |more| <= i < |r| ==> r[i] == nodes[i - |more|])
  {
  }

  lemma SplicedDistinct(nodes: seq<Node>, k: nat, more: seq<Node>)
    requires Distinct(nodes) && Distinct(more) && k <= |nodes|
    requires forall x :: x in more ==> x !in nodes
    ensures Distinct(Spliced(nodes, k, more))
  {
    SplicedAt(nodes, k, more);
    var r := Spliced(nodes, k, more);
    forall i, j | 0 <= i < j < |r|
      ensures r[i] != r[j]
    {
      if k <= i < k + |more| || k <= j < k + |more| {
        assert k <= i < k + |more| ==> r[i] in more;
        assert k <= j < k + |more| ==> r[j] in more;
      }
    }
  }

  lemma CutAt(nodes: seq<Node>, i: nat, j: nat)
    requires i <= j <= |nodes|
    ensures var r := Cut(nodes, i, j);
      && |r| == |nodes| - (j - i)
      && (forall k :: 0 <= k < i ==> r[k] == nodes[k])
      && (forall k :: i <= k < |r| ==> r[k] == nodes[k + (j - i)])
  {
  }

  /** enet_list_insert: data goes in before the node at position k of the list. */
  method Insert(ghost nodes: seq<Node>, ghost k: nat, position: Node, data: Node) returns (result: Node)
    requires Ring(nodes) && 0 < k <= |nodes| && position == At(nodes, k) && data !in nodes
    modifies nodes, data
    ensures result == data && Ring(Spliced(nodes, k, [data]))
  {
    hide Spliced, Distinct;
    Neighbours(nodes, k);
    OneDistinct(data);
    DistinctAt(nodes);
    assert forall n :: 0 <= n < |nodes| ==> nodes[n] in nodes;
    result := data;
    result.previous := position.previous;
    result.next := position;
    result.previous.next := result;
    position.previous := result;
    JoinedRing(nodes, k, [data]);
  }

  lemma OneDistinct(x: Node)
    ensures Distinct([x])
  {
  }

  lemma DistinctAt(nodes: seq<Node>)
    requires Distinct(nodes)
    ensures forall i, j :: 0 <= i < |nodes| && 0 <= j < |nodes| && i != j ==> nodes[i] != nodes[j]
  {
  }

  lemma CutDistinct(nodes: seq<Node>, i: nat, j: nat)
    requires Distinct(nodes) && i <= j <= |nodes|
    ensures Distinct(Cut(nodes, i, j))
  {
    CutAt(nodes, i, j);
  }

  /** enet_list_remove: the node at position k leaves the list. */
  method Remove(ghost nodes: seq<Node>, ghost k: nat, position: Node) returns (result: Node)
    requires Ring(nodes) && 0 < k < |nodes| && position == nodes[k]
    modifies nodes
    ensures result == position && Ring(Cut(nodes, k, k + 1))
    ensures position.next == old(position.next) && position.previous == old(position.previous)
  {
    hide Cut, Distinct;
    Neighbours(nodes, k);
    Neighbours(nodes, k + 1);
    DistinctAt(nodes);
    position.previous.next := position.next;
    position.next.previous := position.previous;
    result := position;
    BypassedRing(nodes, k, k);
  }

  /** Each node of a range is linked to the next. */
  ghost predicate Chain(more: seq<Node>)
    reads more
  {
    forall m :: 0 <= m < |more| ==>
      (m + 1 < |more| ==> more[m].next == more[After(|more|, m)])
        && (m > 0 ==> more[m].previous == more[Before(|more|, m)])
  }

  /** The node before position i and the one after position j are linked to each other; all
      other links are those of the ring. */
  ghost predicate Bypassed(nodes: seq<Node>, i: nat, j: nat)
    requires 0 < i <= j < |nodes|
    reads nodes
  {
    && (forall n :: 0 <= n < |nodes| ==>
       nodes[n].next == if n == i - 1 then At(nodes, j + 1) else nodes[After(|nodes|, n)])
    && (forall n :: 0 <= n < |nodes| ==>
       nodes[n].previous == if n == After(|nodes|, j) then nodes[i - 1] else nodes[Before(|nodes|, n)])
  }

  lemma BypassedRing(nodes: seq<Node>, i: nat, j: nat)
    requires Distinct(nodes) && 0 < i <= j < |nodes| && Bypassed(nodes, i, j)
    ensures Ring(Cut(nodes, i, j + 1))
  {
    hide Cut, Distinct;
    CutAt(nodes, i, j + 1);
    CutDistinct(nodes, i, j + 1);
    var cut := Cut(nodes, i, j + 1);
    forall m | 0 <= m < |cut|
      ensures cut[m].next == cut[After(|cut|, m)] && cut[m].previous == cut[Before(|cut|, m)]
    {
      var n := if m < i then m else m + (j + 1 - i);
      assert cut[m] == nodes[n];
    }
  }

  lemma BypassedChain(nodes: seq<Node>, i: nat, j: nat)
    requires 0 < i <= j < |nodes| && Bypassed(nodes, i, j)
    ensures Chain(nodes[i..j + 1])
  {
    var more := nodes[i..j + 1];
    forall m | 0 <= m < |more|
      ensures (m + 1 < |more| ==> more[m].next == more[m + 1]) && (m > 0 ==> more[m].previous == more[m - 1])
    {
      assert more[m] == nodes[i + m];
    }
  }

  /** The first half of enet_list_move: the list closes over the range. */
  method Unlink(ghost nodes: seq<Node>, ghost i: nat, ghost j: nat, first: Node, last: Node)
    requires Ring(nodes) && 0 < i <= j < |nodes| && first == nodes[i] && last == nodes[j]
    modifies nodes
    ensures Ring(Cut(nodes, i, j + 1)) && Chain(nodes[i..j + 1])
  {
    hide Cut, Distinct, Chain;
    Neighbours(nodes, i);
    Neighbours(nodes, j + 1);
    DistinctAt(nodes);
    first.previous.next := last.next;
    last.next.previous := first.previous;
    BypassedRing(nodes, i, j);
    BypassedChain(nodes, i, j);
  }

  /** The second half: the range goes in before the node at position k. */
  method Link(ghost others: seq<Node>, ghost k: nat, ghost more: seq<Node>, position: Node, first: Node, last: Node)
    requires Ring(others) && 0 < k <= |others| && position == At(others, k)
    requires Chain(more) && Distinct(more) && more != [] && first == more[0] && last == more[|more| - 1]
    requires forall x :: x in more ==> x !in others
    modifies others, more
    ensures Ring(Spliced(others, k, more))
  {
    hide Spliced, Distinct;
    Neighbours(others, k);
    DistinctAt(others);
    DistinctAt(more);
    assert first in more && last in more;
    assert forall n :: 0 <= n < |others| ==> others[n] in others;
    assert forall m :: 0 <= m < |more| ==> more[m] in more;
    first.previous := position.previous;
    last.next := position;
    first.previous.next := first;
    position.previous := last;
    JoinedRing(others, k, more);
  }

  /** The range hangs between positions k - 1 and k; all other links are as they were. */
  ghost predicate Joined(others: seq<Node>, k: nat, more: seq<Node>)
    requires 0 < k <= |others| && more != []
    reads others, more
  {
    && (forall n :: 0 <= n < |others| ==> others[n].next == if n == k - 1 then more[0] else others[After(|others|, n)])
    && (forall n :: 0 <= n < |others| ==>
          others[n].previous == if n == After(|others|, k - 1) then more[|more| - 1] else others[Before(|others|, n)])
    && (forall m :: 0 <= m < |more| ==>
       more[m].next == if m + 1 < |more| then more[After(|more|, m)] else At(others, k))
    && (forall m :: 0 <= m < |more| ==> more[m].previous == if m > 0 then more[Before(|more|, m)] else others[k - 1])
  }

  lemma JoinedRing(others: seq<Node>, k: nat, more: seq<Node>)
    requires Distinct(others) && Distinct(more) && (forall x :: x in more ==> x !in others)
    requires 0 < k <= |others| && more != [] && Joined(others, k, more)
    ensures Ring(Spliced(others, k, more))
  {
    hide Spliced, Distinct;
    SplicedAt(others, k, more);
    SplicedDistinct(others, k, more);
    var r := Spliced(others, k, more);
    var h := |more|;
    assert |r| == |others| + h;
    forall m | 0 <= m < k
      ensures r[m].next == r[After(|r|, m)] && r[m].previous == r[Before(|r|, m)]
    {
      assert r[m] == others[m];
      assert others[m].next == if m == k - 1 then more[0] else others[After(|others|, m)];
      assert r[k] == more[0];
      assert others[m].previous == if m == After(|others|, k - 1) then more[|more| - 1]
        else others[Before(|others|, m)];
    }
    forall m | k <= m < |r|
      ensures r[m].next == r[After(|r|, m)] && r[m].previous == r[Before(|r|, m)]
    {
      if m < k + h {
        var e := m - k;
        assert r[m] == more[e];
        assert more[e].next == if e + 1 < h then more[e + 1] else At(others, k);
        assert more[e].previous == if e > 0 then more[e - 1] else others[k - 1];
        assert e + 1 < h ==> r[m + 1] == more[e + 1];
        assert e > 0 ==> r[m - 1] == more[e - 1];
        assert k < |others| ==> r[k + h] == others[k];
      } else {
        assert r[m] == others[m - h];
      }
    }
  }

  /** enet_list_move within a list: the range of positions i to j moves to before the node at
      position k of the rest. */
  method MoveWithin(ghost nodes: seq<Node>, ghost i: nat, ghost j: nat, ghost k: nat, position: Node, first: Node,
                    last: Node)
    returns (result: Node)
    requires Ring(nodes) && 0 < i <= j < |nodes| && first == nodes[i] && last == nodes[j]
    requires 0 < k <= |Cut(nodes, i, j + 1)| && position == At(Cut(nodes, i, j + 1), k)
    modifies nodes
    ensures result == first && Ring(Spliced(Cut(nodes, i, j + 1), k, nodes[i..j + 1]))
  {
    hide Cut, Spliced, Distinct, Chain, Linked;
    SliceDistinct(nodes, i, j + 1);
    CutApart(nodes, i, j + 1);
    ghost var rest := Cut(nodes, i, j + 1);
    assert forall n :: 0 <= n < |rest| ==> rest[n] in rest && rest[n] in nodes;
    Unlink(nodes, i, j, first, last);
    Link(rest, k, nodes[i..j + 1], position, first, last);
    result := first;
  }

  /** enet_list_move between lists: the range moves to before the node at position k of another
      list, and the list it came from closes over it. */
  method MoveToOther(ghost nodes: seq<Node>, ghost i: nat, ghost j: nat, ghost others: seq<Node>, ghost k: nat,
                     position: Node, first: Node, last: Node) returns (result: Node)
    requires Ring(nodes) && 0 < i <= j < |nodes| && first == nodes[i] && last == nodes[j]
    requires Ring(others) && forall x :: x in others ==> x !in nodes
    requires 0 < k <= |others| && position == At(others, k)
    modifies nodes, others
    ensures result == first && Ring(Cut(nodes, i, j + 1)) && Ring(Spliced(others, k, nodes[i..j + 1]))
  {
    hide Cut, Spliced, Distinct, Chain;
    SliceDistinct(nodes, i, j + 1);
    CutApart(nodes, i, j + 1);
    CutAt(nodes, i, j + 1);
    assert forall n :: 0 <= n < |others| ==> others[n] in others;
    Unlink(nodes, i, j, first, last);
    assert Linked(others);
    ghost var cut := Cut(nodes, i, j + 1);
    assert forall n :: 0 <= n < |cut| ==> cut[n] in cut && cut[n] !in others && cut[n] !in nodes[i..j + 1];
    Link(others, k, nodes[i..j + 1], position, first, last);
    result := first;
  }

  lemma CutApart(nodes: seq<Node>, i: nat, j: nat)
    requires Distinct(nodes) && i <= j <= |nodes|
    ensures forall x :: x in nodes[i..j] ==> x !in Cut(nodes, i, j)
    ensures forall x :: x in Cut(nodes, i, j) ==> x in nodes
  {
    CutAt(nodes, i, j);
  }

  lemma SliceDistinct(nodes: seq<Node>, i: nat, j: nat)
    requires Distinct(nodes) && i <= j <= |nodes|
    ensures Distinct(nodes[i..j]) && forall x :: x in nodes[i..j] ==> x in nodes
  {
  }

  /** enet_list_size */
  method Size(ghost nodes: seq<Node>, list: Node) returns (size: nat)
    requires Ring(nodes) && list == nodes[0]
    ensures size == |nodes| - 1
  {
    size := 0;
    var position := list.next;
    while position != list
      invariant size < |nodes| && position == nodes[After(|nodes|, size)]
      decreases |nodes| - size
    {
      size := size + 1;
      position := position.next;
    }
  }
}
