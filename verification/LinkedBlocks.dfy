/**
 Doubly linked lists of order blocks, as the list book and the tick-offset book keep them.

 A pointer is the number of a cell of the heap, in order of allocation, and `NULL` is -1. A deleted
 block leaves a freed cell behind, which nothing can be read from.
 */
module LinkedBlocks {
  import opened Memory
  import opened OrderBooks
  import opened Collections

  /** BuyBlock and SellBlock of `base.hpp`. */
  datatype Cell = Freed | Block(order: Order, prev: int, next: int)

  ghost predicate NodeAt(cells: seq<Cell>, queue: seq<int>, i: int)
    requires 0 <= i < |queue|
  {
    && 0 <= queue[i] < |cells| && cells[queue[i]].Block?
    && cells[queue[i]].prev == (if i == 0 then NULL else queue[i - 1])
    && cells[queue[i]].next == (if i == |queue| - 1 then NULL else queue[i + 1])
  }

  /** `queue` is the list from `head` to `tail`. */
  ghost predicate Linked(cells: seq<Cell>, head: int, tail: int, queue: seq<int>) {
    && head == (if queue == [] then NULL else queue[0])
    && tail == (if queue == [] then NULL else queue[|queue| - 1])
    && (forall i {:trigger NodeAt(cells, queue, i)} :: 0 <= i < |queue| ==> NodeAt(cells, queue, i))
    && (forall i, j :: 0 <= i < j < |queue| ==> queue[i] != queue[j])
  }

  ghost predicate SameCells(cells: seq<Cell>, cells': seq<Cell>, queue: seq<int>) {
    |cells| <= |cells'| && forall i :: 0 <= i < |queue| && 0 <= queue[i] < |cells| ==> cells'[queue[i]] == cells[queue[i]]
  }

  /** A list does not depend on the cells of others. */
  lemma LinkedFrame(cells: seq<Cell>, cells': seq<Cell>, head: int, tail: int, queue: seq<int>)
    requires Linked(cells, head, tail, queue) && SameCells(cells, cells', queue)
    ensures Linked(cells', head, tail, queue)
  {
    forall i | 0 <= i < |queue| ensures NodeAt(cells', queue, i) {
      assert NodeAt(cells, queue, i);
    }
  }

  function Next(queue: seq<int>, k: int): int {
    if 0 <= k < |queue| - 1 then queue[k + 1] else NULL
  }

  function Prev(queue: seq<int>, k: int): int {
    if 0 < k <= |queue| then queue[k - 1] else NULL
  }

  /** Node `k` was taken off its list and deleted. */
  ghost predicate Unlinked(cells: seq<Cell>, cells': seq<Cell>, queue: seq<int>, k: int)
    requires 0 <= k < |queue|
  {
    var prev, next := Prev(queue, k), Next(queue, k);
    && |cells'| == |cells| && 0 <= queue[k] < |cells| && cells'[queue[k]] == Freed
    && (forall c :: 0 <= c < |cells| && c != queue[k] && c != prev && c != next ==> cells'[c] == cells[c])
    && (prev != NULL ==> 0 <= prev < |cells| && cells[prev].Block? && cells'[prev] == cells[prev].(next := next))
    && (next != NULL ==> 0 <= next < |cells| && cells[next].Block? && cells'[next] == cells[next].(prev := prev))
  }

  lemma UnlinkedNode(cells: seq<Cell>, cells': seq<Cell>, head: int, tail: int, queue: seq<int>, k: int, i: int)
    requires Linked(cells, head, tail, queue) && 0 <= k < |queue| && Unlinked(cells, cells', queue, k)
    requires 0 <= i < |queue| - 1
    ensures NodeAt(cells', Without(queue, k), i)
  {
    var q, j := Without(queue, k), if i < k then i else i + 1;
    assert q[i] == queue[j] && NodeAt(cells, queue, j);
    if i > 0 { assert q[i - 1] == queue[if i - 1 < k then i - 1 else i]; }
    if i + 1 < |queue| - 1 { assert q[i + 1] == queue[if i + 1 < k then i + 1 else i + 2]; }
  }

  lemma UnlinkedList(cells: seq<Cell>, cells': seq<Cell>, head: int, tail: int, queue: seq<int>, k: int)
    requires Linked(cells, head, tail, queue) && 0 <= k < |queue| && Unlinked(cells, cells', queue, k)
    ensures Linked(cells', if k == 0 then Next(queue, 0) else head, if k == |queue| - 1 then Prev(queue, k) else tail,
                   Without(queue, k))
  {
    var q := Without(queue, k);
    forall i | 0 <= i < |q| ensures NodeAt(cells', q, i) {
      UnlinkedNode(cells, cells', head, tail, queue, k, i);
    }
  }

  function Spliced(queue: seq<int>, k: int, b: int): seq<int>
    requires 0 <= k <= |queue|
  {
    queue[..k] + [b] + queue[k..]
  }

  /** A new block `b` was put in front of node `k`, or at the end. */
  ghost predicate Joined(cells: seq<Cell>, cells': seq<Cell>, queue: seq<int>, k: int, b: int, o: Order)
    requires 0 <= k <= |queue|
  {
    var prev, next := Prev(queue, k), if k < |queue| then queue[k] else NULL;
    && b == |cells| && |cells'| == |cells| + 1 && cells'[b] == Block(o, prev, next)
    && (forall c :: 0 <= c < |cells| && c != prev && c != next ==> cells'[c] == cells[c])
    && (prev != NULL ==> 0 <= prev < |cells| && cells[prev].Block? && cells'[prev] == cells[prev].(next := b))
    && (next != NULL ==> 0 <= next < |cells| && cells[next].Block? && cells'[next] == cells[next].(prev := b))
  }

  lemma SplicedNode(cells: seq<Cell>, cells': seq<Cell>, head: int, tail: int, queue: seq<int>, k: int, b: int, o: Order, i: int)
    requires Linked(cells, head, tail, queue) && 0 <= k <= |queue| && Joined(cells, cells', queue, k, b, o)
    requires 0 <= i <= |queue|
    ensures NodeAt(cells', Spliced(queue, k, b), i)
  {
    var q := Spliced(queue, k, b);
    if i != k {
      var j := if i < k then i else i - 1;
      assert q[i] == queue[j] && NodeAt(cells, queue, j);
    }
    if i > 0 && i - 1 != k { assert q[i - 1] == queue[if i - 1 < k then i - 1 else i - 2]; }
    if i < |queue| && i + 1 != k { assert q[i + 1] == queue[if i + 1 < k then i + 1 else i]; }
  }

  lemma SplicedList(cells: seq<Cell>, cells': seq<Cell>, head: int, tail: int, queue: seq<int>, k: int, b: int, o: Order)
    requires Linked(cells, head, tail, queue) && 0 <= k <= |queue| && Joined(cells, cells', queue, k, b, o)
    ensures Linked(cells', if k == 0 then b else head, if k == |queue| then b else tail, Spliced(queue, k, b))
  {
    var q := Spliced(queue, k, b);
    forall i | 0 <= i < |q| ensures NodeAt(cells', q, i) {
      SplicedNode(cells, cells', head, tail, queue, k, b, o, i);
    }
    forall i, j | 0 <= i < j < |q| ensures q[i] != q[j] {
      if i != k { assert q[i] == queue[if i < k then i else i - 1] && NodeAt(cells, queue, if i < k then i else i - 1); }
      if j != k { assert q[j] == queue[if j < k then j else j - 1] && NodeAt(cells, queue, if j < k then j else j - 1); }
    }
  }

  /** Only orders have changed, not links. */
  lemma SameLinks(cells: seq<Cell>, cells': seq<Cell>, head: int, tail: int, queue: seq<int>)
    requires Linked(cells, head, tail, queue) && |cells'| == |cells|
    requires forall c :: 0 <= c < |cells| ==>
      cells'[c] == cells[c] || (cells[c].Block? && cells'[c].Block? && cells'[c] == cells[c].(order := cells'[c].order))
    ensures Linked(cells', head, tail, queue)
  {
    forall i | 0 <= i < |queue| ensures NodeAt(cells', queue, i) {
      assert NodeAt(cells, queue, i);
    }
  }
}
