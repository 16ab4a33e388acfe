/**
 One side of the list book, `4_order_book_proj/data_structure_bench/list_str.cpp`: a sorted doubly linked
 list of blocks, best first, with an index from order numbers to blocks.
 */
module SortedList {
  import opened Memory
  import opened Trading
  import opened OrderBooks
  import opened Ranking
  import opened LinkedBlocks
  import opened Collections

  ghost predicate CarriesAt(cells: seq<Cell>, queue: seq<int>, ranking: seq<Order>, i: int)
    requires 0 <= i < |queue| == |ranking|
  {
    0 <= queue[i] < |cells| && cells[queue[i]].Block? && cells[queue[i]].order == ranking[i]
  }

  /** The blocks of the list hold the orders of the ranking. */
  ghost predicate Carries(cells: seq<Cell>, queue: seq<int>, ranking: seq<Order>) {
    && |queue| == |ranking|
    && (forall i {:trigger CarriesAt(cells, queue, ranking, i)} :: 0 <= i < |queue| ==> CarriesAt(cells, queue, ranking, i))
  }

  ghost predicate IndexedAt(index: map<nat, int>, queue: seq<int>, ranking: seq<Order>, i: int)
    requires 0 <= i < |queue| == |ranking|
  {
    ranking[i].id in index && index[ranking[i].id] == queue[i]
  }

  /** The index has the block of every order, and nothing else. */
  ghost predicate Indexed(index: map<nat, int>, queue: seq<int>, ranking: seq<Order>, quotes: Quotes)
    requires |queue| == |ranking|
  {
    && index.Keys == quotes.Keys
    && (forall i {:trigger IndexedAt(index, queue, ranking, i)} :: 0 <= i < |queue| ==> IndexedAt(index, queue, ranking, i))
  }

  /** Every block that is not deleted is on the list. */
  ghost predicate NoLeak(cells: seq<Cell>, queue: seq<int>) {
    forall b {:trigger b in queue} :: 0 <= b < |cells| && cells[b].Block? ==> b in queue
  }

  /** What a list stands for: its blocks and their orders, best first. */
  datatype Shown = Shown(queue: seq<int>, ranking: seq<Order>)

  datatype Parts = Parts(cells: seq<Cell>, head: int, tail: int, index: map<nat, int>)

  ghost predicate Shows(side: Side, p: Parts, g: Shown, quotes: Quotes) {
    && Linked(p.cells, p.head, p.tail, g.queue)
    && Carries(p.cells, g.queue, g.ranking)
    && Ranks(side, g.ranking, quotes)
    && Indexed(p.index, g.queue, g.ranking, quotes)
    && NoLeak(p.cells, g.queue)
  }

  lemma ShowsAdded(side: Side, p: Parts, p': Parts, g: Shown, quotes: Quotes, o: Order, k: int)
    requires Shows(side, p, g, quotes) && o.id !in quotes
    requires PlaceOf(side, g.ranking, o, k)
    requires var b := |p.cells|;
      && Joined(p.cells, p'.cells, g.queue, k, b, o)
      && p'.head == (if k == 0 then b else p.head) && p'.tail == (if k == |g.queue| then b else p.tail)
      && p'.index == p.index[o.id := b]
    ensures Shows(side, p', Shown(Spliced(g.queue, k, |p.cells|), Inserted(g.ranking, k, o)), quotes[o.id := AsQuote(o)])
  {
    var b, q, r := |p.cells|, Spliced(g.queue, k, |p.cells|), Inserted(g.ranking, k, o);
    SplicedList(p.cells, p'.cells, p.head, p.tail, g.queue, k, b, o);
    RanksInserted(side, g.ranking, quotes, o, k);
    forall i | 0 <= i < |q| ensures CarriesAt(p'.cells, q, r, i) && IndexedAt(p'.index, q, r, i) {
      if i != k {
        var j := if i < k then i else i - 1;
        assert q[i] == g.queue[j] && r[i] == g.ranking[j];
        assert CarriesAt(p.cells, g.queue, g.ranking, j) && IndexedAt(p.index, g.queue, g.ranking, j);
      }
    }
    forall c {:trigger c in q} | 0 <= c < |p'.cells| && p'.cells[c].Block? ensures c in q {
      if c == b {
        assert q[k] == b;
      } else {
        assert c in g.queue;
        var i :| 0 <= i < |g.queue| && g.queue[i] == c;
        assert q[if i < k then i else i + 1] == c;
      }
    }
  }

  lemma ShowsRemoved(side: Side, p: Parts, p': Parts, g: Shown, quotes: Quotes, k: int)
    requires Shows(side, p, g, quotes) && 0 <= k < |g.queue|
    requires Unlinked(p.cells, p'.cells, g.queue, k)
    requires p'.head == (if k == 0 then Next(g.queue, 0) else p.head)
    requires p'.tail == (if k == |g.queue| - 1 then Prev(g.queue, k) else p.tail)
    requires p'.index == p.index - {g.ranking[k].id}
    ensures Shows(side, p', Shown(Without(g.queue, k), Without(g.ranking, k)), quotes - {g.ranking[k].id})
  {
    var q, r, id := Without(g.queue, k), Without(g.ranking, k), g.ranking[k].id;
    UnlinkedList(p.cells, p'.cells, p.head, p.tail, g.queue, k);
    RanksWithout(side, g.ranking, quotes, k);
    forall i | 0 <= i < |q| ensures CarriesAt(p'.cells, q, r, i) && IndexedAt(p'.index, q, r, i) {
      var j := if i < k then i else i + 1;
      assert q[i] == g.queue[j] && r[i] == g.ranking[j];
      assert CarriesAt(p.cells, g.queue, g.ranking, j) && IndexedAt(p.index, g.queue, g.ranking, j);
      assert r[i].id in quotes - {id};
    }
    forall c {:trigger c in q} | 0 <= c < |p'.cells| && p'.cells[c].Block? ensures c in q {
      assert c in g.queue;
      var i :| 0 <= i < |g.queue| && g.queue[i] == c;
      assert q[if i < k then i else i - 1] == c;
    }
  }

  lemma ShowsReduced(side: Side, p: Parts, p': Parts, g: Shown, quotes: Quotes, k: int, n: u32)
    requires Shows(side, p, g, quotes) && 0 <= k < |g.queue| && n < g.ranking[k].size
    requires 0 <= g.queue[k] < |p.cells| && p.cells[g.queue[k]].Block?
    requires p' == p.(cells := p.cells[g.queue[k] := p.cells[g.queue[k]].(order := g.ranking[k].(size := g.ranking[k].size - n))])
    ensures Shows(side, p', Shown(g.queue, g.ranking[k := g.ranking[k].(size := g.ranking[k].size - n)]),
                  Reduce(quotes, g.ranking[k].id, n))
  {
    var r := g.ranking[k := g.ranking[k].(size := g.ranking[k].size - n)];
    SameLinks(p.cells, p'.cells, p.head, p.tail, g.queue);
    RanksReduced(side, g.ranking, quotes, k, n);
    forall i | 0 <= i < |g.queue| ensures CarriesAt(p'.cells, g.queue, r, i) && IndexedAt(p.index, g.queue, r, i) {
      assert CarriesAt(p.cells, g.queue, g.ranking, i) && IndexedAt(p.index, g.queue, g.ranking, i);
      assert i != k ==> g.queue[i] != g.queue[k];
    }
    assert Reduce(quotes, g.ranking[k].id, n).Keys == quotes.Keys;
    forall c {:trigger c in g.queue} | 0 <= c < |p'.cells| && p'.cells[c].Block? ensures c in g.queue {
      assert p.cells[c].Block?;
    }
  }

  lemma PlaceFromFront(side: Side, q: seq<Order>, m: Quotes, o: Order, k: int)
    requires Ranks(side, q, m) && o.id !in m && 0 <= k <= |q|
    requires forall i :: 0 <= i < k ==> Ahead(side, q[i], o)
    requires k < |q| ==> !Ahead(side, q[k], o)
    ensures PlaceOf(side, q, o, k)
  {
    if k < |q| {
      assert q[k].id in m;
      forall i | k <= i < |q| ensures Ahead(side, o, q[i]) {
      }
    }
  }

  /** The index finds the block of an order, and its node. */
  lemma Found(side: Side, p: Parts, g: Shown, quotes: Quotes, id: nat) returns (k: int)
    requires Shows(side, p, g, quotes) && id in p.index
    ensures 0 <= k < |g.queue| && p.index[id] == g.queue[k] && g.ranking[k].id == id
  {
    assert Listed(g.ranking, id);
    k :| 0 <= k < |g.ranking| && g.ranking[k].id == id;
    assert IndexedAt(p.index, g.queue, g.ranking, k);
  }

  class ListSide {
    const side: Side
    /** The heap that the blocks are allocated in. */
    var cells: seq<Cell>
    var head: int
    var tail: int
    var index: map<nat, int>
    ghost var quotes: Quotes
    ghost var g: Shown

    ghost function View(): Parts
      reads this
    {
      Parts(cells, head, tail, index)
    }

    ghost predicate Valid()
      reads this
    {
      Shows(side, View(), g, quotes)
    }

    constructor (side: Side)
      ensures Valid() && this.side == side && quotes == map[]
    {
      this.side := side;
      cells, head, tail, index := [], NULL, NULL, map[];
      quotes, g := map[], Shown([], []);
    }

    /** Walks the list to the first block that is not ahead of `o`. */
    method FindPlace(o: Order) returns (cur: int, ghost k: int)
      requires Valid() && o.id !in quotes
      ensures PlaceOf(side, g.ranking, o, k) && cur == if k == |g.queue| then NULL else g.queue[k]
    {
      cur, k := head, 0;
      if g.queue != [] { assert CarriesAt(cells, g.queue, g.ranking, 0); }
      while cur != NULL && Ahead(side, cells[cur].order, o)
        invariant 0 <= k <= |g.queue| && cur == (if k == |g.queue| then NULL else g.queue[k])
        invariant cur != NULL ==> k < |g.queue| && CarriesAt(cells, g.queue, g.ranking, k)
        invariant forall i :: 0 <= i < k ==> Ahead(side, g.ranking[i], o)
        decreases |g.queue| - k
      {
        assert NodeAt(cells, g.queue, k);
        cur, k := cells[cur].next, k + 1;
        if k < |g.queue| { assert CarriesAt(cells, g.queue, g.ranking, k); }
      }
      if k < |g.queue| { assert CarriesAt(cells, g.queue, g.ranking, k); }
      PlaceFromFront(side, g.ranking, quotes, o, k);
    }

    method Add(o: Order)
      requires Valid() && o.id !in quotes
      modifies this
      ensures Valid() && quotes == old(quotes)[o.id := AsQuote(o)]
    {
      ghost var p := View();
      var cur;
      ghost var k;
      cur, k := FindPlace(o);
      Splice(o, cur, k);
      index := index[o.id := |cells| - 1];
      ShowsAdded(side, p, View(), g, quotes, o, k);
      g := Shown(Spliced(g.queue, k, |cells| - 1), Inserted(g.ranking, k, o));
      quotes := quotes[o.id := AsQuote(o)];
    }

    /** Allocates a block for `o` and links it in front of block `cur`, or at the end of the list. */
    method Splice(o: Order, cur: int, ghost k: int)
      requires Linked(cells, head, tail, g.queue) && 0 <= k <= |g.queue|
      requires cur == if k == |g.queue| then NULL else g.queue[k]
      modifies this`cells, this`head, this`tail
      ensures Joined(old(cells), cells, g.queue, k, old(|cells|), o)
      ensures head == (if k == 0 then old(|cells|) else old(head))
      ensures tail == (if k == |g.queue| then old(|cells|) else old(tail))
    {
      if k < |g.queue| { assert NodeAt(cells, g.queue, k); }
      if k > 0 { assert NodeAt(cells, g.queue, k - 1); }
      var node := |cells|;
      if cur != NULL {
        var prev := cells[cur].prev;
        cells := cells + [Block(o, prev, cur)];
        if prev != NULL {
          cells := cells[prev := cells[prev].(next := node)];
        } else {
          head := node;
        }
        cells := cells[cur := cells[cur].(prev := node)];
      } else {
        cells := cells + [Block(o, tail, NULL)];
        if tail != NULL {
          cells := cells[tail := cells[tail].(next := node)];
        } else {
          head := node;
        }
        tail := node;
      }
    }

    /** Takes block `n`, node `k`, off the list and deletes it. */
    method Unlink(n: int, ghost k: int)
      requires Linked(cells, head, tail, g.queue) && 0 <= k < |g.queue| && n == g.queue[k]
      modifies this`cells, this`head, this`tail
      ensures Unlinked(old(cells), cells, g.queue, k)
      ensures head == (if k == 0 then Next(g.queue, 0) else old(head))
      ensures tail == (if k == |g.queue| - 1 then Prev(g.queue, k) else old(tail))
    {
      assert NodeAt(cells, g.queue, k);
      if k > 0 { assert NodeAt(cells, g.queue, k - 1); }
      if k < |g.queue| - 1 { assert NodeAt(cells, g.queue, k + 1); }
      var prev, next := cells[n].prev, cells[n].next;
      if prev != NULL {
        cells := cells[prev := cells[prev].(next := next)];
      } else {
        head := next;
      }
      if next != NULL {
        cells := cells[next := cells[next].(prev := prev)];
      } else {
        tail := prev;
      }
      cells := cells[n := Freed];
    }

    /** Removes block `n`, node `k`, from the book. */
    method Remove(n: int, ghost k: int)
      requires Valid() && 0 <= k < |g.queue| && n == g.queue[k]
      modifies this
      ensures Valid() && quotes == old(quotes) - {old(g.ranking[k].id)}
    {
      ghost var p := View();
      assert CarriesAt(cells, g.queue, g.ranking, k);
      index := index - {cells[n].order.id};
      Unlink(n, k);
      ShowsRemoved(side, p, View(), g, quotes, k);
      quotes := quotes - {g.ranking[k].id};
      g := Shown(Without(g.queue, k), Without(g.ranking, k));
    }

    method Head() returns (some: bool, o: Order)
      requires Valid()
      ensures some ==> IsBest(side, quotes, o.id) && OrderIn(quotes, o.id) == o
      ensures !some ==> forall id :: id !in quotes
    {
      BestFirst(side, g.ranking, quotes);
      if g.queue != [] { assert CarriesAt(cells, g.queue, g.ranking, 0); }
      some := head != NULL;
      o := if some then cells[head].order else Order(0, 0, 0);
    }

    /** The best order loses `n` shares, and is unlinked if nothing is left of it. */
    method FillHead(n: u32, ghost id: nat)
      requires Valid() && IsBest(side, quotes, id) && n <= quotes[id].size
      modifies this
      ensures Valid() && quotes == Reduce(old(quotes), id, n)
    {
      ghost var p := View();
      BestFirst(side, g.ranking, quotes);
      BestIsUnique(side, quotes, g.ranking[0].id, id);
      assert CarriesAt(cells, g.queue, g.ranking, 0);
      var b := head;
      if n < cells[b].order.size {
        cells := cells[b := cells[b].(order := cells[b].order.(size := cells[b].order.size - n))];
        ShowsReduced(side, p, View(), g, quotes, 0, n);
        quotes := Reduce(quotes, id, n);
        g := Shown(g.queue, g.ranking[0 := g.ranking[0].(size := g.ranking[0].size - n)]);
      } else {
        Remove(b, 0);
      }
    }

    method Cancel(id: nat) returns (found: bool)
      requires Valid()
      modifies this
      ensures Valid() && (found <==> id in old(quotes)) && quotes == old(quotes) - {id}
    {
      if id !in index {
        assert quotes - {id} == quotes;
        return false;
      }
      ghost var k := Found(side, View(), g, quotes, id);
      Remove(index[id], k);
      return true;
    }
  }
}
