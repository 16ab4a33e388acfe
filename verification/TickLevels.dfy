/**
 How the price levels of the tick-offset book, `4_order_book_proj/data_structure_bench/tick_offset_str.cpp`,
 stand for one side of a book.
 */
module TickLevels {
  import opened Memory
  import opened Trading
  import opened OrderBooks
  import opened LinkedBlocks
  import opened Collections

  /** BuyList and SellList; `NoList` is the null pointer. */
  datatype Level = NoList | List(head: int, tail: int)

  /** The heap of blocks, the list of each price, and the block of each order. */
  datatype Ladder = Ladder(cells: seq<Cell>, levels: seq<Level>, keys: map<nat, int>)

  ghost predicate LevelAt(l: Ladder, queues: seq<seq<int>>, p: int)
    requires 0 <= p < |l.levels| == |queues|
  {
    match l.levels[p]
    case NoList => queues[p] == []
    case List(head, tail) => queues[p] != [] && Linked(l.cells, head, tail, queues[p])
  }

  ghost predicate PricedAt(cells: seq<Cell>, queue: seq<int>, p: int, i: int)
    requires 0 <= i < |queue|
  {
    0 <= queue[i] < |cells| && cells[queue[i]].Block? && cells[queue[i]].order.price == p
  }

  ghost predicate Older(cells: seq<Cell>, b: int, c: int) {
    0 <= b < |cells| && 0 <= c < |cells| && cells[b].Block? && cells[c].Block? && cells[b].order.id < cells[c].order.id
  }

  /** The blocks of a level have its price, and older ones come first. */
  ghost predicate OfPrice(cells: seq<Cell>, queue: seq<int>, p: int) {
    && (forall i {:trigger PricedAt(cells, queue, p, i)} :: 0 <= i < |queue| ==> PricedAt(cells, queue, p, i))
    && (forall i, j {:trigger Older(cells, queue[i], queue[j])} :: 0 <= i < j < |queue| ==> Older(cells, queue[i], queue[j]))
  }

  ghost predicate QueueAt(cells: seq<Cell>, queues: seq<seq<int>>, p: int)
    requires 0 <= p < |queues|
  {
    OfPrice(cells, queues[p], p)
  }

  /** A block that is not deleted is an order of the book, is on the list of its price, and has a key. */
  ghost predicate BlockAt(l: Ladder, queues: seq<seq<int>>, quotes: Quotes, b: int)
    requires 0 <= b < |l.cells|
  {
    l.cells[b].Block? ==>
      var o := l.cells[b].order;
      && 1 <= o.price < |queues| && b in queues[o.price]
      && o.id in quotes && quotes[o.id] == AsQuote(o)
      && o.id in l.keys && l.keys[o.id] == b
  }

  ghost predicate KeyAt(l: Ladder, quotes: Quotes, id: nat) {
    && (id in quotes <==> id in l.keys)
    && (id in l.keys ==> 0 <= l.keys[id] < |l.cells| && l.cells[l.keys[id]].Block? && l.cells[l.keys[id]].order.id == id)
  }

  ghost predicate Stands(l: Ladder, queues: seq<seq<int>>, quotes: Quotes) {
    && |l.levels| == |queues|
    && (forall p {:trigger LevelAt(l, queues, p)} :: 0 <= p < |queues| ==> LevelAt(l, queues, p))
    && (forall p {:trigger QueueAt(l.cells, queues, p)} :: 0 <= p < |queues| ==> QueueAt(l.cells, queues, p))
    && (forall b {:trigger BlockAt(l, queues, quotes, b)} :: 0 <= b < |l.cells| ==> BlockAt(l, queues, quotes, b))
    && (forall id: nat {:trigger KeyAt(l, quotes, id)} :: KeyAt(l, quotes, id))
  }

  // ---- an order joins ----

  /** Block `b` with order `o` was put at the end of the list of its price. */
  ghost predicate BlockAdded(l: Ladder, l': Ladder, queues: seq<seq<int>>, o: Order)
    requires |l.levels| == |queues| && o.price < |queues|
  {
    var b, q := |l.cells|, queues[o.price];
    && Joined(l.cells, l'.cells, q, |q|, b, o)
    && l'.levels == l.levels[o.price := if l.levels[o.price].NoList? then List(b, b) else List(l.levels[o.price].head, b)]
    && l'.keys == l.keys[o.id := b]
  }

  /** Cells of blocks with another price have not changed. */
  ghost predicate OnlyPrice(cells: seq<Cell>, cells': seq<Cell>, p: int) {
    && |cells| <= |cells'|
    && forall c :: 0 <= c < |cells| && cells'[c] != cells[c] ==> cells[c].Block? && cells[c].order.price == p
  }

  /** The orders of the blocks have not changed, but for block `b`. */
  ghost predicate SameOrders(cells: seq<Cell>, cells': seq<Cell>, b: int) {
    && |cells| <= |cells'|
    && forall c :: 0 <= c < |cells| && c != b ==>
         cells'[c] == cells[c] || (cells[c].Block? && cells'[c].Block? && cells'[c].order == cells[c].order)
  }

  lemma OtherLevel(l: Ladder, l': Ladder, queues: seq<seq<int>>, queues': seq<seq<int>>, price: int, p: int)
    requires 0 <= p < |queues| == |l.levels| == |queues'| == |l'.levels| && p != price
    requires LevelAt(l, queues, p) && QueueAt(l.cells, queues, p)
    requires OnlyPrice(l.cells, l'.cells, price)
    requires l'.levels[p] == l.levels[p] && queues'[p] == queues[p]
    ensures LevelAt(l', queues', p) && QueueAt(l'.cells, queues', p)
  {
    var q := queues[p];
    forall i | 0 <= i < |q| ensures PricedAt(l.cells, q, p, i) && PricedAt(l'.cells, q, p, i) && l'.cells[q[i]] == l.cells[q[i]] {
      assert PricedAt(l.cells, q, p, i);
    }
    forall i, j | 0 <= i < j < |q| ensures Older(l'.cells, q[i], q[j]) {
      assert Older(l.cells, q[i], q[j]) && PricedAt(l'.cells, q, p, i) && PricedAt(l'.cells, q, p, j);
    }
    if l.levels[p].List? { LinkedFrame(l.cells, l'.cells, l.levels[p].head, l.levels[p].tail, q); }
  }

  lemma JoinedOnly(cells: seq<Cell>, cells': seq<Cell>, queue: seq<int>, p: int, b: int, o: Order)
    requires Joined(cells, cells', queue, |queue|, b, o) && OfPrice(cells, queue, p)
    ensures OnlyPrice(cells, cells', p) && SameOrders(cells, cells', b)
  {
    if queue != [] { assert PricedAt(cells, queue, p, |queue| - 1); }
  }

  lemma JoinedQueue(cells: seq<Cell>, cells': seq<Cell>, queue: seq<int>, p: int, b: int, o: Order)
    requires Joined(cells, cells', queue, |queue|, b, o) && OfPrice(cells, queue, p) && o.price == p
    requires forall c :: 0 <= c < |cells| && cells[c].Block? ==> cells[c].order.id < o.id
    ensures OfPrice(cells', queue + [b], p)
  {
    var q, n := queue + [b], |queue|;
    JoinedOnly(cells, cells', queue, p, b, o);
    forall i | 0 <= i <= n ensures PricedAt(cells', q, p, i) {
      if i < n { assert PricedAt(cells, queue, p, i); }
    }
    forall i, j | 0 <= i < j <= n ensures Older(cells', q[i], q[j]) {
      assert PricedAt(cells, queue, p, i);
      if j < n { assert Older(cells, queue[i], queue[j]) && PricedAt(cells, queue, p, j); }
    }
  }

  lemma StandsAdded(l: Ladder, l': Ladder, queues: seq<seq<int>>, quotes: Quotes, o: Order)
    requires Stands(l, queues, quotes) && 1 <= o.price < |queues|
    requires forall id :: id in quotes ==> id < o.id
    requires BlockAdded(l, l', queues, o)
    ensures Stands(l', queues[o.price := queues[o.price] + [|l.cells|]], quotes[o.id := AsQuote(o)])
  {
    var b, p, q := |l.cells|, o.price, queues[o.price];
    var queues', quotes' := queues[p := q + [b]], quotes[o.id := AsQuote(o)];
    assert LevelAt(l, queues, p) && QueueAt(l.cells, queues, p);
    forall c | 0 <= c < |l.cells| && l.cells[c].Block? ensures l.cells[c].order.id < o.id {
      assert BlockAt(l, queues, quotes, c);
    }
    JoinedOnly(l.cells, l'.cells, q, p, b, o);
    JoinedQueue(l.cells, l'.cells, q, p, b, o);
    SplicedList(l.cells, l'.cells, if q == [] then NULL else l.levels[p].head, if q == [] then NULL else l.levels[p].tail,
                q, |q|, b, o);
    assert Spliced(q, |q|, b) == q + [b];
    forall r | 0 <= r < |queues'| ensures LevelAt(l', queues', r) && QueueAt(l'.cells, queues', r) {
      assert LevelAt(l, queues, r) && QueueAt(l.cells, queues, r);
      if r != p { OtherLevel(l, l', queues, queues', p, r); }
    }
    forall c | 0 <= c < |l'.cells| ensures BlockAt(l', queues', quotes', c) {
      if c == b {
        assert (q + [b])[|q|] == b;
      } else {
        assert BlockAt(l, queues, quotes, c);
        if c in q { assert c in q + [b]; }
      }
    }
    forall id: nat ensures KeyAt(l', quotes', id) {
      assert KeyAt(l, quotes, id);
    }
  }

  // ---- an order leaves ----

  /** Node `k` of level `p` was unlinked and deleted. */
  ghost predicate BlockRemoved(l: Ladder, l': Ladder, queues: seq<seq<int>>, p: int, k: int)
    requires |l.levels| == |queues| && 0 <= p < |queues| && 0 <= k < |queues[p]|
  {
    var q := queues[p];
    && Unlinked(l.cells, l'.cells, q, k)
    && l.levels[p].List?
    && l'.levels == l.levels[p := if |q| == 1 then NoList else List(if k == 0 then Next(q, 0) else l.levels[p].head,
                                                                  if k == |q| - 1 then Prev(q, k) else l.levels[p].tail)]
    && l.cells[q[k]].Block? && l'.keys == l.keys - {l.cells[q[k]].order.id}
  }

  lemma UnlinkedOnly(cells: seq<Cell>, cells': seq<Cell>, queue: seq<int>, p: int, k: int)
    requires 0 <= k < |queue| && Unlinked(cells, cells', queue, k) && OfPrice(cells, queue, p)
    ensures OnlyPrice(cells, cells', p) && SameOrders(cells, cells', queue[k])
  {
    assert PricedAt(cells, queue, p, k);
    if k > 0 { assert PricedAt(cells, queue, p, k - 1); }
    if k < |queue| - 1 { assert PricedAt(cells, queue, p, k + 1); }
  }

  lemma UnlinkedQueue(cells: seq<Cell>, cells': seq<Cell>, queue: seq<int>, p: int, k: int)
    requires 0 <= k < |queue| && Unlinked(cells, cells', queue, k) && OfPrice(cells, queue, p)
    ensures OfPrice(cells', Without(queue, k), p)
  {
    var q := Without(queue, k);
    UnlinkedOnly(cells, cells', queue, p, k);
    forall i | 0 <= i < |queue| && i != k ensures PricedAt(cells, queue, p, i) && queue[i] != queue[k] {
      assert PricedAt(cells, queue, p, i) && Older(cells, queue[if i < k then i else k], queue[if i < k then k else i]);
    }
    forall i | 0 <= i < |q| ensures PricedAt(cells', q, p, i) {
      assert q[i] == queue[if i < k then i else i + 1] && PricedAt(cells, queue, p, if i < k then i else i + 1);
    }
    forall i, j | 0 <= i < j < |q| ensures Older(cells', q[i], q[j]) {
      var i', j' := if i < k then i else i + 1, if j < k then j else j + 1;
      assert q[i] == queue[i'] && q[j] == queue[j'] && Older(cells, queue[i'], queue[j']);
      assert PricedAt(cells, queue, p, i') && PricedAt(cells, queue, p, j');
    }
  }

  lemma StandsRemoved(l: Ladder, l': Ladder, queues: seq<seq<int>>, quotes: Quotes, p: int, k: int)
    requires Stands(l, queues, quotes) && 0 <= p < |queues| && 0 <= k < |queues[p]|
    requires BlockRemoved(l, l', queues, p, k)
    ensures Stands(l', queues[p := Without(queues[p], k)], quotes - {l.cells[queues[p][k]].order.id})
  {
    var q, b := queues[p], queues[p][k];
    var id, queues' := l.cells[b].order.id, queues[p := Without(q, k)];
    var quotes' := quotes - {id};
    assert LevelAt(l, queues, p) && QueueAt(l.cells, queues, p) && BlockAt(l, queues, quotes, b);
    UnlinkedOnly(l.cells, l'.cells, q, p, k);
    UnlinkedQueue(l.cells, l'.cells, q, p, k);
    UnlinkedList(l.cells, l'.cells, l.levels[p].head, l.levels[p].tail, q, k);
    forall r | 0 <= r < |queues'| ensures LevelAt(l', queues', r) && QueueAt(l'.cells, queues', r) {
      assert LevelAt(l, queues, r) && QueueAt(l.cells, queues, r);
      if r != p { OtherLevel(l, l', queues, queues', p, r); }
    }
    forall c | 0 <= c < |l'.cells| ensures BlockAt(l', queues', quotes', c) {
      assert BlockAt(l, queues, quotes, c);
      if c != b && c in q {
        var i :| 0 <= i < |q| && q[i] == c;
        assert Without(q, k)[if i < k then i else i - 1] == c;
      }
    }
    forall i: nat ensures KeyAt(l', quotes', i) {
      assert KeyAt(l, quotes, i);
    }
  }

  // ---- an order shrinks ----

  lemma StandsReduced(l: Ladder, l': Ladder, queues: seq<seq<int>>, quotes: Quotes, b: int, n: u32)
    requires Stands(l, queues, quotes) && 0 <= b < |l.cells| && l.cells[b].Block? && n < l.cells[b].order.size
    requires var o := l.cells[b].order;
      l' == l.(cells := l.cells[b := l.cells[b].(order := o.(size := o.size - n))])
    ensures l.cells[b].order.id in quotes && quotes[l.cells[b].order.id] == AsQuote(l.cells[b].order)
    ensures Stands(l', queues, Reduce(quotes, l.cells[b].order.id, n))
  {
    assert BlockAt(l, queues, quotes, b);
    var quotes' := Reduce(quotes, l.cells[b].order.id, n);
    forall r | 0 <= r < |queues| ensures LevelAt(l', queues, r) && QueueAt(l'.cells, queues, r) {
      assert LevelAt(l, queues, r) && QueueAt(l.cells, queues, r);
      if l.levels[r].List? { SameLinks(l.cells, l'.cells, l.levels[r].head, l.levels[r].tail, queues[r]); }
      ReducedQueue(l.cells, l'.cells, queues[r], r);
    }
    forall c | 0 <= c < |l'.cells| ensures BlockAt(l', queues, quotes', c) {
      assert BlockAt(l, queues, quotes, c);
    }
    forall i: nat ensures KeyAt(l', quotes', i) {
      assert KeyAt(l, quotes, i);
    }
  }

  lemma ReducedQueue(cells: seq<Cell>, cells': seq<Cell>, queue: seq<int>, p: int)
    requires OfPrice(cells, queue, p) && |cells'| == |cells|
    requires forall c :: 0 <= c < |cells| && cells[c].Block? ==>
      cells'[c].Block? && cells'[c].order.id == cells[c].order.id && cells'[c].order.price == cells[c].order.price
    ensures OfPrice(cells', queue, p)
  {
    forall i | 0 <= i < |queue| ensures PricedAt(cells', queue, p, i) {
      assert PricedAt(cells, queue, p, i);
    }
    forall i, j | 0 <= i < j < |queue| ensures Older(cells', queue[i], queue[j]) {
      assert Older(cells, queue[i], queue[j]);
    }
  }

  // ---- the best level ----

  /** No order has a better price than `best`; `best` has a list unless it is the end of the levels. */
  ghost predicate BestLevel(side: Side, levels: seq<Level>, quotes: Quotes, best: int) {
    && NoneBetter(side, quotes, best, |levels|)
    && (best != Sentinel(side, |levels|) ==> 0 <= best < |levels| && levels[best].List?)
  }

  ghost predicate NoneBetter(side: Side, quotes: Quotes, best: int, size: int) {
    && 0 <= best <= size && (side == Buy ==> best < size)
    && forall id {:trigger NotBetter(side, quotes, best, id)} :: NotBetter(side, quotes, best, id)
  }

  ghost predicate NotBetter(side: Side, quotes: Quotes, best: int, id: nat) {
    id in quotes ==> if side == Buy then quotes[id].price <= best else quotes[id].price >= best
  }

  function Sentinel(side: Side, size: int): int {
    if side == Buy then 0 else size
  }

  /** A price without a list has no orders. */
  lemma EmptyLevel(l: Ladder, queues: seq<seq<int>>, quotes: Quotes, p: int)
    requires Stands(l, queues, quotes) && 0 <= p < |l.levels|
    ensures l.levels[p].NoList? ==> forall id :: id in quotes ==> quotes[id].price != p
    ensures forall id :: id in quotes ==> 1 <= quotes[id].price < |l.levels|
  {
    assert LevelAt(l, queues, p);
    forall id | id in quotes ensures (l.levels[p].NoList? ==> quotes[id].price != p) && 1 <= quotes[id].price < |l.levels| {
      assert KeyAt(l, quotes, id) && BlockAt(l, queues, quotes, l.keys[id]);
    }
  }

  /** The next level to look at when level `best` has no list. */
  lemma NextLevel(side: Side, l: Ladder, queues: seq<seq<int>>, quotes: Quotes, best: int)
    requires Stands(l, queues, quotes) && NoneBetter(side, quotes, best, |l.levels|)
    requires 0 <= best < |l.levels| && l.levels[best].NoList? && best != Sentinel(side, |l.levels|)
    ensures NoneBetter(side, quotes, if side == Buy then best - 1 else best + 1, |l.levels|)
  {
    var next := if side == Buy then best - 1 else best + 1;
    EmptyLevel(l, queues, quotes, best);
    forall id: nat ensures NotBetter(side, quotes, next, id) {
      assert NotBetter(side, quotes, best, id);
    }
  }

  lemma NoneBetterAfter(side: Side, quotes: Quotes, quotes': Quotes, best: int, size: int)
    requires NoneBetter(side, quotes, best, size)
    requires forall id :: id in quotes' ==> id in quotes && quotes'[id].price == quotes[id].price
    ensures NoneBetter(side, quotes', best, size)
  {
    forall id: nat ensures NotBetter(side, quotes', best, id) {
      assert NotBetter(side, quotes, best, id);
    }
  }

  lemma NoneBetterAdded(side: Side, quotes: Quotes, best: int, size: int, o: Order)
    requires NoneBetter(side, quotes, best, size) && 1 <= o.price < size
    ensures NoneBetter(side, quotes[o.id := AsQuote(o)],
                       if side == Buy then (if best > o.price then best else o.price) else (if best < o.price then best else o.price), size)
  {
    var quotes' := quotes[o.id := AsQuote(o)];
    var best' := if side == Buy then (if best > o.price then best else o.price) else (if best < o.price then best else o.price);
    forall id: nat ensures NotBetter(side, quotes', best', id) {
      assert NotBetter(side, quotes, best, id);
    }
  }

  /** The head of a list is an order of that price, older than all others. */
  lemma HeadIs(l: Ladder, queues: seq<seq<int>>, quotes: Quotes, p: int)
    requires Stands(l, queues, quotes) && 0 <= p < |l.levels| && l.levels[p].List?
    ensures var b := l.levels[p].head;
      && queues[p] != [] && b == queues[p][0] && 0 <= b < |l.cells| && l.cells[b].Block? && l.cells[b].order.price == p
      && l.cells[b].order.id in quotes && OrderIn(quotes, l.cells[b].order.id) == l.cells[b].order
      && forall id :: id in quotes && quotes[id].price == p && id != l.cells[b].order.id ==> l.cells[b].order.id < id
  {
    var q := queues[p];
    assert LevelAt(l, queues, p) && QueueAt(l.cells, queues, p) && PricedAt(l.cells, q, p, 0);
    assert BlockAt(l, queues, quotes, q[0]);
    forall id | id in quotes && quotes[id].price == p && id != l.cells[q[0]].order.id ensures l.cells[q[0]].order.id < id {
      assert KeyAt(l, quotes, id) && BlockAt(l, queues, quotes, l.keys[id]);
      var i :| 0 <= i < |q| && q[i] == l.keys[id];
      assert Older(l.cells, q[0], q[i]);
    }
  }

  /** The head of the best level is the best order. */
  lemma HeadIsBest(side: Side, l: Ladder, queues: seq<seq<int>>, quotes: Quotes, best: int)
    requires Stands(l, queues, quotes) && BestLevel(side, l.levels, quotes, best) && |l.levels| > 0
    ensures best == Sentinel(side, |l.levels|) ==> forall id :: id !in quotes
    ensures best != Sentinel(side, |l.levels|) ==>
      var b := l.levels[best].head;
      && 0 <= b < |l.cells| && l.cells[b].Block? && l.cells[b].order.price == best
      && queues[best] != [] && b == queues[best][0]
      && IsBest(side, quotes, l.cells[b].order.id) && OrderIn(quotes, l.cells[b].order.id) == l.cells[b].order
  {
    EmptyLevel(l, queues, quotes, 0);
    if best == Sentinel(side, |l.levels|) {
      forall id: nat ensures id !in quotes {
        assert NotBetter(side, quotes, best, id);
      }
    }
    if best != Sentinel(side, |l.levels|) {
      HeadIs(l, queues, quotes, best);
      forall j: nat ensures Beats(side, quotes, l.cells[l.levels[best].head].order.id, j) {
        assert NotBetter(side, quotes, best, j);
      }
    }
  }

  /** The key map finds the block of an order, and its node. */
  lemma KeyFinds(l: Ladder, queues: seq<seq<int>>, quotes: Quotes, id: nat) returns (k: int)
    requires Stands(l, queues, quotes) && id in l.keys
    ensures id in quotes
    ensures var b := l.keys[id];
      && 0 <= b < |l.cells| && l.cells[b].Block? && l.cells[b].order.id == id && 1 <= l.cells[b].order.price < |queues|
      && 0 <= k < |queues[l.cells[b].order.price]| && queues[l.cells[b].order.price][k] == b
  {
    var b := l.keys[id];
    assert KeyAt(l, quotes, id) && BlockAt(l, queues, quotes, b);
    k :| 0 <= k < |queues[l.cells[b].order.price]| && queues[l.cells[b].order.price][k] == b;
  }
}
