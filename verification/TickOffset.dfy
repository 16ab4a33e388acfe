/**
 One side of the tick-offset book, `4_order_book_proj/data_structure_bench/tick_offset_str.cpp`: an array
 with a list for each price, and the index of the best one.
 */
module TickOffset {
  import opened Memory
  import opened Trading
  import opened OrderBooks
  import opened LinkedBlocks
  import opened TickLevels
  import opened Collections

  class TickSide {
    const side: Side
    const levels: array<Level>
    var cells: seq<Cell>
    var keys: map<nat, int>
    var best: int
    ghost var quotes: Quotes
    ghost var queues: seq<seq<int>>

    ghost function View(): Ladder
      reads this, levels
    {
      Ladder(cells, levels[..], keys)
    }

    ghost predicate Sound()
      reads this, levels
    {
      levels.Length > 0 && Stands(View(), queues, quotes)
    }

    ghost predicate Valid()
      reads this, levels
    {
      Sound() && BestLevel(side, levels[..], quotes, best)
    }

    constructor (side: Side, size: int)
      requires size > 0
      ensures Valid() && fresh(levels) && this.side == side && levels.Length == size && quotes == map[]
    {
      this.side := side;
      levels := new Level[size](_ => NoList);
      cells, keys, best := [], map[], Sentinel(side, size);
      quotes, queues := map[], seq(size, _ => []);
    }

    method Add(o: Order)
      requires Valid() && 1 <= o.price < levels.Length && forall id :: id in quotes ==> id < o.id
      modifies this, levels
      ensures Valid() && quotes == old(quotes)[o.id := AsQuote(o)]
    {
      ghost var l, b := View(), |cells|;
      Append(o);
      keys := keys[o.id := |cells| - 1];
      StandsAdded(l, View(), queues, quotes, o);
      queues := queues[o.price := queues[o.price] + [b]];
      NoneBetterAdded(side, quotes, best, levels.Length, o);
      quotes := quotes[o.id := AsQuote(o)];
      if side == Buy {
        best := if best == 0 then o.price else if best > o.price then best else o.price;
      } else {
        best := if best == levels.Length then o.price else if best < o.price then best else o.price;
      }
    }

    /** Allocates a block for `o` at the end of the list of its price. */
    method Append(o: Order)
      requires Sound() && 1 <= o.price < levels.Length
      modifies this`cells, levels
      ensures BlockAdded(old(View()), View().(keys := keys[o.id := |cells| - 1]), queues, o)
    {
      ghost var q := queues[o.price];
      assert LevelAt(View(), queues, o.price);
      if q != [] { assert NodeAt(cells, q, |q| - 1); }
      var node := |cells|;
      match levels[o.price]
      case NoList =>
        cells := cells + [Block(o, NULL, NULL)];
        levels[o.price] := List(node, node);
      case List(head, tail) =>
        cells := cells + [Block(o, tail, NULL)];
        cells := cells[tail := cells[tail].(next := node)];
        levels[o.price] := List(head, node);
    }

    /** Moves the index of the best level past the levels without a list. */
    method Scan()
      requires Sound() && NoneBetter(side, quotes, best, levels.Length)
      modifies this`best
      ensures Valid()
    {
      if side == Buy {
        while best > 0 && levels[best] == NoList
          invariant NoneBetter(side, quotes, best, levels.Length)
        {
          NextLevel(side, View(), queues, quotes, best);
          best := best - 1;
        }
      } else {
        while best < levels.Length && levels[best] == NoList
          invariant NoneBetter(side, quotes, best, levels.Length)
        {
          NextLevel(side, View(), queues, quotes, best);
          best := best + 1;
        }
      }
    }

    method Head() returns (some: bool, o: Order)
      requires Valid()
      ensures some ==> IsBest(side, quotes, o.id) && OrderIn(quotes, o.id) == o
      ensures !some ==> forall id :: id !in quotes
    {
      HeadIsBest(side, View(), queues, quotes, best);
      some := best != Sentinel(side, levels.Length);
      o := if some then cells[levels[best].head].order else Order(0, 0, 0);
    }

    /** Takes the head of level `p` off its list and deletes it. */
    method PopHead(p: int)
      requires Sound() && 0 <= p < levels.Length && queues[p] != []
      requires levels[p].List? && 0 <= levels[p].head < |cells| && cells[levels[p].head].Block?
      modifies this`cells, this`keys, levels
      ensures BlockRemoved(old(View()), View(), queues, p, 0)
    {
      ghost var q := queues[p];
      assert LevelAt(View(), queues, p) && NodeAt(cells, q, 0);
      if |q| > 1 { assert NodeAt(cells, q, 1); }
      var b := levels[p].head;
      keys := keys - {cells[b].order.id};
      var next := cells[b].next;
      if next == NULL {
        levels[p] := NoList;
      } else {
        levels[p] := List(next, levels[p].tail);
        cells := cells[next := cells[next].(prev := NULL)];
      }
      cells := cells[b := Freed];
    }

    /** The best order loses `n` shares, and is popped if nothing is left of it. */
    method FillHead(n: u32, ghost id: nat)
      requires Valid() && IsBest(side, quotes, id) && n <= quotes[id].size
      modifies this, levels
      ensures Valid() && quotes == Reduce(old(quotes), id, n)
    {
      ghost var l := View();
      HeadIsBest(side, l, queues, quotes, best);
      var b := levels[best].head;
      BestIsUnique(side, quotes, cells[b].order.id, id);
      if n < cells[b].order.size {
        cells := cells[b := cells[b].(order := cells[b].order.(size := cells[b].order.size - n))];
        StandsReduced(l, View(), queues, quotes, b, n);
        NoneBetterAfter(side, quotes, Reduce(quotes, id, n), best, levels.Length);
        quotes := Reduce(quotes, id, n);
      } else {
        PopHead(best);
        StandsRemoved(l, View(), queues, quotes, best, 0);
        queues := queues[best := Without(queues[best], 0)];
        NoneBetterAfter(side, quotes, quotes - {id}, best, levels.Length);
        quotes := quotes - {id};
        Scan();
      }
    }

    /** Takes block `b`, node `k` of level `p`, off its list and deletes it. */
    method TakeOff(b: int, p: int, ghost k: int)
      requires Sound() && 0 <= p < levels.Length && 0 <= k < |queues[p]| && b == queues[p][k]
      requires 0 <= b < |cells| && cells[b].Block?
      modifies this`cells, this`keys, levels
      ensures BlockRemoved(old(View()), View(), queues, p, k)
    {
      ghost var q := queues[p];
      assert LevelAt(View(), queues, p) && NodeAt(cells, q, k);
      if k > 0 { assert NodeAt(cells, q, k - 1); }
      if k < |q| - 1 { assert NodeAt(cells, q, k + 1); }
      var prev, next := cells[b].prev, cells[b].next;
      keys := keys - {cells[b].order.id};
      if prev == NULL && next == NULL {
        levels[p] := NoList;
      } else if next == NULL {
        levels[p] := List(levels[p].head, prev);
      } else if prev == NULL {
        levels[p] := List(next, levels[p].tail);
      }
      if prev != NULL {
        cells := cells[prev := cells[prev].(next := next)];
      }
      if next != NULL {
        cells := cells[next := cells[next].(prev := prev)];
      }
      cells := cells[b := Freed];
    }

    method Cancel(id: nat) returns (found: bool)
      requires Valid()
      modifies this, levels
      ensures Valid() && (found <==> id in old(quotes)) && quotes == old(quotes) - {id}
    {
      ghost var l := View();
      if id !in keys {
        assert KeyAt(l, quotes, id);
        assert quotes - {id} == quotes;
        return false;
      }
      var b := keys[id];
      ghost var k := KeyFinds(l, queues, quotes, id);
      var p := cells[b].order.price;
      TakeOff(b, p, k);
      StandsRemoved(l, View(), queues, quotes, p, k);
      queues := queues[p := Without(queues[p], k)];
      NoneBetterAfter(side, quotes, quotes - {id}, best, levels.Length);
      quotes := quotes - {id};
      Scan();
      return true;
    }
  }
}
