/**
 One side of the sorted-vector book, `4_order_book_proj/data_structure_bench/sorted_vector_str.cpp`.
 */
module SortedVector {
  import opened Trading
  import opened OrderBooks
  import opened Ranking
  import opened Collections

  function Reversed(v: seq<Order>): seq<Order> {
    seq(|v|, i requires 0 <= i < |v| => v[|v| - 1 - i])
  }

  /** `operator<` */
  predicate Behind(side: Side, a: Order, b: Order) {
    Ahead(side, b, a)
  }

  lemma PlaceFromBack(side: Side, v: seq<Order>, m: Quotes, o: Order, k: int)
    requires Ranks(side, Reversed(v), m) && o.id !in m && 0 <= k <= |v|
    requires forall i :: 0 <= i < k ==> Behind(side, v[i], o)
    requires forall i :: k <= i < |v| ==> !Behind(side, v[i], o)
    ensures PlaceOf(side, Reversed(v), o, |v| - k)
    ensures Reversed(v[..k] + [o] + v[k..]) == Inserted(Reversed(v), |v| - k, o)
  {
    var q := Reversed(v);
    forall i | 0 <= i < |v| - k ensures Ahead(side, q[i], o) {
      assert q[i] == v[|v| - 1 - i] && q[i].id in m;
    }
    forall i | |v| - k <= i < |v| ensures Ahead(side, o, q[i]) {
      assert q[i] == v[|v| - 1 - i];
    }
  }

  lemma ReversedWithout(v: seq<Order>, i: nat)
    requires i < |v|
    ensures Reversed(v[..i] + v[i + 1..]) == Without(Reversed(v), |v| - 1 - i)
  {
  }

  class SortedSide {
    const side: Side
    /** Best at the back. */
    var orders: seq<Order>
    ghost var quotes: Quotes

    ghost predicate Valid()
      reads this
    {
      Ranks(side, Reversed(orders), quotes)
    }

    constructor (side: Side)
      ensures Valid() && this.side == side && quotes == map[]
    {
      this.side, orders, quotes := side, [], map[];
    }

    /** `std::lower_bound`: the first place whose order is not behind `o`. */
    method LowerBound(o: Order) returns (k: int)
      requires Valid() && o.id !in quotes
      ensures 0 <= k <= |orders|
      ensures forall i :: 0 <= i < k ==> Behind(side, orders[i], o)
      ensures forall i :: k <= i < |orders| ==> !Behind(side, orders[i], o)
    {
      k := 0;
      var hi := |orders|;
      while k < hi
        invariant 0 <= k <= hi <= |orders|
        invariant forall i :: 0 <= i < k ==> Behind(side, orders[i], o)
        invariant forall i :: hi <= i < |orders| ==> !Behind(side, orders[i], o)
      {
        var mid := (k + hi) / 2;
        ghost var q, n := Reversed(orders), |orders|;
        if Behind(side, orders[mid], o) {
          forall i | 0 <= i < mid ensures Behind(side, orders[i], o) {
            assert Ahead(side, q[n - 1 - mid], q[n - 1 - i]);
          }
          k := mid + 1;
        } else {
          forall i | mid < i < n ensures !Behind(side, orders[i], o) {
            assert Ahead(side, q[n - 1 - i], q[n - 1 - mid]);
          }
          hi := mid;
        }
      }
    }

    method Add(o: Order)
      requires Valid() && o.id !in quotes
      modifies this
      ensures Valid() && quotes == old(quotes)[o.id := AsQuote(o)]
    {
      var k := LowerBound(o);
      PlaceFromBack(side, orders, quotes, o, k);
      RanksInserted(side, Reversed(orders), quotes, o, |orders| - k);
      orders := orders[..k] + [o] + orders[k..];
      quotes := quotes[o.id := AsQuote(o)];
    }

    method Head() returns (some: bool, o: Order)
      requires Valid()
      ensures some ==> IsBest(side, quotes, o.id) && OrderIn(quotes, o.id) == o
      ensures !some ==> forall id :: id !in quotes
    {
      BestFirst(side, Reversed(orders), quotes);
      some := orders != [];
      o := if some then orders[|orders| - 1] else Order(0, 0, 0);
    }

    /** The best order loses `n` shares, and is popped if nothing is left of it. */
    method FillHead(n: u32, ghost id: nat)
      requires Valid() && IsBest(side, quotes, id) && n <= quotes[id].size
      modifies this
      ensures Valid() && quotes == Reduce(old(quotes), id, n)
    {
      ghost var q, v := Reversed(orders), orders;
      BestFirst(side, q, quotes);
      var last := |orders| - 1;
      BestIsUnique(side, quotes, q[0].id, id);
      if n < orders[last].size {
        RanksReduced(side, q, quotes, 0, n);
        orders := orders[last := orders[last].(size := orders[last].size - n)];
        assert Reversed(orders) == q[0 := q[0].(size := q[0].size - n)];
      } else {
        RanksWithout(side, q, quotes, 0);
        orders := orders[..last];
        assert Reversed(orders) == Without(q, 0);
      }
      quotes := Reduce(quotes, id, n);
    }

    /** `std::find_if`, then `erase`. */
    method Cancel(id: nat) returns (found: bool)
      requires Valid()
      modifies this
      ensures Valid() && (found <==> id in old(quotes)) && quotes == old(quotes) - {id}
    {
      ghost var q := Reversed(orders);
      var i := 0;
      while i < |orders| && orders[i].id != id
        invariant 0 <= i <= |orders| && forall j :: 0 <= j < i ==> orders[j].id != id
      {
        i := i + 1;
      }
      found := i < |orders|;
      if found {
        assert q[|orders| - 1 - i] == orders[i];
        RanksWithout(side, q, quotes, |orders| - 1 - i);
        orders := orders[..i] + orders[i + 1..];
        ReversedWithout(old(orders), i);
      } else {
        forall j | 0 <= j < |q| ensures q[j].id != id {
          assert q[j] == orders[|q| - 1 - j];
        }
        assert !Listed(q, id);
      }
      quotes := quotes - {id};
    }
  }
}
