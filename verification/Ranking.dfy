/**
 One side of an order book as a sequence of orders, best first.
 */
module Ranking {
  import opened Trading
  import opened OrderBooks
  import opened Collections

  ghost predicate Listed(q: seq<Order>, id: nat) {
    exists i :: 0 <= i < |q| && q[i].id == id
  }

  /** `q` is the side `m` of a book, best order first. */
  ghost predicate Ranks(side: Side, q: seq<Order>, m: Quotes) {
    && (forall i :: 0 <= i < |q| ==> q[i].id in m && m[q[i].id] == AsQuote(q[i]))
    && (forall id {:trigger Listed(q, id)} :: id in m ==> Listed(q, id))
    && (forall i, j :: 0 <= i < j < |q| ==> Ahead(side, q[i], q[j]))
  }

  lemma BestFirst(side: Side, q: seq<Order>, m: Quotes)
    requires Ranks(side, q, m)
    ensures q != [] ==> IsBest(side, m, q[0].id) && OrderIn(m, q[0].id) == q[0]
    ensures q == [] ==> forall id :: id !in m && !IsBest(side, m, id)
  {
    if q == [] {
      forall id ensures id !in m {
        assert !Listed(q, id);
      }
    }
    if q != [] {
      forall j: nat ensures Beats(side, m, q[0].id, j) {
        if j in m { assert Listed(q, j); }
      }
    }
  }

  /** The place of a new order: behind all orders that are ahead of it, ahead of all others. */
  ghost predicate PlaceOf(side: Side, q: seq<Order>, o: Order, k: int) {
    && 0 <= k <= |q|
    && (forall i :: 0 <= i < k ==> Ahead(side, q[i], o))
    && (forall i :: k <= i < |q| ==> Ahead(side, o, q[i]))
  }

  function Inserted(q: seq<Order>, k: int, o: Order): seq<Order>
    requires 0 <= k <= |q|
  {
    q[..k] + [o] + q[k..]
  }

  lemma RanksInserted(side: Side, q: seq<Order>, m: Quotes, o: Order, k: int)
    requires Ranks(side, q, m) && o.id !in m && PlaceOf(side, q, o, k)
    ensures Ranks(side, Inserted(q, k, o), m[o.id := AsQuote(o)])
  {
    var r, n := Inserted(q, k, o), m[o.id := AsQuote(o)];
    forall id | id in n ensures Listed(r, id) {
      if id == o.id {
        assert r[k].id == id;
      } else {
        assert Listed(q, id);
        var i :| 0 <= i < |q| && q[i].id == id;
        assert r[if i < k then i else i + 1] == q[i];
      }
    }
    forall i, j | 0 <= i < j < |r| ensures Ahead(side, r[i], r[j]) {
      assert i < k ==> r[i] == q[i];
      assert i > k ==> r[i] == q[i - 1];
      assert j < k ==> r[j] == q[j];
      assert j > k ==> r[j] == q[j - 1];
    }
  }

  lemma RanksWithout(side: Side, q: seq<Order>, m: Quotes, k: int)
    requires Ranks(side, q, m) && 0 <= k < |q|
    ensures Ranks(side, Without(q, k), m - {q[k].id})
  {
    var r, n := Without(q, k), m - {q[k].id};
    forall i | 0 <= i < |r| ensures r[i].id in n && n[r[i].id] == AsQuote(r[i]) {
      var i' := if i < k then i else i + 1;
      assert r[i] == q[i'];
      assert i' < k ==> Ahead(side, q[i'], q[k]);
      assert i' > k ==> Ahead(side, q[k], q[i']);
    }
    forall id | id in n ensures Listed(r, id) {
      assert Listed(q, id);
      var i :| 0 <= i < |q| && q[i].id == id;
      assert r[if i < k then i else i - 1] == q[i];
    }
    forall i, j | 0 <= i < j < |r| ensures Ahead(side, r[i], r[j]) {
      assert r[i] == q[if i < k then i else i + 1] && r[j] == q[if j < k then j else j + 1];
    }
  }

  lemma RanksReduced(side: Side, q: seq<Order>, m: Quotes, k: int, n: u32)
    requires Ranks(side, q, m) && 0 <= k < |q| && n < q[k].size
    ensures Ranks(side, q[k := q[k].(size := q[k].size - n)], Reduce(m, q[k].id, n))
  {
    var r := q[k := q[k].(size := q[k].size - n)];
    forall i | 0 <= i < |q| && i != k ensures q[i].id != q[k].id {
      assert i < k ==> Ahead(side, q[i], q[k]);
      assert i > k ==> Ahead(side, q[k], q[i]);
    }
    forall id | id in m ensures Listed(r, id) {
      assert Listed(q, id);
      var i :| 0 <= i < |q| && q[i].id == id;
      assert r[i].id == id;
    }
  }

  lemma SameHeadAndTail(q: seq<Order>, r: seq<Order>)
    requires q != [] && r != [] && q[0] == r[0] && Without(q, 0) == Without(r, 0)
    ensures q == r
  {
    assert q == [q[0]] + Without(q, 0) && r == [r[0]] + Without(r, 0);
  }

  /** There is only one ranking. */
  lemma {:induction false} OneRanking(side: Side, q: seq<Order>, r: seq<Order>, m: Quotes)
    requires Ranks(side, q, m) && Ranks(side, r, m)
    ensures q == r
    decreases |q|
  {
    BestFirst(side, q, m);
    BestFirst(side, r, m);
    if q != [] {
      BestIsUnique(side, m, q[0].id, r[0].id);
      RanksWithout(side, q, m, 0);
      RanksWithout(side, r, m, 0);
      OneRanking(side, Without(q, 0), Without(r, 0), m - {q[0].id});
      SameHeadAndTail(q, r);
    }
  }
}
