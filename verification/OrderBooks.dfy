/**
 What the three interchangeable order books of `4_order_book_proj/data_structure_bench` do, said without
 vectors, lists or levels: each side is a map from order numbers to prices and sizes.
 */
module OrderBooks {
  import opened Trading

  /** BuyOrder and SellOrder of `base.hpp`. */
  datatype Order = Order(id: nat, price: nat, size: u32)

  datatype Quote = Quote(price: nat, size: u32)

  /** One side of a book: the resting orders by number. */
  type Quotes = map<nat, Quote>

  /** `next` is the number that the next order gets. */
  datatype Books = Books(buys: Quotes, sells: Quotes, next: nat)

  /** `operator>` of BuyOrder and SellOrder: a better price, or the same price and older. */
  predicate Ahead(side: Side, a: Order, b: Order) {
    (if side == Buy then a.price > b.price else a.price < b.price) || (a.price == b.price && a.id < b.id)
  }

  function AsQuote(o: Order): Quote {
    Quote(o.price, o.size)
  }

  function OrderIn(m: Quotes, id: nat): Order
    requires id in m
  {
    Order(id, m[id].price, m[id].size)
  }

  ghost predicate Beats(side: Side, m: Quotes, id: nat, j: nat) {
    id in m && j in m && j != id ==> Ahead(side, OrderIn(m, id), OrderIn(m, j))
  }

  ghost predicate IsBest(side: Side, m: Quotes, id: nat) {
    id in m && forall j {:trigger Beats(side, m, id, j)} :: Beats(side, m, id, j)
  }

  lemma BestIsUnique(side: Side, m: Quotes, i: nat, j: nat)
    requires IsBest(side, m, i) && IsBest(side, m, j)
    ensures i == j
  {
    assert Beats(side, m, i, j) && Beats(side, m, j, i);
  }

  /** `m` without `n` shares of order `id`; an order with nothing left is gone. */
  function Reduce(m: Quotes, id: nat, n: u32): Quotes
    requires id in m && n <= m[id].size
  {
    if n == m[id].size then m - {id} else m[id := Quote(m[id].price, m[id].size - n)]
  }

  lemma ReduceShrinks(m: Quotes, id: nat, n: u32)
    requires id in m && n <= m[id].size
    ensures |Reduce(m, id, n).Keys| == if n == m[id].size then |m.Keys| - 1 else |m.Keys|
  {
    assert Reduce(m, id, n).Keys == if n == m[id].size then m.Keys - {id} else m.Keys;
  }

  // ---- matching ----

  /** The best bid `i` and the best offer `j` can trade. */
  ghost predicate Cross(buys: Quotes, sells: Quotes, i: nat, j: nat) {
    IsBest(Buy, buys, i) && IsBest(Sell, sells, j) && buys[i].price >= sells[j].price
  }

  datatype Sides = Sides(buys: Quotes, sells: Quotes)

  /** The best bid and the best offer trade what they can. */
  ghost function Trade(buys: Quotes, sells: Quotes, i: nat, j: nat): (r: Sides)
    requires i in buys && j in sells
  {
    var n := Min(buys[i].size, sells[j].size);
    Sides(Reduce(buys, i, n), Reduce(sells, j, n))
  }

  /** The best bid and the best offer trade until they no longer cross. */
  ghost function MatchAll(buys: Quotes, sells: Quotes): (r: Sides)
    decreases |buys.Keys| + |sells.Keys|
  {
    if exists i: nat, j: nat :: Cross(buys, sells, i, j) then
      var i: nat, j: nat :| Cross(buys, sells, i, j);
      var n := Min(buys[i].size, sells[j].size);
      ReduceShrinks(buys, i, n);
      ReduceShrinks(sells, j, n);
      var r := Trade(buys, sells, i, j);
      MatchAll(r.buys, r.sells)
    else Sides(buys, sells)
  }

  lemma MatchRound(buys: Quotes, sells: Quotes, i: nat, j: nat)
    requires Cross(buys, sells, i, j)
    ensures var r := Trade(buys, sells, i, j); MatchAll(buys, sells) == MatchAll(r.buys, r.sells)
  {
    forall i': nat, j': nat | Cross(buys, sells, i', j') ensures i' == i && j' == j {
      BestIsUnique(Buy, buys, i, i');
      BestIsUnique(Sell, sells, j, j');
    }
  }

  lemma MatchOver(buys: Quotes, sells: Quotes)
    requires forall i: nat, j: nat :: !Cross(buys, sells, i, j)
    ensures MatchAll(buys, sells) == Sides(buys, sells)
  {
  }

  /** Matching takes orders away, and changes neither price nor number of those it leaves. */
  ghost predicate Fewer(m: Quotes, m0: Quotes) {
    m.Keys <= m0.Keys && forall id :: id in m ==> m[id].price == m0[id].price && m[id].size <= m0[id].size
  }

  lemma {:induction false} MatchLeaves(buys: Quotes, sells: Quotes)
    ensures var r := MatchAll(buys, sells); Fewer(r.buys, buys) && Fewer(r.sells, sells)
    ensures var r := MatchAll(buys, sells); forall i: nat, j: nat :: !Cross(r.buys, r.sells, i, j)
    decreases |buys.Keys| + |sells.Keys|
  {
    if i: nat, j: nat :| Cross(buys, sells, i, j) {
      var n := Min(buys[i].size, sells[j].size);
      var r := Trade(buys, sells, i, j);
      MatchRound(buys, sells, i, j);
      ReduceShrinks(buys, i, n);
      ReduceShrinks(sells, j, n);
      MatchLeaves(r.buys, r.sells);
    }
  }

  // ---- market orders ----

  /** What is left of the side that a market order for `remaining` shares walks, and the number of the
      last order that it met, `last` if none. */
  datatype Walked = Walked(rest: Quotes, last: nat)

  ghost function Walk(side: Side, m: Quotes, remaining: u32, last: nat): (r: Walked)
    decreases |m.Keys|
  {
    if remaining == 0 then Walked(m, last)
    else if id :| IsBest(side, m, id) then
      if m[id].size <= remaining then
        ReduceShrinks(m, id, m[id].size);
        Walk(side, m - {id}, remaining - m[id].size, id)
      else Walked(Reduce(m, id, remaining), id)
    else Walked(m, last)
  }

  lemma WalkRound(side: Side, m: Quotes, remaining: u32, last: nat, id: nat)
    requires remaining > 0 && IsBest(side, m, id)
    ensures Walk(side, m, remaining, last) ==
      if m[id].size <= remaining then Walk(side, m - {id}, remaining - m[id].size, id)
      else Walked(Reduce(m, id, remaining), id)
  {
    forall j | IsBest(side, m, j) ensures j == id {
      BestIsUnique(side, m, id, j);
    }
  }

  /** A walk takes orders away as matching does, and ends with an order that it met. */
  lemma {:induction false} WalkLeaves(side: Side, m: Quotes, remaining: u32, last: nat)
    ensures var w := Walk(side, m, remaining, last);
      && Fewer(w.rest, m) && (w.last == last || w.last in m)
      && (remaining > 0 ==> (forall id: nat :: !IsBest(side, m, id)) || w.last in m)
    decreases |m.Keys|
  {
    if id: nat :| remaining > 0 && IsBest(side, m, id) {
      WalkRound(side, m, remaining, last, id);
      if m[id].size <= remaining {
        ReduceShrinks(m, id, m[id].size);
        WalkLeaves(side, m - {id}, remaining - m[id].size, id);
      }
    } else {
      WalkOver(side, m, remaining, last);
    }
  }

  lemma WalkOver(side: Side, m: Quotes, remaining: u32, last: nat)
    requires remaining == 0 || forall id: nat :: !IsBest(side, m, id)
    ensures Walk(side, m, remaining, last) == Walked(m, last)
  {
  }

  // ---- the operations ----

  function Other(side: Side): Side {
    if side == Buy then Sell else Buy
  }

  function Of(s: Books, side: Side): Quotes {
    if side == Buy then s.buys else s.sells
  }

  function With(s: Books, side: Side, m: Quotes): Books {
    if side == Buy then s.(buys := m) else s.(sells := m)
  }

  /** The two kinds of books: the sorted ones take any price, the tick-offset one has a level for each
      price from 1 up. */
  datatype Rules = AnyPrice | Levels(size: nat)

  predicate Accepts(rules: Rules, price: nat) {
    rules.Levels? ==> 1 <= price < rules.size
  }

  /** The limit price of a market order that meets nobody. */
  function Extreme(rules: Rules, side: Side): nat
    requires rules.Levels? ==> rules.size > 0
  {
    match rules
    case AnyPrice => if side == Buy then 0xFFFF_FFFF_FFFF_FFFF else 0
    case Levels(n) => if side == Buy then n - 1 else 1
  }

  datatype Answer = Answer(state: Books, result: nat)

  ghost function Insert(rules: Rules, s: Books, side: Side, price: nat, size: u32): Answer {
    if !Accepts(rules, price) then Answer(s, 0)
    else
      var added := With(s, side, Of(s, side)[s.next := Quote(price, size)]);
      var r := MatchAll(added.buys, added.sells);
      Answer(Books(r.buys, r.sells, s.next + 1), s.next)
  }

  function Cancel(s: Books, side: Side, id: nat): Answer {
    if id in Of(s, side) then Answer(With(s, side, Of(s, side) - {id}), id) else Answer(s, 0)
  }

  ghost function Market(rules: Rules, s: Books, side: Side, size: u32): Answer
    requires rules.Levels? ==> rules.size > 0
  {
    var w := Walk(Other(side), Of(s, Other(side)), size, 0);
    var walked := With(s, Other(side), w.rest);
    if w.last == 0 then Insert(rules, walked, side, Extreme(rules, side), size) else Answer(walked, w.last)
  }

  /** The best order of a side, or an order of zeros if there is none. */
  ghost function Top(side: Side, m: Quotes): Order {
    if id :| IsBest(side, m, id) then OrderIn(m, id) else Order(0, 0, 0)
  }
}
