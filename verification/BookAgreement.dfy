/**
 The three order books agree: the sorted vector and the list do the same, and the tick-offset book does
 the same with numbers one lower, exactly as long as prices have a level and market orders meet somebody.
 */
module BookAgreement {
  import opened Trading
  import opened OrderBooks
  import opened Collections
  import opened Ranking
  import opened SortedVector
  import opened SortedList

  // ---- the best order, and books that do not cross ----

  lemma BestExists(side: Side, m: Quotes, id: nat) returns (best: nat)
    requires id in m
    ensures IsBest(side, m, best)
  {
    best := SomeBest(m.Keys, (i, j) => Beats(side, m, i, j), id);
  }

  /** Every bid is below every offer. */
  ghost predicate Uncrossed(buys: Quotes, sells: Quotes) {
    forall i: nat, j: nat :: i in buys && j in sells ==> buys[i].price < sells[j].price
  }

  lemma NoCrossUncrossed(buys: Quotes, sells: Quotes)
    requires forall i: nat, j: nat :: !Cross(buys, sells, i, j)
    ensures Uncrossed(buys, sells)
  {
    forall i: nat, j: nat | i in buys && j in sells ensures buys[i].price < sells[j].price {
      var b := BestExists(Buy, buys, i);
      var s := BestExists(Sell, sells, j);
      assert Beats(Buy, buys, b, i) && Beats(Sell, sells, s, j) && !Cross(buys, sells, b, s);
    }
  }

  lemma UncrossedMatchesNothing(buys: Quotes, sells: Quotes)
    requires Uncrossed(buys, sells)
    ensures MatchAll(buys, sells) == Sides(buys, sells)
  {
    MatchOver(buys, sells);
  }

  /** However the sides crossed before, matching leaves every bid below every offer. */
  lemma MatchUncrosses(buys: Quotes, sells: Quotes)
    ensures var r := MatchAll(buys, sells); Uncrossed(r.buys, r.sells)
  {
    MatchLeaves(buys, sells);
    var r := MatchAll(buys, sells);
    NoCrossUncrossed(r.buys, r.sells);
  }

  // ---- equal amounts leave both sides ----

  ghost function TotalSize(m: Quotes): nat
    decreases |m.Keys|
  {
    if m == map[] then 0
    else
      var id :| id in m;
      ReduceShrinks(m, id, m[id].size);
      m[id].size + TotalSize(m - {id})
  }

  lemma {:induction false} TotalWithout(m: Quotes, id: nat)
    requires id in m
    ensures TotalSize(m) == m[id].size + TotalSize(m - {id})
    decreases |m.Keys|
  {
    var k: nat :| k in m && TotalSize(m) == m[k].size + TotalSize(m - {k});
    if k != id {
      ReduceShrinks(m, id, m[id].size);
      ReduceShrinks(m, k, m[k].size);
      TotalWithout(m - {k}, id);
      TotalWithout(m - {id}, k);
      assert m - {k} - {id} == m - {id} - {k};
    }
  }

  lemma TotalReduced(m: Quotes, id: nat, n: u32)
    requires id in m && n <= m[id].size
    ensures TotalSize(Reduce(m, id, n)) == TotalSize(m) - n
  {
    TotalWithout(m, id);
    var r := Reduce(m, id, n);
    if n < m[id].size {
      TotalWithout(r, id);
      assert r - {id} == m - {id};
    }
  }

  lemma {:induction false} MatchConserves(buys: Quotes, sells: Quotes)
    ensures var r := MatchAll(buys, sells);
      0 <= TotalSize(buys) - TotalSize(r.buys) == TotalSize(sells) - TotalSize(r.sells)
    decreases |buys.Keys| + |sells.Keys|
  {
    if i: nat, j: nat :| Cross(buys, sells, i, j) {
      var n := Min(buys[i].size, sells[j].size);
      var r := Trade(buys, sells, i, j);
      MatchRound(buys, sells, i, j);
      ReduceShrinks(buys, i, n);
      ReduceShrinks(sells, j, n);
      TotalReduced(buys, i, n);
      TotalReduced(sells, j, n);
      MatchConserves(r.buys, r.sells);
    } else {
      MatchOver(buys, sells);
    }
  }

  // ---- numbers one lower ----

  ghost predicate ShiftedAt(m: Quotes, t: Quotes, id: nat) {
    (id in t <==> id + 1 in m) && (id in t ==> t[id] == m[id + 1])
  }

  /** `t` has the orders of `m`, each with the number before. */
  ghost predicate Shifted(m: Quotes, t: Quotes) {
    0 !in m && 0 !in t && forall id: nat {:trigger ShiftedAt(m, t, id)} :: ShiftedAt(m, t, id)
  }

  lemma ShiftedBest(side: Side, m: Quotes, t: Quotes, id: nat)
    requires Shifted(m, t)
    ensures IsBest(side, m, id + 1) <==> IsBest(side, t, id)
  {
    assert ShiftedAt(m, t, id);
    var above := id + 1;
    if IsBest(side, m, above) {
      forall j: nat ensures Beats(side, t, id, j) {
        assert ShiftedAt(m, t, j) && Beats(side, m, above, j + 1);
      }
    }
    if IsBest(side, t, id) {
      forall j: nat ensures Beats(side, m, above, j) {
        if j > 0 { assert ShiftedAt(m, t, j - 1) && Beats(side, t, id, j - 1); }
      }
    }
  }

  lemma ShiftedReduce(m: Quotes, t: Quotes, id: nat, n: u32)
    requires Shifted(m, t) && id in t && n <= t[id].size
    ensures id + 1 in m && m[id + 1] == t[id]
    ensures Shifted(Reduce(m, id + 1, n), Reduce(t, id, n)) && Shifted(m - {id + 1}, t - {id})
  {
    assert ShiftedAt(m, t, id);
    var m', t', m0, t0 := Reduce(m, id + 1, n), Reduce(t, id, n), m - {id + 1}, t - {id};
    forall j: nat ensures ShiftedAt(m', t', j) && ShiftedAt(m0, t0, j) {
      assert ShiftedAt(m, t, j);
    }
  }

  lemma ShiftedAdd(m: Quotes, t: Quotes, id: nat, q: Quote)
    requires Shifted(m, t) && id > 0
    ensures Shifted(m[id + 1 := q], t[id := q])
  {
    var m', t' := m[id + 1 := q], t[id := q];
    forall j: nat ensures ShiftedAt(m', t', j) {
      assert ShiftedAt(m, t, j);
    }
  }

  ghost predicate ShiftedSides(a: Sides, b: Sides) {
    Shifted(a.buys, b.buys) && Shifted(a.sells, b.sells)
  }

  lemma ShiftedCross(a: Sides, b: Sides, i: nat, j: nat)
    requires ShiftedSides(a, b)
    ensures Cross(a.buys, a.sells, i + 1, j + 1) <==> Cross(b.buys, b.sells, i, j)
  {
    ShiftedBest(Buy, a.buys, b.buys, i);
    ShiftedBest(Sell, a.sells, b.sells, j);
    assert ShiftedAt(a.buys, b.buys, i) && ShiftedAt(a.sells, b.sells, j);
  }

  lemma ShiftedTrade(a: Sides, b: Sides, i: nat, j: nat)
    requires ShiftedSides(a, b) && Cross(b.buys, b.sells, i, j)
    ensures Cross(a.buys, a.sells, i + 1, j + 1)
    ensures i in b.buys && j in b.sells && i + 1 in a.buys && j + 1 in a.sells
    ensures ShiftedSides(Trade(a.buys, a.sells, i + 1, j + 1), Trade(b.buys, b.sells, i, j))
    ensures var r := Trade(b.buys, b.sells, i, j);
      |r.buys.Keys| + |r.sells.Keys| < |b.buys.Keys| + |b.sells.Keys|
  {
    ShiftedCross(a, b, i, j);
    var n := Min(b.buys[i].size, b.sells[j].size);
    ShiftedReduce(a.buys, b.buys, i, n);
    ShiftedReduce(a.sells, b.sells, j, n);
    ReduceShrinks(b.buys, i, n);
    ReduceShrinks(b.sells, j, n);
  }

  lemma {:induction false} ShiftedMatch(a: Sides, b: Sides)
    requires ShiftedSides(a, b)
    ensures ShiftedSides(MatchAll(a.buys, a.sells), MatchAll(b.buys, b.sells))
    decreases |b.buys.Keys| + |b.sells.Keys|
  {
    if i: nat, j: nat :| Cross(b.buys, b.sells, i, j) {
      ShiftedTrade(a, b, i, j);
      MatchRound(a.buys, a.sells, i + 1, j + 1);
      MatchRound(b.buys, b.sells, i, j);
      ShiftedMatch(Trade(a.buys, a.sells, i + 1, j + 1), Trade(b.buys, b.sells, i, j));
    } else {
      NeitherCrosses(a, b);
      MatchOver(a.buys, a.sells);
      MatchOver(b.buys, b.sells);
    }
  }

  lemma NeitherCrosses(a: Sides, b: Sides)
    requires ShiftedSides(a, b) && forall i: nat, j: nat :: !Cross(b.buys, b.sells, i, j)
    ensures forall i: nat, j: nat :: !Cross(a.buys, a.sells, i, j)
  {
    forall i: nat, j: nat ensures !Cross(a.buys, a.sells, i, j) {
      if Cross(a.buys, a.sells, i, j) { ShiftedCross(a, b, i - 1, j - 1); }
    }
  }

  /** Results: 0 on both sides, or a number and the one before. */
  predicate ShiftedResult(a: nat, b: nat) {
    (a == 0 && b == 0) || (b > 0 && a == b + 1)
  }

  ghost predicate ShiftedWalks(v: Walked, w: Walked) {
    Shifted(v.rest, w.rest) && ShiftedResult(v.last, w.last)
  }

  lemma NotWalked(side: Side, m: Quotes, t: Quotes, remaining: u32, a: nat, b: nat)
    requires Shifted(m, t) && ShiftedResult(a, b)
    requires remaining == 0 || forall id: nat :: !IsBest(side, t, id)
    ensures ShiftedWalks(Walk(side, m, remaining, a), Walk(side, t, remaining, b))
  {
    if remaining > 0 {
      forall id: nat ensures !IsBest(side, m, id) {
        if IsBest(side, m, id) { ShiftedBest(side, m, t, id - 1); }
      }
    }
    WalkOver(side, m, remaining, a);
    WalkOver(side, t, remaining, b);
  }

  lemma BothWalk(side: Side, m: Quotes, t: Quotes, remaining: u32, a: nat, b: nat, id: nat)
    requires Shifted(m, t) && remaining > 0 && IsBest(side, t, id)
    ensures id > 0 && id in t && id + 1 in m
    ensures if t[id].size <= remaining then
        && Shifted(m - {id + 1}, t - {id}) && |(t - {id}).Keys| < |t.Keys|
        && Walk(side, m, remaining, a) == Walk(side, m - {id + 1}, remaining - t[id].size, id + 1)
        && Walk(side, t, remaining, b) == Walk(side, t - {id}, remaining - t[id].size, id)
      else ShiftedWalks(Walk(side, m, remaining, a), Walk(side, t, remaining, b))
  {
    assert id in t;
    hide Walk, IsBest, Beats;
    ShiftedBest(side, m, t, id);
    WalkRound(side, m, remaining, a, id + 1);
    WalkRound(side, t, remaining, b, id);
    ShiftedReduce(m, t, id, Min(t[id].size, remaining));
    ReduceShrinks(t, id, t[id].size);
  }

  lemma {:induction false} ShiftedWalk(side: Side, m: Quotes, t: Quotes, remaining: u32, a: nat, b: nat)
    requires Shifted(m, t) && ShiftedResult(a, b)
    ensures ShiftedWalks(Walk(side, m, remaining, a), Walk(side, t, remaining, b))
    decreases |t.Keys|
  {
    if id: nat :| remaining > 0 && IsBest(side, t, id) {
      BothWalk(side, m, t, remaining, a, b, id);
      if t[id].size <= remaining {
        ShiftedWalk(side, m - {id + 1}, t - {id}, remaining - t[id].size, id + 1, id);
      }
    } else {
      NotWalked(side, m, t, remaining, a, b);
    }
  }

  // ---- one operation ----

  datatype Op = LimitOrder(side: Side, price: nat, size: u32) | CancelOrder(side: Side, id: nat) | MarketOrder(side: Side, size: u32)

  ghost function Do(rules: Rules, s: Books, op: Op): Answer
    requires rules.Levels? ==> rules.size > 0
  {
    match op
    case LimitOrder(side, price, size) => Insert(rules, s, side, price, size)
    case CancelOrder(side, id) => Cancel(s, side, id)
    case MarketOrder(side, size) => Market(rules, s, side, size)
  }

  /** The operation on the book with the lower numbers. */
  function Lower(op: Op): Op {
    if op.CancelOrder? && op.id > 0 then op.(id := op.id - 1) else op
  }

  /** `t` is the tick-offset book with the orders of `s`. */
  ghost predicate Twins(s: Books, t: Books) {
    Shifted(s.buys, t.buys) && Shifted(s.sells, t.sells) && t.next > 0 && s.next == t.next + 1
  }

  ghost predicate Ordinary(m: Quotes, next: nat, n: nat) {
    forall id :: id in m ==> id < next && 1 <= m[id].price < n
  }

  /** Between operations: every price has a level, numbers are old, and nothing crosses. */
  ghost predicate AtRest(s: Books, n: nat) {
    Ordinary(s.buys, s.next, n) && Ordinary(s.sells, s.next, n) && Uncrossed(s.buys, s.sells)
  }

  /** The operations on which the books agree: a limit price has a level, a market order meets somebody. */
  ghost predicate Common(op: Op, s: Books, n: nat) {
    match op
    case LimitOrder(_, price, _) => 1 <= price < n
    case CancelOrder(_, _) => true
    case MarketOrder(side, _) => exists id :: id in Of(s, Other(side))
  }

  ghost predicate Agree(a: Answer, b: Answer, n: nat) {
    Twins(a.state, b.state) && ShiftedResult(a.result, b.result) && AtRest(a.state, n)
  }

  lemma FewerKeeps(m: Quotes, m0: Quotes, next: nat, n: nat)
    requires Fewer(m, m0) && Ordinary(m0, next, n)
    ensures Ordinary(m, next, n)
  {
  }

  lemma FewerUncrossed(buys: Quotes, sells: Quotes, buys0: Quotes, sells0: Quotes)
    requires Fewer(buys, buys0) && Fewer(sells, sells0) && Uncrossed(buys0, sells0)
    ensures Uncrossed(buys, sells)
  {
  }

  lemma LimitAgrees(s: Books, t: Books, n: nat, side: Side, price: nat, size: u32)
    requires Twins(s, t) && AtRest(s, n) && 1 <= price < n
    ensures Agree(Insert(AnyPrice, s, side, price, size), Insert(Levels(n), t, side, price, size), n)
  {
    var q := Quote(price, size);
    ShiftedAdd(Of(s, side), Of(t, side), t.next, q);
    var a, b := With(s, side, Of(s, side)[s.next := q]), With(t, side, Of(t, side)[t.next := q]);
    ShiftedMatch(Sides(a.buys, a.sells), Sides(b.buys, b.sells));
    MatchLeaves(a.buys, a.sells);
    MatchUncrosses(a.buys, a.sells);
    assert Ordinary(a.buys, s.next + 1, n) && Ordinary(a.sells, s.next + 1, n);
    var r := MatchAll(a.buys, a.sells);
    FewerKeeps(r.buys, a.buys, s.next + 1, n);
    FewerKeeps(r.sells, a.sells, s.next + 1, n);
  }

  lemma CancelAgrees(s: Books, t: Books, n: nat, side: Side, id: nat)
    requires Twins(s, t) && AtRest(s, n)
    ensures Agree(Cancel(s, side, id), Cancel(t, side, if id > 0 then id - 1 else 0), n)
  {
    if id > 0 { assert ShiftedAt(Of(s, side), Of(t, side), id - 1); }
    if id in Of(s, side) {
      ShiftedReduce(Of(s, side), Of(t, side), id - 1, 0);
    }
  }

  // ---- market orders ----

  /** A market order that meets somebody trades, unless it is for nothing. */
  lemma TradingAgrees(s: Books, t: Books, n: nat, side: Side, size: u32)
    requires Twins(s, t) && AtRest(s, n) && 0 < n && size > 0 && exists id :: id in Of(s, Other(side))
    ensures Agree(Market(AnyPrice, s, side, size), Market(Levels(n), t, side, size), n)
  {
    var m, u, other := Of(s, Other(side)), Of(t, Other(side)), Other(side);
    var id :| id in m;
    var best := BestExists(other, m, id);
    ShiftedWalk(other, m, u, size, 0, 0);
    WalkLeaves(other, m, size, 0);
    var v := Walk(other, m, size, 0);
    FewerKeeps(v.rest, m, s.next, n);
    FewerUncrossed(With(s, other, v.rest).buys, With(s, other, v.rest).sells, s.buys, s.sells);
  }

  /** A bid for nothing at a price that reaches the best offer `j` trades nothing and is gone; an offer for
      nothing that it meets is gone too. */
  lemma EmptyBid(s: Books, price: nat, j: nat)
    requires Uncrossed(s.buys, s.sells) && IsBest(Sell, s.sells, j) && price >= s.sells[j].price && s.next !in s.buys
    ensures MatchAll(s.buys[s.next := Quote(price, 0)], s.sells) == Sides(s.buys, Reduce(s.sells, j, 0))
  {
    var buys := s.buys[s.next := Quote(price, 0)];
    forall i: nat ensures Beats(Buy, buys, s.next, i) {
    }
    MatchRound(buys, s.sells, s.next, j);
    assert buys - {s.next} == s.buys;
    FewerUncrossed(s.buys, Reduce(s.sells, j, 0), s.buys, s.sells);
    UncrossedMatchesNothing(s.buys, Reduce(s.sells, j, 0));
  }

  lemma EmptyOffer(s: Books, price: nat, i: nat)
    requires Uncrossed(s.buys, s.sells) && IsBest(Buy, s.buys, i) && price <= s.buys[i].price && s.next !in s.sells
    ensures MatchAll(s.buys, s.sells[s.next := Quote(price, 0)]) == Sides(Reduce(s.buys, i, 0), s.sells)
  {
    var sells := s.sells[s.next := Quote(price, 0)];
    forall j: nat ensures Beats(Sell, sells, s.next, j) {
    }
    MatchRound(s.buys, sells, i, s.next);
    assert sells - {s.next} == s.sells;
    FewerUncrossed(Reduce(s.buys, i, 0), s.sells, s.buys, s.sells);
    UncrossedMatchesNothing(Reduce(s.buys, i, 0), s.sells);
  }

  lemma EmptyBuyAgrees(s: Books, t: Books, n: nat, best: nat)
    requires Twins(s, t) && AtRest(s, n) && 0 < n < 0x1_0000_0000_0000_0000 && IsBest(Sell, s.sells, best)
    ensures Agree(Market(AnyPrice, s, Buy, 0), Market(Levels(n), t, Buy, 0), n)
  {
    ShiftedBest(Sell, s.sells, t.sells, best - 1);
    ShiftedReduce(s.sells, t.sells, best - 1, 0);
    WalkOver(Sell, s.sells, 0, 0);
    WalkOver(Sell, t.sells, 0, 0);
    assert ShiftedAt(s.buys, t.buys, t.next);
    ShiftedUncrossed(s, t);
    EmptyBid(s, Extreme(AnyPrice, Buy), best);
    EmptyBid(t, Extreme(Levels(n), Buy), best - 1);
    FewerUncrossed(s.buys, Reduce(s.sells, best, 0), s.buys, s.sells);
  }

  lemma EmptySellAgrees(s: Books, t: Books, n: nat, best: nat)
    requires Twins(s, t) && AtRest(s, n) && 0 < n < 0x1_0000_0000_0000_0000 && IsBest(Buy, s.buys, best)
    ensures Agree(Market(AnyPrice, s, Sell, 0), Market(Levels(n), t, Sell, 0), n)
  {
    ShiftedBest(Buy, s.buys, t.buys, best - 1);
    ShiftedReduce(s.buys, t.buys, best - 1, 0);
    WalkOver(Buy, s.buys, 0, 0);
    WalkOver(Buy, t.buys, 0, 0);
    assert ShiftedAt(s.sells, t.sells, t.next);
    ShiftedUncrossed(s, t);
    EmptyOffer(s, Extreme(AnyPrice, Sell), best);
    EmptyOffer(t, Extreme(Levels(n), Sell), best - 1);
    FewerUncrossed(Reduce(s.buys, best, 0), s.sells, s.buys, s.sells);
  }

  lemma ShiftedUncrossed(s: Books, t: Books)
    requires Twins(s, t) && Uncrossed(s.buys, s.sells)
    ensures Uncrossed(t.buys, t.sells)
  {
    forall i: nat, j: nat | i in t.buys && j in t.sells ensures t.buys[i].price < t.sells[j].price {
      assert ShiftedAt(s.buys, t.buys, i) && ShiftedAt(s.sells, t.sells, j);
    }
  }

  /** A market order that meets nobody rests at different prices. */
  lemma LoneMarketDiffers(s: Books, t: Books, n: nat, side: Side, size: u32)
    requires Twins(s, t) && 0 < n < 0x1_0000_0000_0000_0000 && forall id :: id !in Of(s, Other(side))
    ensures !Twins(Market(AnyPrice, s, side, size).state, Market(Levels(n), t, side, size).state)
  {
    var m, u, other := Of(s, Other(side)), Of(t, Other(side)), Other(side);
    forall id: nat ensures id !in u {
      assert ShiftedAt(m, u, id);
    }
    WalkOver(other, m, size, 0);
    WalkOver(other, u, size, 0);
    var p, r := Extreme(AnyPrice, side), Extreme(Levels(n), side);
    var a := With(s, side, Of(s, side)[s.next := Quote(p, size)]);
    var b := With(t, side, Of(t, side)[t.next := Quote(r, size)]);
    MatchOver(a.buys, a.sells);
    MatchOver(b.buys, b.sells);
    if Accepts(Levels(n), r) { assert !ShiftedAt(Of(a, side), Of(b, side), t.next); }
  }

  /** The books agree on an operation exactly if it is a common one. */
  lemma BooksAgree(s: Books, t: Books, n: nat, op: Op)
    requires Twins(s, t) && AtRest(s, n) && 0 < n < 0x1_0000_0000_0000_0000
    ensures Common(op, s, n) ==> Agree(Do(AnyPrice, s, op), Do(Levels(n), t, Lower(op)), n)
    ensures !Common(op, s, n) ==> !Twins(Do(AnyPrice, s, op).state, Do(Levels(n), t, Lower(op)).state)
  {
    match op
    case LimitOrder(side, price, size) => if 1 <= price < n { LimitAgrees(s, t, n, side, price, size); }
    case CancelOrder(side, id) => CancelAgrees(s, t, n, side, id);
    case MarketOrder(side, size) =>
      if !Common(op, s, n) {
        LoneMarketDiffers(s, t, n, side, size);
      } else if size == 0 {
        var id :| id in Of(s, Other(side));
        var best := BestExists(Other(side), Of(s, Other(side)), id);
        if side == Buy { EmptyBuyAgrees(s, t, n, best); } else { EmptySellAgrees(s, t, n, best); }
      } else {
        TradingAgrees(s, t, n, side, size);
      }
  }

  /** Books that agree show the same top. */
  lemma SameTop(s: Books, t: Books, side: Side)
    requires Twins(s, t)
    ensures var o, r := Top(side, Of(s, side)), Top(side, Of(t, side));
      o == if r.id == 0 then r else Order(r.id + 1, r.price, r.size)
  {
    var m, u := Of(s, side), Of(t, side);
    if id: nat :| IsBest(side, u, id) {
      ShiftedBest(side, m, u, id);
      forall j | IsBest(side, u, j) ensures j == id { BestIsUnique(side, u, id, j); }
      forall j | IsBest(side, m, j) ensures j == id + 1 { BestIsUnique(side, m, id + 1, j); }
      assert ShiftedAt(m, u, id);
    } else {
      forall id: nat ensures !IsBest(side, m, id) {
        if IsBest(side, m, id) { ShiftedBest(side, m, u, id - 1); }
      }
    }
  }

  // ---- whole runs ----

  /** `states[i]` and `results[i]` are the state after the first `i` operations and the result of the next
      one. */
  ghost predicate Run(rules: Rules, ops: seq<Op>, states: seq<Books>, results: seq<nat>, first: nat) {
    && (rules.Levels? ==> rules.size > 0)
    && |states| == |ops| + 1 && |results| == |ops| && states[0] == Books(map[], map[], first)
    && forall i :: 0 <= i < |ops| ==> Done(rules, states[i], ops[i], states[i + 1], results[i])
  }

  ghost predicate Done(rules: Rules, s: Books, op: Op, s': Books, result: nat)
    requires rules.Levels? ==> rules.size > 0
  {
    Do(rules, s, op) == Answer(s', result)
  }

  ghost predicate AllCommon(ops: seq<Op>, states: seq<Books>, n: nat, k: nat) {
    forall i :: 0 <= i < k && i < |ops| && i < |states| ==> Common(ops[i], states[i], n)
  }

  /** Along a run of common operations, and only along one, the tick-offset book holds the orders of the
      sorted books, and answers with the same numbers less one. */
  lemma {:induction false} RunsAgree(ops: seq<Op>, lower: seq<Op>, n: nat,
                                     a: seq<Books>, ra: seq<nat>, b: seq<Books>, rb: seq<nat>, k: nat)
    requires 0 < n < 0x1_0000_0000_0000_0000 && k <= |ops|
    requires |lower| == |ops| && forall i :: 0 <= i < |ops| ==> lower[i] == Lower(ops[i])
    requires Run(AnyPrice, ops, a, ra, 2) && Run(Levels(n), lower, b, rb, 1)
    ensures (forall i :: 0 <= i <= k ==> Twins(a[i], b[i])) <==> AllCommon(ops, a, n, k)
    ensures AllCommon(ops, a, n, k) ==> AtRest(a[k], n) && forall i :: 0 <= i < k ==> ShiftedResult(ra[i], rb[i])
  {
    if k > 0 {
      var i := k - 1;
      RunsAgree(ops, lower, n, a, ra, b, rb, i);
      assert Done(AnyPrice, a[i], ops[i], a[k], ra[i]) && Done(Levels(n), b[i], lower[i], b[k], rb[i]);
      if AllCommon(ops, a, n, i) { BooksAgree(a[i], b[i], n, ops[i]); }
    }
  }

  // ---- the vector and the list ----

  /** With the same orders, the list read from its head is the vector read from its back. */
  lemma ListIsReversedVector(v: SortedSide, l: ListSide, i: nat)
    requires v.Valid() && l.Valid() && v.side == l.side && v.quotes == l.quotes
    ensures |l.g.queue| == |v.orders|
    ensures i < |v.orders| ==>
      && 0 <= l.g.queue[i] < |l.cells| && l.cells[l.g.queue[i]].Block?
      && l.cells[l.g.queue[i]].order == v.orders[|v.orders| - 1 - i]
  {
    OneRanking(v.side, Reversed(v.orders), l.g.ranking, v.quotes);
    if i < |v.orders| { assert CarriesAt(l.cells, l.g.queue, l.g.ranking, i); }
  }
}
