/**
 What users of the three order books may rely on, operation by operation and over whole runs: who trades with an
 order, what becomes of every share, and what is answered. Nothing here is said in terms of rounds of matching.
 */
module BookContract {
  import opened Trading
  import opened OrderBooks
  import opened BookAgreement

  // ---- taking shares, best order first ----

  /** Order `i` has a better price for its side than `j`, or the same price and a lower number. */
  ghost predicate Better(side: Side, m: Quotes, i: nat, j: nat) {
    i in m && j in m
    && ((if side == Buy then m[i].price > m[j].price else m[i].price < m[j].price) || (m[i].price == m[j].price && i < j))
  }

  /** Order `j` of `m` has lost shares in `g`, or is gone. */
  ghost predicate Touched(m: Quotes, g: Quotes, j: nat) {
    j in m && (j !in g || g[j].size < m[j].size)
  }

  ghost predicate InTurn(side: Side, m: Quotes, g: Quotes, i: nat, j: nat) {
    Touched(m, g, j) && Better(side, m, i, j) ==> i !in g
  }

  /** `g` is `m` without shares that were taken best order first: an order is touched only when all better ones are
      gone. Prices and numbers stay. */
  ghost predicate BestFirst(side: Side, m: Quotes, g: Quotes) {
    && g.Keys <= m.Keys && (forall id :: id in g ==> g[id].price == m[id].price && g[id].size <= m[id].size)
    && (forall i, j {:trigger InTurn(side, m, g, i, j)} :: InTurn(side, m, g, i, j))
  }

  lemma BestBetter(side: Side, m: Quotes, best: nat, j: nat)
    requires IsBest(side, m, best) && j in m && j != best
    ensures Better(side, m, best, j) && !Better(side, m, j, best)
  {
    assert Beats(side, m, best, j);
  }

  lemma TakeBest(side: Side, m: Quotes, best: nat, g: Quotes)
    requires IsBest(side, m, best) && BestFirst(side, m - {best}, g)
    ensures BestFirst(side, m, g) && Touched(m, g, best)
  {
    forall i: nat, j: nat ensures InTurn(side, m, g, i, j) {
      assert InTurn(side, m - {best}, g, i, j);
      if i in m && i != best { BestBetter(side, m, best, i); }
    }
  }

  lemma TakeSome(side: Side, m: Quotes, best: nat, n: u32)
    requires IsBest(side, m, best) && n <= m[best].size
    ensures BestFirst(side, m, Reduce(m, best, n))
  {
    var g := Reduce(m, best, n);
    forall i: nat, j: nat ensures InTurn(side, m, g, i, j) {
      if i in m && i != best { BestBetter(side, m, best, i); }
    }
  }

  // ---- an insertion ----

  /** A resting order of this price can trade with an order of `side` at `price`. */
  predicate Reaches(side: Side, price: nat, resting: nat) {
    if side == Buy then price >= resting else price <= resting
  }

  ghost predicate NoneReach(side: Side, own: Quotes, other: Quotes) {
    forall i: nat, j: nat :: i in own && j in other ==> !Reaches(side, own[i].price, other[j].price)
  }

  /** What becomes of order `id` for `size` shares at `price`, new on the side `own`: it trades with those of the other
      side that it reaches, best first, until it is filled or reaches none of what is left. What is left of it rests.
      Its own side does not change otherwise. */
  ghost predicate Entered(side: Side, own: Quotes, other: Quotes, id: nat, price: nat, size: u32, own': Quotes, other': Quotes) {
    var lost := TotalSize(other) - TotalSize(other');
    && BestFirst(Other(side), other, other')
    && (forall j :: Touched(other, other', j) ==> Reaches(side, price, other[j].price))
    && 0 <= lost <= size
    && own' - {id} == own
    && (lost < size ==>
         id in own' && own'[id] == Quote(price, size - lost) && forall j :: j in other' ==> !Reaches(side, price, other'[j].price))
    && (lost == size ==> (id in own' <==> size == 0 && forall j :: j in other ==> !Reaches(side, price, other[j].price)))
    && (id in own' ==> own'[id] == Quote(price, size - lost))
  }

  /** Matching, told from the side of the new order. */
  ghost function MatchFrom(side: Side, own: Quotes, other: Quotes): Sides {
    if side == Buy then MatchAll(own, other) else var r := MatchAll(other, own); Sides(r.sells, r.buys)
  }

  lemma NothingReached(side: Side, own: Quotes, other: Quotes)
    requires NoneReach(side, own, other)
    ensures MatchFrom(side, own, other) == Sides(own, other)
  {
    UncrossedMatchesNothing(if side == Buy then own else other, if side == Buy then other else own);
  }

  lemma OneRound(side: Side, own: Quotes, other: Quotes, i: nat, j: nat)
    requires IsBest(side, own, i) && IsBest(Other(side), other, j) && Reaches(side, own[i].price, other[j].price)
    ensures var n := Min(own[i].size, other[j].size);
      MatchFrom(side, own, other) == MatchFrom(side, Reduce(own, i, n), Reduce(other, j, n))
  {
    if side == Buy { MatchRound(own, other, i, j); } else { MatchRound(other, own, j, i); }
  }

  /** The new order is the best of its side, as it alone reaches somebody. */
  lemma NewIsBest(side: Side, own: Quotes, other: Quotes, id: nat, price: nat, size: u32, j: nat)
    requires NoneReach(side, own, other) && id !in own && IsBest(Other(side), other, j) && Reaches(side, price, other[j].price)
    ensures IsBest(side, own[id := Quote(price, size)], id)
  {
    var m := own[id := Quote(price, size)];
    forall i: nat ensures Beats(side, m, id, i) { }
  }

  lemma BestReaches(side: Side, price: nat, other: Quotes, best: nat, j: nat)
    requires IsBest(Other(side), other, best) && j in other && Reaches(side, price, other[j].price)
    ensures Reaches(side, price, other[best].price)
  {
    assert Beats(Other(side), other, best, j);
  }

  lemma EnteredMore(side: Side, own: Quotes, other: Quotes, id: nat, price: nat, size: u32, best: nat, own': Quotes, other': Quotes)
    requires IsBest(Other(side), other, best) && Reaches(side, price, other[best].price) && other[best].size < size && id !in own
    requires Entered(side, own, other - {best}, id, price, size - other[best].size, own', other')
    ensures Entered(side, own, other, id, price, size, own', other')
  {
    TakeBest(Other(side), other, best, other');
    TotalWithout(other, best);
    forall j | Touched(other, other', j) ensures Reaches(side, price, other[j].price) {
      if j != best { assert Touched(other - {best}, other', j); }
    }
  }

  lemma EnteredLast(side: Side, own: Quotes, other: Quotes, id: nat, price: nat, size: u32, best: nat)
    requires IsBest(Other(side), other, best) && Reaches(side, price, other[best].price) && size <= other[best].size && id !in own
    ensures Entered(side, own, other, id, price, size, own, Reduce(other, best, size))
  {
    TakeSome(Other(side), other, best, size);
    TotalReduced(other, best, size);
  }

  lemma FewerReach(side: Side, own: Quotes, other: Quotes, best: nat, n: u32)
    requires NoneReach(side, own, other) && best in other && n <= other[best].size
    ensures NoneReach(side, own, Reduce(other, best, n)) && NoneReach(side, own, other - {best})
  {
  }

  lemma {:induction false} MatchEnters(side: Side, own: Quotes, other: Quotes, id: nat, price: nat, size: u32)
    requires NoneReach(side, own, other) && id !in own
    ensures var r := MatchFrom(side, own[id := Quote(price, size)], other);
      Entered(side, own, other, id, price, size, r.buys, r.sells)
    decreases |other.Keys|
  {
    hide Entered, MatchFrom, BestFirst;
    var m := own[id := Quote(price, size)];
    if j: nat :| j in other && Reaches(side, price, other[j].price) {
      var best := BestExists(Other(side), other, j);
      BestReaches(side, price, other, best, j);
      NewIsBest(side, own, other, id, price, size, best);
      OneRound(side, m, other, id, best);
      FewerReach(side, own, other, best, Min(size, other[best].size));
      if size <= other[best].size {
        assert Reduce(m, id, size) == own;
        NothingReached(side, own, Reduce(other, best, size));
        EnteredLast(side, own, other, id, price, size, best);
      } else {
        assert Reduce(m, id, other[best].size) == own[id := Quote(price, size - other[best].size)];
        ReduceShrinks(other, best, other[best].size);
        MatchEnters(side, own, other - {best}, id, price, size - other[best].size);
        var r := MatchFrom(side, m, other);
        EnteredMore(side, own, other, id, price, size, best, r.buys, r.sells);
      }
    } else {
      NothingReached(side, m, other);
      EnteredAlone(side, own, other, id, price, size);
    }
  }

  lemma EnteredAlone(side: Side, own: Quotes, other: Quotes, id: nat, price: nat, size: u32)
    requires id !in own && forall j: nat :: j in other ==> !Reaches(side, price, other[j].price)
    ensures Entered(side, own, other, id, price, size, own[id := Quote(price, size)], other)
  {
    assert own[id := Quote(price, size)] - {id} == own;
  }

  /** The answer to an insertion into books that do not cross. */
  lemma InsertAnswers(rules: Rules, s: Books, side: Side, price: nat, size: u32)
    requires Uncrossed(s.buys, s.sells) && s.next !in Of(s, side)
    ensures var a := Insert(rules, s, side, price, size);
      if rules.Levels? && (price == 0 || price >= rules.size) then a == Answer(s, 0)
      else
        && a.result == s.next && a.state.next == s.next + 1
        && (if side == Buy then Entered(Buy, s.buys, s.sells, s.next, price, size, a.state.buys, a.state.sells)
            else Entered(Sell, s.sells, s.buys, s.next, price, size, a.state.sells, a.state.buys))
  {
    MatchEnters(side, Of(s, side), Of(s, Other(side)), s.next, price, size);
  }

  /** Whatever the books, an insertion neither makes nor loses shares, and one that nobody can trade with rests as it
      is. */
  lemma InsertConserves(rules: Rules, s: Books, side: Side, price: nat, size: u32)
    requires s.next !in Of(s, side) && !(rules.Levels? && (price == 0 || price >= rules.size))
    ensures var t := Insert(rules, s, side, price, size).state;
      if side == Buy then TotalSize(s.buys) + size - TotalSize(t.buys) == TotalSize(s.sells) - TotalSize(t.sells) >= 0
      else TotalSize(s.sells) + size - TotalSize(t.sells) == TotalSize(s.buys) - TotalSize(t.buys) >= 0
    ensures Uncrossed(s.buys, s.sells) && (forall j :: j in Of(s, Other(side)) ==> !Reaches(side, price, Of(s, Other(side))[j].price)) ==>
      (var t := Insert(rules, s, side, price, size).state;
        if side == Buy then t == Books(s.buys[s.next := Quote(price, size)], s.sells, s.next + 1)
        else t == Books(s.buys, s.sells[s.next := Quote(price, size)], s.next + 1))
  {
    var m := Of(s, side)[s.next := Quote(price, size)];
    TotalWithout(m, s.next);
    assert m - {s.next} == Of(s, side);
    if side == Buy { MatchConserves(m, s.sells); } else { MatchConserves(s.buys, m); }
    if Uncrossed(s.buys, s.sells) && forall j :: j in Of(s, Other(side)) ==> !Reaches(side, price, Of(s, Other(side))[j].price) {
      NothingReached(side, m, Of(s, Other(side)));
    }
  }

  // ---- a cancel ----

  /** A cancel takes the order of that number from its side, and answers with the number; if there is none it changes
      nothing and answers 0. */
  lemma CancelAnswers(s: Books, side: Side, id: nat)
    ensures side == Buy && id in s.buys ==> Cancel(s, side, id) == Answer(Books(s.buys - {id}, s.sells, s.next), id)
    ensures side == Sell && id in s.sells ==> Cancel(s, side, id) == Answer(Books(s.buys, s.sells - {id}, s.next), id)
    ensures id !in (if side == Buy then s.buys else s.sells) ==> Cancel(s, side, id) == Answer(s, 0)
  {
  }

  // ---- a market order ----

  /** What becomes of the side `m` that a market order for `size` shares walks, and the last order that it meets. */
  ghost predicate Walks(side: Side, m: Quotes, size: u32, g: Quotes, last: nat) {
    var lost := TotalSize(m) - TotalSize(g);
    && BestFirst(side, m, g)
    && 0 <= lost <= size && (lost < size ==> g == map[])
    && Touched(m, g, last) && forall j :: Touched(m, g, j) && j != last ==> Better(side, m, j, last)
  }

  lemma WalksMore(side: Side, m: Quotes, size: u32, best: nat, g: Quotes, last: nat)
    requires IsBest(side, m, best) && m[best].size <= size
    requires Walks(side, m - {best}, size - m[best].size, g, last)
    ensures Walks(side, m, size, g, last)
  {
    TakeBest(side, m, best, g);
    TotalWithout(m, best);
    BestBetter(side, m, best, last);
    forall j | Touched(m, g, j) && j != last ensures Better(side, m, j, last) {
      assert j != best ==> Touched(m - {best}, g, j);
    }
  }

  lemma WalksLast(side: Side, m: Quotes, size: u32, best: nat)
    requires IsBest(side, m, best) && 0 < size
    requires size <= m[best].size || m.Keys == {best}
    ensures var n := Min(m[best].size, size); Walks(side, m, size, Reduce(m, best, n), best)
  {
    var n := Min(m[best].size, size);
    TakeSome(side, m, best, n);
    TotalReduced(m, best, n);
    if size > m[best].size { assert (m - {best}).Keys == {}; }
  }

  lemma {:induction false} WalkTakes(side: Side, m: Quotes, size: u32, last: nat)
    requires size > 0 && m != map[]
    ensures var w := Walk(side, m, size, last); Walks(side, m, size, w.rest, w.last)
    decreases |m.Keys|
  {
    hide Walks, Walk;
    var j: nat :| j in m;
    var best := BestExists(side, m, j);
    WalkRound(side, m, size, last, best);
    if size <= m[best].size || m.Keys == {best} {
      WalksLast(side, m, size, best);
      if m[best].size <= size { WalkOver(side, m - {best}, size - m[best].size, best) by { NobodyLeft(side, m, size, best); } }
    } else {
      ReduceShrinks(m, best, m[best].size);
      assert (m - {best}).Keys == m.Keys - {best};
      WalkTakes(side, m - {best}, size - m[best].size, best);
      var w := Walk(side, m, size, last);
      WalksMore(side, m, size, best, w.rest, w.last);
    }
  }

  lemma NobodyLeft(side: Side, m: Quotes, size: u32, best: nat)
    requires best in m && (size <= m[best].size || m.Keys == {best}) && m[best].size <= size
    ensures size - m[best].size == 0 || forall id: nat :: !IsBest(side, m - {best}, id)
  {
  }

  /** The answer to a market order: if there is somebody to trade with, it takes shares of the other side, best order
      first, until it is filled or that side is empty, and answers with the number of the last order that it met.
      Otherwise it is inserted at the extreme price. */
  lemma MarketAnswers(rules: Rules, s: Books, side: Side, size: u32)
    requires (rules.Levels? ==> rules.size > 0) && 0 !in s.buys && 0 !in s.sells
    ensures var a, t := Market(rules, s, side, size), Market(rules, s, side, size).state;
      if size > 0 && Of(s, Other(side)) != map[] then
        && t.next == s.next
        && (if side == Buy then t.buys == s.buys && Walks(Sell, s.sells, size, t.sells, a.result)
            else t.sells == s.sells && Walks(Buy, s.buys, size, t.buys, a.result))
      else if side == Buy then
        a == Insert(rules, s, Buy, if rules.Levels? then rules.size - 1 else 0xFFFF_FFFF_FFFF_FFFF, size)
      else
        a == Insert(rules, s, Sell, if rules.Levels? then 1 else 0, size)
  {
    var m := Of(s, Other(side));
    if size > 0 && m != map[] {
      WalkTakes(Other(side), m, size, 0);
    } else {
      WalkOver(Other(side), m, size, 0);
      assert With(s, Other(side), m) == s;
    }
  }

  // ---- whole runs ----

  /** Between operations nothing crosses, and numbers are positive and old. */
  ghost predicate Steady(s: Books) {
    Uncrossed(s.buys, s.sells) && s.next > 0 && forall id :: id in s.buys || id in s.sells ==> 0 < id < s.next
  }

  lemma FewerSteady(s: Books, t: Books)
    requires Steady(s) && Fewer(t.buys, s.buys) && Fewer(t.sells, s.sells) && t.next >= s.next
    ensures Steady(t)
  {
  }

  lemma InsertSteady(rules: Rules, s: Books, side: Side, price: nat, size: u32)
    requires Steady(s)
    ensures Steady(Insert(rules, s, side, price, size).state)
  {
    if Accepts(rules, price) {
      var added := With(s, side, Of(s, side)[s.next := Quote(price, size)]);
      MatchLeaves(added.buys, added.sells);
      MatchUncrosses(added.buys, added.sells);
    }
  }

  lemma DoSteady(rules: Rules, s: Books, op: Op)
    requires Steady(s) && (rules.Levels? ==> rules.size > 0)
    ensures Steady(Do(rules, s, op).state)
  {
    match op
    case LimitOrder(side, price, size) => InsertSteady(rules, s, side, price, size);
    case CancelOrder(side, id) => FewerSteady(s, Cancel(s, side, id).state);
    case MarketOrder(side, size) =>
      var m := Of(s, Other(side));
      var w := Walk(Other(side), m, size, 0);
      WalkLeaves(Other(side), m, size, 0);
      FewerSteady(s, With(s, Other(side), w.rest));
      InsertSteady(rules, With(s, Other(side), w.rest), side, Extreme(rules, side), size);
  }

  /** So the laws for single operations hold for every operation of every run. */
  lemma {:induction false} RunSteady(rules: Rules, ops: seq<Op>, states: seq<Books>, results: seq<nat>, first: nat, k: nat)
    requires Run(rules, ops, states, results, first) && first > 0 && k <= |ops|
    ensures Steady(states[k])
  {
    if k > 0 {
      RunSteady(rules, ops, states, results, first, k - 1);
      assert Done(rules, states[k - 1], ops[k - 1], states[k], results[k - 1]);
      DoSteady(rules, states[k - 1], ops[k - 1]);
    }
  }

  /** The shares that an operation brings to a side. */
  ghost function Brought(rules: Rules, s: Books, op: Op, side: Side): nat {
    match op
    case LimitOrder(d, price, size) => if d == side && (rules.Levels? ==> 0 < price < rules.size) then size else 0
    case CancelOrder(_, _) => 0
    case MarketOrder(d, size) =>
      // it is inserted at the extreme price if it meets nobody
      if d == side && (if side == Buy then s.sells else s.buys) == map[] && (rules.Levels? ==> rules.size > 1) then size else 0
  }

  /** The shares that an operation takes from a side without another resting order losing as many. */
  ghost function Drawn(s: Books, op: Op, side: Side): nat {
    var m := if side == Buy then s.buys else s.sells;
    match op
    case LimitOrder(_, _, _) => 0
    case CancelOrder(d, id) => if d == side && id in m then m[id].size else 0
    case MarketOrder(d, size) => if d != side then (if size < TotalSize(m) then size else TotalSize(m)) else 0
  }

  /** One operation conserves shares: what a side had and was brought is what it has, what was drawn from it, and what
      it traded with the other side, which traded as much. */
  ghost predicate Conserved(rules: Rules, s: Books, op: Op, t: Books, traded: nat) {
    && TotalSize(s.buys) + Brought(rules, s, op, Buy) == TotalSize(t.buys) + Drawn(s, op, Buy) + traded
    && TotalSize(s.sells) + Brought(rules, s, op, Sell) == TotalSize(t.sells) + Drawn(s, op, Sell) + traded
  }

  lemma InsertTrades(rules: Rules, s: Books, side: Side, price: nat, size: u32, op: Op) returns (traded: nat)
    requires Steady(s) && Brought(rules, s, op, side) == (if rules.Levels? && (price == 0 || price >= rules.size) then 0 else size)
    requires Brought(rules, s, op, Other(side)) == Drawn(s, op, Buy) == Drawn(s, op, Sell) == 0
    ensures Conserved(rules, s, op, Insert(rules, s, side, price, size).state, traded)
  {
    traded := 0;
    if !(rules.Levels? && (price == 0 || price >= rules.size)) {
      InsertConserves(rules, s, side, price, size);
      var t := Insert(rules, s, side, price, size).state;
      traded := TotalSize(Of(s, Other(side))) - TotalSize(Of(t, Other(side)));
    }
  }

  lemma MarketTrades(rules: Rules, s: Books, side: Side, size: u32) returns (traded: nat)
    requires Steady(s) && (rules.Levels? ==> rules.size > 0)
    ensures Conserved(rules, s, MarketOrder(side, size), Market(rules, s, side, size).state, traded)
  {
    hide Market, Insert;
    var op, m, t := MarketOrder(side, size), Of(s, Other(side)), Market(rules, s, side, size).state;
    MarketAnswers(rules, s, side, size);
    traded := 0;
    if size > 0 && m != map[] {
      assert TotalSize(map[]) == 0;
    } else {
      var price := if rules.Levels? then (if side == Buy then rules.size - 1 else 1) else if side == Buy then 0xFFFF_FFFF_FFFF_FFFF else 0;
      traded := InsertTrades(rules, s, side, price, size, op);
    }
  }

  lemma OperationConserves(rules: Rules, s: Books, op: Op) returns (traded: nat)
    requires Steady(s) && (rules.Levels? ==> rules.size > 0)
    ensures Conserved(rules, s, op, Do(rules, s, op).state, traded)
  {
    match op
    case LimitOrder(side, price, size) => traded := InsertTrades(rules, s, side, price, size, op);
    case CancelOrder(side, id) =>
      traded := 0;
      if id in Of(s, side) { TotalWithout(Of(s, side), id); }
    case MarketOrder(side, size) => traded := MarketTrades(rules, s, side, size);
  }

  ghost function AllBrought(rules: Rules, ops: seq<Op>, states: seq<Books>, side: Side, k: nat): nat
    requires k <= |ops| && k <= |states|
  {
    if k == 0 then 0 else AllBrought(rules, ops, states, side, k - 1) + Brought(rules, states[k - 1], ops[k - 1], side)
  }

  ghost function AllDrawn(ops: seq<Op>, states: seq<Books>, side: Side, k: nat): nat
    requires k <= |ops| && k <= |states|
  {
    if k == 0 then 0 else AllDrawn(ops, states, side, k - 1) + Drawn(states[k - 1], ops[k - 1], side)
  }

  /** After any run of any of the three books: all shares brought to a side are still there, were drawn from it, or were
      traded; and both sides traded the same number. */
  lemma {:induction false} RunConserves(rules: Rules, ops: seq<Op>, states: seq<Books>, results: seq<nat>, first: nat, k: nat)
    returns (traded: nat)
    requires Run(rules, ops, states, results, first) && first > 0 && k <= |ops|
    ensures AllBrought(rules, ops, states, Buy, k) == TotalSize(states[k].buys) + AllDrawn(ops, states, Buy, k) + traded
    ensures AllBrought(rules, ops, states, Sell, k) == TotalSize(states[k].sells) + AllDrawn(ops, states, Sell, k) + traded
  {
    traded := 0;
    if k > 0 {
      var before := RunConserves(rules, ops, states, results, first, k - 1);
      RunSteady(rules, ops, states, results, first, k - 1);
      assert Done(rules, states[k - 1], ops[k - 1], states[k], results[k - 1]);
      var now := OperationConserves(rules, states[k - 1], ops[k - 1]);
      traded := before + now;
    }
  }

  /** The best order of a side is shown with its number, price and size; an empty side shows zeros. */
  lemma TopAnswers(side: Side, m: Quotes)
    ensures m == map[] ==> Top(side, m) == Order(0, 0, 0)
    ensures m != map[] ==>
      (var o := Top(side, m);
        o.id in m && m[o.id] == Quote(o.price, o.size) && forall j :: j in m && j != o.id ==> Better(side, m, o.id, j))
  {
    if j: nat :| j in m {
      var best := BestExists(side, m, j);
      forall i | IsBest(side, m, i) ensures i == best { BestIsUnique(side, m, i, best); }
      forall i | i in m && i != best ensures Better(side, m, best, i) { BestBetter(side, m, best, i); }
    } else {
      assert m == map[];
    }
  }
}
