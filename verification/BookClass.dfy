/**
 The three order books of `4_order_book_proj/data_structure_bench`. The sides differ in how they keep
 their orders; what the books do with their sides, written once for each book in the original, is the
 same and is written once here.
 */
module BookClass {
  import opened Trading
  import opened OrderBooks
  import opened SortedVector
  import opened SortedList
  import opened TickOffset

  /** One side of a book, in one of the three forms. */
  datatype Store = Vector(v: SortedSide) | Chain(l: ListSide) | Ticks(t: TickSide)

  ghost function Footprint(s: Store): set<object> {
    match s
    case Vector(v) => {v}
    case Chain(l) => {l}
    case Ticks(t) => {t, t.levels}
  }

  /** The orders in the store are those of the side `m`. */
  ghost predicate Holds(s: Store, side: Side, rules: Rules, m: Quotes)
    reads Footprint(s)
  {
    match s
    case Vector(v) => v.Valid() && v.side == side && v.quotes == m && rules == AnyPrice
    case Chain(l) => l.Valid() && l.side == side && l.quotes == m && rules == AnyPrice
    case Ticks(t) => t.Valid() && t.side == side && t.quotes == m && rules == Levels(t.levels.Length)
  }

  /** `o` is the best order of the side `m`, if there is one. */
  ghost predicate HeadIs(side: Side, m: Quotes, some: bool, o: Order) {
    if some then IsBest(side, m, o.id) && OrderIn(m, o.id) == o else forall id :: id !in m
  }

  method HeadOf(s: Store, ghost side: Side, ghost rules: Rules, ghost m: Quotes) returns (some: bool, o: Order)
    requires Holds(s, side, rules, m)
    ensures HeadIs(side, m, some, o)
  {
    match s
    case Vector(v) => some, o := v.Head();
    case Chain(l) => some, o := l.Head();
    case Ticks(t) => some, o := t.Head();
  }

  method AddTo(s: Store, o: Order, ghost side: Side, ghost rules: Rules, ghost m: Quotes)
    requires Holds(s, side, rules, m) && Accepts(rules, o.price) && forall id :: id in m ==> id < o.id
    modifies Footprint(s)
    ensures Holds(s, side, rules, m[o.id := AsQuote(o)])
  {
    match s
    case Vector(v) => v.Add(o);
    case Chain(l) => l.Add(o);
    case Ticks(t) => t.Add(o);
  }

  /** The best order `o` loses `n` shares, and leaves the store if nothing is left of it. */
  method FillHeadOf(s: Store, n: u32, ghost o: Order, ghost side: Side, ghost rules: Rules, ghost m: Quotes)
    requires Holds(s, side, rules, m) && HeadIs(side, m, true, o) && n <= o.size
    modifies Footprint(s)
    ensures Holds(s, side, rules, Reduce(m, o.id, n))
  {
    match s
    case Vector(v) => v.FillHead(n, o.id);
    case Chain(l) => l.FillHead(n, o.id);
    case Ticks(t) => t.FillHead(n, o.id);
  }

  method CancelIn(s: Store, id: nat, ghost side: Side, ghost rules: Rules, ghost m: Quotes) returns (found: bool)
    requires Holds(s, side, rules, m)
    modifies Footprint(s)
    ensures Holds(s, side, rules, m - {id}) && (found <==> id in m)
  {
    match s
    case Vector(v) => found := v.Cancel(id);
    case Chain(l) => found := l.Cancel(id);
    case Ticks(t) => found := t.Cancel(id);
  }

  /** Every number is below `next`. */
  ghost predicate Below(m: Quotes, next: nat) {
    forall id {:trigger NumberBelow(m, next, id)} :: NumberBelow(m, next, id)
  }

  ghost predicate NumberBelow(m: Quotes, next: nat, id: nat) {
    id in m ==> id < next
  }

  lemma BelowFewer(m: Quotes, m': Quotes, next: nat)
    requires Below(m, next) && m'.Keys <= m.Keys
    ensures Below(m', next)
  {
    forall id: nat ensures NumberBelow(m', next, id) {
      assert NumberBelow(m, next, id);
    }
  }

  /** A new order keeps numbers below the next one, and so does what is left after matching. */
  lemma BelowAdded(s: Books, side: Side, q: Quote)
    requires Below(s.buys, s.next) && Below(s.sells, s.next)
    ensures forall id :: id in Of(s, side) ==> id < s.next
    ensures var added := With(s, side, Of(s, side)[s.next := q]);
      var r := MatchAll(added.buys, added.sells);
      Below(r.buys, s.next + 1) && Below(r.sells, s.next + 1)
  {
    var added := With(s, side, Of(s, side)[s.next := q]);
    forall id: nat ensures NumberBelow(added.buys, s.next + 1, id) && (id in s.buys ==> id < s.next) {
      assert NumberBelow(s.buys, s.next, id);
    }
    forall id: nat ensures NumberBelow(added.sells, s.next + 1, id) && (id in s.sells ==> id < s.next) {
      assert NumberBelow(s.sells, s.next, id);
    }
    MatchLeaves(added.buys, added.sells);
    BelowFewer(added.buys, MatchAll(added.buys, added.sells).buys, s.next + 1);
    BelowFewer(added.sells, MatchAll(added.buys, added.sells).sells, s.next + 1);
  }

  // ---- rounds of matching ----

  /** Matching that started with `buys0` and `sells0` has come to `buys` and `sells`. */
  ghost predicate Matching(buys0: Quotes, sells0: Quotes, buys: Quotes, sells: Quotes) {
    MatchAll(buys, sells) == MatchAll(buys0, sells0)
  }

  lemma MatchingStarts(buys: Quotes, sells: Quotes)
    ensures Matching(buys, sells, buys, sells)
  {
  }

  ghost function OrdersIn(buys: Quotes, sells: Quotes): nat {
    |buys.Keys| + |sells.Keys|
  }

  lemma MatchingGoesOn(buys0: Quotes, sells0: Quotes, buys: Quotes, sells: Quotes, bid: Order, offer: Order)
    requires Matching(buys0, sells0, buys, sells)
    requires HeadIs(Buy, buys, true, bid) && HeadIs(Sell, sells, true, offer) && bid.price >= offer.price
    ensures var n := Min(bid.size, offer.size);
      && bid.id in buys && offer.id in sells && n <= buys[bid.id].size && n <= sells[offer.id].size
      && Matching(buys0, sells0, Reduce(buys, bid.id, n), Reduce(sells, offer.id, n))
      && OrdersIn(Reduce(buys, bid.id, n), Reduce(sells, offer.id, n)) < OrdersIn(buys, sells)
  {
    MatchRound(buys, sells, bid.id, offer.id);
    ReduceShrinks(buys, bid.id, Min(bid.size, offer.size));
    ReduceShrinks(sells, offer.id, Min(bid.size, offer.size));
  }

  /** Heads that do not cross, or are not there, end the matching. */
  lemma MatchingEnds(buys0: Quotes, sells0: Quotes, buys: Quotes, sells: Quotes,
                     someBid: bool, bid: Order, someOffer: bool, offer: Order)
    requires Matching(buys0, sells0, buys, sells)
    requires HeadIs(Buy, buys, someBid, bid) && HeadIs(Sell, sells, someOffer, offer)
    requires !(someBid && someOffer && bid.price >= offer.price)
    ensures Sides(buys, sells) == MatchAll(buys0, sells0)
  {
    forall i: nat, j: nat ensures !Cross(buys, sells, i, j) {
      if Cross(buys, sells, i, j) {
        BestIsUnique(Buy, buys, i, bid.id);
        BestIsUnique(Sell, sells, j, offer.id);
      }
    }
    MatchOver(buys, sells);
  }

  // ---- the walk of a market order ----

  /** A walk over `m0` for `size` shares has come to `m`. */
  ghost predicate Walking(side: Side, m0: Quotes, size: u32, m: Quotes, remaining: u32, last: nat) {
    Walk(side, m, remaining, last) == Walk(side, m0, size, 0)
  }

  lemma WalkingStarts(side: Side, m: Quotes, size: u32)
    ensures Walking(side, m, size, m, size, 0)
  {
  }

  lemma WalkingGoesOn(side: Side, m0: Quotes, size: u32, m: Quotes, remaining: u32, last: nat, best: Order)
    requires Walking(side, m0, size, m, remaining, last) && remaining > 0 && HeadIs(side, m, true, best)
    ensures var n := Min(best.size, remaining);
      && best.id in m && n <= m[best.id].size && Reduce(m, best.id, n).Keys <= m.Keys
      && Walking(side, m0, size, Reduce(m, best.id, n), remaining - n, best.id)
      && OrdersIn(Reduce(m, best.id, n), map[]) <= OrdersIn(m, map[])
      && (n == best.size ==> OrdersIn(Reduce(m, best.id, n), map[]) < OrdersIn(m, map[]))
  {
    WalkRound(side, m, remaining, last, best.id);
    ReduceShrinks(m, best.id, Min(best.size, remaining));
  }

  lemma WalkingEnds(side: Side, m0: Quotes, size: u32, m: Quotes, remaining: u32, last: nat, some: bool, best: Order)
    requires Walking(side, m0, size, m, remaining, last) && HeadIs(side, m, some, best) && (remaining == 0 || !some)
    ensures Walked(m, last) == Walk(side, m0, size, 0)
  {
  }

  lemma TopIs(side: Side, m: Quotes, some: bool, o: Order)
    requires HeadIs(side, m, some, o)
    ensures Top(side, m) == if some then o else Order(0, 0, 0)
  {
    forall id | IsBest(side, m, id) ensures some && id == o.id {
      BestIsUnique(side, m, id, o.id);
    }
  }

  class OrderBook {
    const buys: Store
    const sells: Store
    const rules: Rules
    var counter: nat
    ghost var state: Books

    /** The two sides hold the orders of `state`. */
    ghost predicate Sound()
      reads this, Footprint(buys), Footprint(sells)
    {
      && Footprint(buys) !! Footprint(sells) && this !in Footprint(buys) && this !in Footprint(sells)
      && Holds(buys, Buy, rules, state.buys) && Holds(sells, Sell, rules, state.sells)
    }

    /** The sorted books count before they number an order, the tick-offset book after. */
    ghost predicate Valid()
      reads this, Footprint(buys), Footprint(sells)
    {
      && Sound()
      && (rules.Levels? ==> rules.size > 0)
      && state.next == (if rules.AnyPrice? then counter + 1 else counter)
      && Below(state.buys, state.next) && Below(state.sells, state.next)
    }

    constructor OfVectors()
      ensures Valid() && fresh(Footprint(buys)) && fresh(Footprint(sells))
      ensures rules == AnyPrice && state == Books(map[], map[], 2)
    {
      var b := new SortedSide(Buy);
      var s := new SortedSide(Sell);
      buys, sells, rules, counter := Vector(b), Vector(s), AnyPrice, 1;
      state := Books(map[], map[], 2);
    }

    constructor OfLists()
      ensures Valid() && fresh(Footprint(buys)) && fresh(Footprint(sells))
      ensures rules == AnyPrice && state == Books(map[], map[], 2)
    {
      var b := new ListSide(Buy);
      var s := new ListSide(Sell);
      buys, sells, rules, counter := Chain(b), Chain(s), AnyPrice, 1;
      state := Books(map[], map[], 2);
    }

    constructor OfTicks(size: nat)
      requires size > 0
      ensures Valid() && fresh(Footprint(buys)) && fresh(Footprint(sells))
      ensures rules == Levels(size) && state == Books(map[], map[], 1)
    {
      var b := new TickSide(Buy, size);
      var s := new TickSide(Sell, size);
      buys, sells, rules, counter := Ticks(b), Ticks(s), Levels(size), 1;
      state := Books(map[], map[], 1);
    }

    /** One round of `match`. */
    method TradeHeads(bid: Order, offer: Order, ghost start: Sides)
      requires Sound() && Matching(start.buys, start.sells, state.buys, state.sells)
      requires HeadIs(Buy, state.buys, true, bid) && HeadIs(Sell, state.sells, true, offer) && bid.price >= offer.price
      modifies this`state, Footprint(buys), Footprint(sells)
      ensures Sound() && Matching(start.buys, start.sells, state.buys, state.sells) && state.next == old(state.next)
      ensures OrdersIn(state.buys, state.sells) < OrdersIn(old(state.buys), old(state.sells))
    {
      hide Holds, Matching, HeadIs, OrdersIn;
      MatchingGoesOn(start.buys, start.sells, state.buys, state.sells, bid, offer);
      var fill := Min(bid.size, offer.size);
      FillHeadOf(buys, fill, bid, Buy, rules, state.buys);
      FillHeadOf(sells, fill, offer, Sell, rules, state.sells);
      state := state.(buys := Reduce(state.buys, bid.id, fill), sells := Reduce(state.sells, offer.id, fill));
    }

    /** `match` */
    method Match()
      requires Sound()
      modifies this`state, Footprint(buys), Footprint(sells)
      ensures Sound()
      ensures var r := MatchAll(old(state.buys), old(state.sells)); state == old(state).(buys := r.buys, sells := r.sells)
    {
      hide Holds, Matching, HeadIs, OrdersIn, MatchAll;
      ghost var start := Sides(state.buys, state.sells);
      var someBid, bid := HeadOf(buys, Buy, rules, state.buys);
      var someOffer, offer := HeadOf(sells, Sell, rules, state.sells);
      MatchingStarts(state.buys, state.sells);
      while someBid && someOffer && bid.price >= offer.price
        invariant Sound() && Matching(start.buys, start.sells, state.buys, state.sells) && state.next == old(state.next)
        invariant HeadIs(Buy, state.buys, someBid, bid) && HeadIs(Sell, state.sells, someOffer, offer)
        decreases OrdersIn(state.buys, state.sells)
      {
        TradeHeads(bid, offer, start);
        someBid, bid := HeadOf(buys, Buy, rules, state.buys);
        someOffer, offer := HeadOf(sells, Sell, rules, state.sells);
      }
      MatchingEnds(start.buys, start.sells, state.buys, state.sells, someBid, bid, someOffer, offer);
    }

    /** `insert_buy_order` and `insert_sell_order` */
    method InsertOrder(side: Side, price: nat, size: u32) returns (id: nat)
      requires Valid()
      modifies this, Footprint(buys), Footprint(sells)
      ensures Valid()
      ensures var a := Insert(rules, old(state), side, price, size); state == a.state && id == a.result
    {
      hide Holds, MatchAll, Below;
      if rules.Levels? && (price == 0 || price >= rules.size) {
        return 0;
      }
      ghost var s := state;
      if rules.AnyPrice? {
        counter := counter + 1;
        id := counter;
      } else {
        id := counter;
        counter := counter + 1;
      }
      BelowAdded(s, side, Quote(price, size));
      if side == Buy {
        AddTo(buys, Order(id, price, size), Buy, rules, state.buys);
      } else {
        AddTo(sells, Order(id, price, size), Sell, rules, state.sells);
      }
      state := With(s, side, Of(s, side)[id := Quote(price, size)]);
      Match();
      state := state.(next := id + 1);
    }

    /** `cancel_buy_order` and `cancel_sell_order` */
    method CancelOrder(side: Side, id: nat) returns (r: nat)
      requires Valid()
      modifies this`state, Footprint(buys), Footprint(sells)
      ensures Valid()
      ensures var a := Cancel(old(state), side, id); state == a.state && r == a.result
    {
      hide Holds, Below;
      BelowFewer(Of(state, side), Of(state, side) - {id}, state.next);
      var found;
      if side == Buy {
        found := CancelIn(buys, id, Buy, rules, state.buys);
      } else {
        found := CancelIn(sells, id, Sell, rules, state.sells);
      }
      assert !found ==> Of(state, side) - {id} == Of(state, side);
      state := With(state, side, Of(state, side) - {id});
      return if found then id else 0;
    }

    /** The loop of a market order over the side `s` that it trades with. */
    method WalkSide(s: Store, side: Side, size: u32, ghost m0: Quotes) returns (last: nat, ghost m: Quotes)
      requires Holds(s, side, rules, m0)
      modifies Footprint(s)
      ensures Holds(s, side, rules, m) && m.Keys <= m0.Keys
      ensures Walked(m, last) == Walk(side, m0, size, 0)
    {
      hide Holds, Walking, HeadIs, Walk, OrdersIn;
      var remaining: u32 := size;
      m, last := m0, 0;
      var some, best := HeadOf(s, side, rules, m);
      WalkingStarts(side, m0, size);
      while remaining > 0 && some
        invariant Holds(s, side, rules, m) && HeadIs(side, m, some, best)
        invariant Walking(side, m0, size, m, remaining, last) && m.Keys <= m0.Keys
        decreases OrdersIn(m, map[]), remaining
      {
        WalkingGoesOn(side, m0, size, m, remaining, last, best);
        last := best.id;
        if best.size <= remaining {
          FillHeadOf(s, best.size, best, side, rules, m);
          m := Reduce(m, best.id, best.size);
          remaining := remaining - best.size;
        } else {
          FillHeadOf(s, remaining, best, side, rules, m);
          m := Reduce(m, best.id, remaining);
          remaining := 0;
        }
        some, best := HeadOf(s, side, rules, m);
      }
      WalkingEnds(side, m0, size, m, remaining, last, some, best);
    }

    /** `market_buy_order` and `market_sell_order` */
    method MarketOrder(side: Side, size: u32) returns (r: nat)
      requires Valid()
      modifies this, Footprint(buys), Footprint(sells)
      ensures Valid()
      ensures var a := Market(rules, old(state), side, size); state == a.state && r == a.result
    {
      hide Holds, Below, Walk, Insert;
      ghost var s, m := state, map[];
      if side == Buy {
        r, m := WalkSide(sells, Sell, size, s.sells);
      } else {
        r, m := WalkSide(buys, Buy, size, s.buys);
      }
      BelowFewer(Of(s, Other(side)), m, s.next);
      state := With(s, Other(side), m);
      if r == 0 {
        r := InsertOrder(side, Extreme(rules, side), size);
      }
    }

    /** `top_of_book` */
    method TopOfBook() returns (bid: Order, offer: Order)
      requires Valid()
      ensures bid == Top(Buy, state.buys) && offer == Top(Sell, state.sells)
    {
      hide Holds, Below;
      var someBid, someOffer;
      someBid, bid := HeadOf(buys, Buy, rules, state.buys);
      someOffer, offer := HeadOf(sells, Sell, rules, state.sells);
      TopIs(Buy, state.buys, someBid, bid);
      TopIs(Sell, state.sells, someOffer, offer);
      bid := if someBid then bid else Order(0, 0, 0);
      offer := if someOffer then offer else Order(0, 0, 0);
    }
  }
}
