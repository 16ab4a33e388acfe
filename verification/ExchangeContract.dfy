/**
 What senders may rely on, answer by answer: whom a request trades with, in which order and at which price, what
 becomes of the rest, and every message that is sent. Nothing here is said in terms of how the exchange matches.
 */
module ExchangeContract {
  import opened Trading
  import opened Exchange
  import opened ExchangeLaws
  import opened ExchangeLedger

  // ---- whom a request trades with ----

  /** Order `id` is among the makers. */
  ghost predicate Met(fills: seq<Fill>, id: int) {
    exists i :: 0 <= i < |fills| && fills[i].id == id
  }

  ghost predicate GoodFill(book: Book, side: Side, price: int, f: Fill) {
    CrossesAt(book, side, price, f.id) && f.maker == book[f.id] && 0 < f.qty <= f.maker.qty
  }

  /** The makers cross, best first; all but the last are filled, and the last one too if something is left. */
  ghost predicate Prioritised(book: Book, side: Side, price: int, fills: seq<Fill>, left: u32) {
    && (forall i :: 0 <= i < |fills| ==> GoodFill(book, side, price, fills[i]))
    && (forall i, j :: 0 <= i < j < |fills| ==> Before(side, fills[i].id, fills[i].maker, fills[j].id, fills[j].maker))
    && (forall i :: 0 <= i < |fills| && (i < |fills| - 1 || left > 0) ==> fills[i].qty == fills[i].maker.qty)
  }

  /** An order that crosses and is not met waits behind all makers, and nothing of the request is left for it. */
  ghost predicate Waits(book: Book, side: Side, price: int, fills: seq<Fill>, left: u32, id: int) {
    CrossesAt(book, side, price, id) && !Met(fills, id) ==>
      left == 0 && forall i :: 0 <= i < |fills| ==> Before(side, fills[i].id, fills[i].maker, id, book[id])
  }

  /** Makers lose their shares, and nothing else changes. */
  ghost predicate Taken(book: Book, fills: seq<Fill>, g: Book) {
    && g.Keys <= book.Keys
    && (forall id :: id in book && !Met(fills, id) ==> id in g && g[id] == book[id])
    && (forall i :: 0 <= i < |fills| && fills[i].id in book && fills[i].qty <= book[fills[i].id].qty ==>
         if fills[i].qty == book[fills[i].id].qty then fills[i].id !in g
         else fills[i].id in g && g[fills[i].id] == book[fills[i].id].(qty := book[fills[i].id].qty - fills[i].qty))
  }

  ghost predicate Trades(book: Book, side: Side, price: int, qty: u32, m: Matched) {
    && Prioritised(book, side, price, m.fills, m.left)
    && (forall id {:trigger Waits(book, side, price, m.fills, m.left, id)} :: Waits(book, side, price, m.fills, m.left, id))
    && Taken(book, m.fills, m.book)
    && AllShares(m.fills) + m.left == qty
  }

  lemma OneFill(book: Book, side: Side, price: int, id: int, n: u32)
    requires IsBest(book, side, price, id) && 0 < n < book[id].qty
    ensures Trades(book, side, price, n, Matched(Take(book, id, n), [Fill(id, book[id], n)], 0))
  {
    var f := Fill(id, book[id], n);
    assert [f][1..] == [];
    forall j ensures Met([f], j) <==> j == id {
      assert [f][0].id == id;
    }
  }

  lemma NoFill(book: Book, side: Side, price: int, qty: u32)
    requires qty == 0 || forall id :: !CrossesAt(book, side, price, id)
    ensures Trades(book, side, price, qty, Matched(book, [], qty))
  {
  }

  lemma FillFirst(book: Book, side: Side, price: int, qty: u32, id: int, rest: Matched)
    requires IsBest(book, side, price, id) && 0 < book[id].qty <= qty
    requires Trades(book - {id}, side, price, qty - book[id].qty, rest)
    ensures Trades(book, side, price, qty, Matched(rest.book, [Fill(id, book[id], book[id].qty)] + rest.fills, rest.left))
  {
    var f := Fill(id, book[id], book[id].qty);
    PrioritisedFirst(book, side, price, f, rest.fills, rest.left);
    forall i | 0 <= i < |rest.fills| ensures rest.fills[i].id != id {
      assert GoodFill(book - {id}, side, price, rest.fills[i]);
    }
    TakenFirst(book, f, rest.fills, rest.book);
    forall j ensures Waits(book, side, price, [f] + rest.fills, rest.left, j) {
      assert Waits(book - {id}, side, price, rest.fills, rest.left, j);
      MetFirst(f, rest.fills, j);
    }
    assert ([f] + rest.fills)[1..] == rest.fills;
    hide Prioritised, Taken;
  }

  lemma PrioritisedFirst(book: Book, side: Side, price: int, f: Fill, rest: seq<Fill>, left: u32)
    requires IsBest(book, side, price, f.id) && f == Fill(f.id, book[f.id], book[f.id].qty) && f.qty > 0
    requires Prioritised(book - {f.id}, side, price, rest, left)
    ensures Prioritised(book, side, price, [f] + rest, left)
  {
    forall i | 0 <= i < |rest| ensures rest[i].id in book && rest[i].id != f.id && rest[i].maker == book[rest[i].id] {
      assert GoodFill(book - {f.id}, side, price, rest[i]);
    }
  }

  lemma TakenFirst(book: Book, f: Fill, rest: seq<Fill>, g: Book)
    requires f.id in book && f.qty == book[f.id].qty && Taken(book - {f.id}, rest, g)
    requires forall i :: 0 <= i < |rest| ==> rest[i].id != f.id
    ensures Taken(book, [f] + rest, g)
  {
    forall id ensures Met([f] + rest, id) <==> id == f.id || Met(rest, id) { MetFirst(f, rest, id); }
    assert f.id !in g;
  }

  lemma MetFirst(f: Fill, rest: seq<Fill>, id: int)
    ensures Met([f] + rest, id) <==> id == f.id || Met(rest, id)
  {
    if Met(rest, id) {
      var i :| 0 <= i < |rest| && rest[i].id == id;
      assert ([f] + rest)[i + 1].id == id;
    }
    if id == f.id { assert ([f] + rest)[0].id == id; }
  }

  lemma {:induction false} MatchTrades(book: Book, side: Side, price: int, qty: u32)
    requires Positive(book)
    ensures Trades(book, side, price, qty, Match(book, side, price, qty))
    decreases |book.Keys|, qty
  {
    hide Trades, Match;
    if c :| qty > 0 && CrossesAt(book, side, price, c) {
      BestExists(book, side, price, c);
      var id :| IsBest(book, side, price, id);
      var n := Min(qty, book[id].qty);
      MatchRound(book, side, price, qty, id);
      if n == book[id].qty {
        assert (book - {id}).Keys == book.Keys - {id};
        MatchTrades(book - {id}, side, price, qty - n);
        FillFirst(book, side, price, qty, id, Match(book - {id}, side, price, qty - n));
      } else {
        OneFill(book, side, price, id, n);
      }
    } else {
      MatchStops(book, side, price, qty);
      NoFill(book, side, price, qty);
    }
  }

  // ---- what is sent ----

  lemma {:induction false} FillReports(q: Request, fills: seq<Fill>, number: int, i: nat)
    requires i < |fills|
    ensures var msgs, f := AllFillMsgs(q, fills, number), fills[i];
      && |msgs| == 2 * |fills|
      && msgs[2 * i] == Executed(q.account, q.urn, f.qty, f.maker.price, 'R', number + i)
      && msgs[2 * i + 1] == Executed(f.maker.account, f.maker.urn, f.qty, f.maker.price, 'A', number + i)
  {
    if i > 0 {
      FillReports(q, fills[1..], number + 1, i - 1);
    } else if |fills| > 1 {
      FillReports(q, fills[1..], number + 1, 0);
    }
  }

  lemma ReportsWithin(q: Request, first: Msg, fills: seq<Fill>, number: int, end: seq<Msg>)
    ensures var msgs := [first] + AllFillMsgs(q, fills, number) + end;
      && |msgs| == 1 + 2 * |fills| + |end| && msgs[0] == first && (end != [] ==> msgs[1 + 2 * |fills|] == end[0])
      && forall i {:trigger fills[i]} :: 0 <= i < |fills| ==>
        && msgs[1 + 2 * i] == Executed(q.account, q.urn, fills[i].qty, fills[i].maker.price, 'R', number + i)
        && msgs[2 + 2 * i] ==
             Executed(fills[i].maker.account, fills[i].maker.urn, fills[i].qty, fills[i].maker.price, 'A', number + i)
  {
    var all := AllFillMsgs(q, fills, number);
    if fills != [] { FillReports(q, fills, number, 0); }
    forall i | 0 <= i < |fills|
      ensures all[2 * i] == Executed(q.account, q.urn, fills[i].qty, fills[i].maker.price, 'R', number + i)
      ensures all[2 * i + 1] ==
        Executed(fills[i].maker.account, fills[i].maker.urn, fills[i].qty, fills[i].maker.price, 'A', number + i)
    {
      FillReports(q, fills, number, i);
    }
  }

  /** Whom request `q` trades with in book `b`: with resting orders of the other side at acceptable prices; in the
      order of price, then of age; each filled before the next, and before any share is left over; and whoever else
      could have traded comes later, and found nothing left. */
  ghost predicate TradesWith(b: Book, q: Request, fills: seq<Fill>, left: u32) {
    && (forall i :: 0 <= i < |fills| ==> var f := fills[i];
         && f.id in b && f.maker == b[f.id] && 0 < f.qty <= f.maker.qty && f.maker.side != q.side
         && (q.price == 0x7FFF_FFFF || if q.side == Buy then f.maker.price <= q.price else f.maker.price >= q.price))
    && (forall i, j :: 0 <= i < j < |fills| ==> var o, p := fills[i].maker, fills[j].maker;
         (if q.side == Buy then o.price < p.price else o.price > p.price) || (o.price == p.price && fills[i].id < fills[j].id))
    && (forall i :: 0 <= i < |fills| && (i < |fills| - 1 || left > 0) ==> fills[i].qty == fills[i].maker.qty)
    && AllShares(fills) + left == q.qty
    && (forall id {:trigger PassedOver(b, q, fills, left, id)} :: PassedOver(b, q, fills, left, id))
  }

  ghost predicate PassedOver(b: Book, q: Request, fills: seq<Fill>, left: u32, id: int) {
    id in b && b[id].side != q.side && !Met(fills, id)
    && (q.price == 0x7FFF_FFFF || if q.side == Buy then b[id].price <= q.price else b[id].price >= q.price) ==>
      left == 0 && forall i :: 0 <= i < |fills| ==> var o, p := fills[i].maker, b[id];
        (if q.side == Buy then o.price < p.price else o.price > p.price) || (o.price == p.price && fills[i].id < id)
  }

  /** What becomes of the book: makers lose their shares, and order `id`, if it rests, joins with what is left of it. */
  ghost predicate BookAfter(b: Book, q: Request, fills: seq<Fill>, left: u32, rests: bool, id: int, g: Book) {
    && (forall j :: j in b && !Met(fills, j) ==> j in g && g[j] == b[j])
    && (forall i :: 0 <= i < |fills| && fills[i].qty <= fills[i].maker.qty ==> var f, o := fills[i], fills[i].maker;
         if f.qty == o.qty then f.id !in g
         else f.id in g && g[f.id] == Order(o.account, o.urn, o.side, o.price, o.qty - f.qty))
    && (forall j :: j in g ==> j in b || (rests && j == id))
    && (rests ==> id in g && g[id] == Order(q.account, q.urn, q.side, q.price, left))
  }

  /** What is sent: the request is accepted as number `id`, each fill is reported to both sides at the price of the
      resting order under the next match number, and a rest that cannot stay is cancelled. */
  ghost predicate Says(q: Request, fills: seq<Fill>, left: u32, rests: bool, id: int, matches: int, msgs: seq<Msg>) {
    && |msgs| == 1 + 2 * |fills| + (if left > 0 && !rests then 1 else 0)
    && msgs[0] == Accepted(q.account, q.urn, q.side, q.qty, q.price, id)
    && (forall i {:trigger fills[i]} :: 0 <= i < |fills| ==> var f, o := fills[i], fills[i].maker;
         && msgs[1 + 2 * i] == Executed(q.account, q.urn, f.qty, o.price, 'R', matches + 1 + i)
         && msgs[2 + 2 * i] == Executed(o.account, o.urn, f.qty, o.price, 'A', matches + 1 + i))
    && (left > 0 && !rests ==>
         msgs[1 + 2 * |fills|] == Cancelled(q.account, q.urn, left, if q.price == 0x7FFF_FFFF then 'I' else 'Z'))
  }

  lemma MatchTradesWith(s: State, q: Request, levels: int, capacity: int)
    requires StateInv(s, levels, capacity)
    ensures var m := Match(s.book, q.side, q.price, q.qty); TradesWith(s.book, q, m.fills, m.left)
  {
    LegalPositive(s.book, s.accepted, levels);
    MatchTrades(s.book, q.side, q.price, q.qty);
    var m := Match(s.book, q.side, q.price, q.qty);
    hide Match, StateInv, Taken;
    forall i | 0 <= i < |m.fills| ensures GoodFill(s.book, q.side, q.price, m.fills[i]) { }
    forall id ensures PassedOver(s.book, q, m.fills, m.left, id) {
      assert Waits(s.book, q.side, q.price, m.fills, m.left, id);
    }
  }

  lemma EnterBook(s: State, q: Request, levels: int, capacity: int)
    requires StateInv(s, levels, capacity) && MayEnter(s, q, levels)
    ensures var m := Match(s.book, q.side, q.price, q.qty);
      BookAfter(s.book, q, m.fills, m.left, Rests(q, m, capacity), s.accepted + 1, Enter(s, q, capacity).state.book)
  {
    LegalPositive(s.book, s.accepted, levels);
    MatchTrades(s.book, q.side, q.price, q.qty);
    var m, g := Match(s.book, q.side, q.price, q.qty), Enter(s, q, capacity).state.book;
    assert s.accepted + 1 !in s.book;
    hide Match;
    forall i | 0 <= i < |m.fills| ensures GoodFill(s.book, q.side, q.price, m.fills[i]) { }
  }

  lemma EnterRests(s: State, q: Request, levels: int, capacity: int)
    requires StateInv(s, levels, capacity)
    ensures var m := Match(s.book, q.side, q.price, q.qty);
      Rests(q, m, capacity) <==> m.left > 0 && q.price != 0x7FFF_FFFF && (m.fills != [] || |s.book.Keys| < capacity)
  {
    LegalPositive(s.book, s.accepted, levels);
    MatchLeaves(s.book, q.side, q.price, q.qty);
  }

  lemma EnterSays(s: State, q: Request, capacity: int)
    ensures var m, r := Match(s.book, q.side, q.price, q.qty), Enter(s, q, capacity);
      Says(q, m.fills, m.left, Rests(q, m, capacity), s.accepted + 1, s.matches, r.msgs)
  {
    hide Match;
    var m := Match(s.book, q.side, q.price, q.qty);
    ReportsWithin(q, Accepted(q.account, q.urn, q.side, q.qty, q.price, s.accepted + 1), m.fills, s.matches + 1, Ending(q, m, capacity));
  }

  /** The answer to an Enter Order request, in full. It trades with `fills`, `left` shares are left of it, and `rests`
      says whether they stay in the book. */
  lemma EnterAnswers(s: State, q: Request, levels: int, capacity: int) returns (fills: seq<Fill>, left: u32, rests: bool)
    requires StateInv(s, levels, capacity) && MayEnter(s, q, levels)
    ensures TradesWith(s.book, q, fills, left)
    ensures rests <==> left > 0 && q.price != 0x7FFF_FFFF && (fills != [] || |s.book.Keys| < capacity)
    ensures var r, id := Enter(s, q, capacity), s.accepted + 1;
      && BookAfter(s.book, q, fills, left, rests, id, r.state.book)
      && Says(q, fills, left, rests, id, s.matches, r.msgs)
      && r.state.accepted == id && r.state.matches == s.matches + |fills| && r.result == (if rests then id else 0)
  {
    var m := Match(s.book, q.side, q.price, q.qty);
    fills, left, rests := m.fills, m.left, Rests(q, m, capacity);
    MatchTradesWith(s, q, levels, capacity);
    EnterBook(s, q, levels, capacity);
    EnterRests(s, q, levels, capacity);
    EnterSays(s, q, capacity);
    hide TradesWith, BookAfter, Says, Match;
  }

  /** The answer to a Cancel Order request, in full: an open order keeps `qty` shares, and its number and place. */
  lemma CancelAnswers(s: State, account: u32, urn: u32, qty: u32, levels: int, capacity: int)
    requires StateInv(s, levels, capacity)
    ensures forall id :: id in s.book && s.book[id].account == account && s.book[id].urn == urn && qty < s.book[id].qty ==>
      (var o := s.book[id];
        Cancel(s, account, urn, qty) ==
          Response(State(if qty == 0 then s.book - {id} else s.book[id := Order(account, urn, o.side, o.price, qty)], s.accepted, s.matches),
                   [Cancelled(account, urn, o.qty - qty, 'U')], o.qty - qty))
    ensures (forall id :: id in s.book && s.book[id].account == account && s.book[id].urn == urn ==> qty >= s.book[id].qty) ==>
      Cancel(s, account, urn, qty) == Response(s, [CancelRejected(account, urn)], 0)
  {
    forall id | Resting(s.book, account, urn, id)
      ensures Cancel(s, account, urn, qty) ==
        if qty >= s.book[id].qty then Response(s, [CancelRejected(account, urn)], 0)
        else Response(s.(book := Take(s.book, id, s.book[id].qty - qty)), [Cancelled(account, urn, s.book[id].qty - qty, 'U')], s.book[id].qty - qty)
    {
      CancelActsOn(s, account, urn, qty, id);
    }
  }
}
