/**
 Share conservation and match numbering over whole runs of the exchange.
 */
module ExchangeLedger {
  import opened Trading
  import opened Exchange
  import opened ExchangeLaws

  datatype Input = EnterOrder(q: Request) | CancelOrder(account: u32, urn: u32, qty: u32)

  ghost function Respond(s: State, x: Input, capacity: int): Response {
    match x
    case EnterOrder(q) => Enter(s, q, capacity)
    case CancelOrder(account, urn, qty) => Cancel(s, account, urn, qty)
  }

  ghost predicate MaySend(s: State, x: Input, levels: int) {
    x.EnterOrder? ==> MayEnter(s, x.q, levels)
  }

  lemma RespondKeeps(s: State, x: Input, levels: int, capacity: int)
    requires StateInv(s, levels, capacity) && MaySend(s, x, levels)
    ensures StateInv(Respond(s, x, capacity).state, levels, capacity)
  {
    match x
    case EnterOrder(q) => EnterKeeps(s, q, levels, capacity);
    case CancelOrder(account, urn, qty) => CancelKeeps(s, account, urn, qty, levels, capacity);
  }

  // ---- the ledger ----

  /** What a message says of the shares of an order: entered, traded, or cancelled. */
  datatype Entry = Entered | Traded | Withdrawn

  function Shares(e: Entry, msg: Msg, account: u32, urn: u32): nat {
    match msg
    case Accepted(a, u, _, qty, _, _) => if e == Entered && a == account && u == urn then qty else 0
    case Executed(a, u, qty, _, _, _) => if e == Traded && a == account && u == urn then qty else 0
    case Cancelled(a, u, qty, _) => if e == Withdrawn && a == account && u == urn then qty else 0
    case CancelRejected(_, _) => 0
  }

  function Total(e: Entry, msgs: seq<Msg>, account: u32, urn: u32): nat {
    if msgs == [] then 0 else Shares(e, msgs[0], account, urn) + Total(e, msgs[1..], account, urn)
  }

  lemma {:induction false} TotalOfConcat(e: Entry, x: seq<Msg>, y: seq<Msg>, account: u32, urn: u32)
    ensures Total(e, x + y, account, urn) == Total(e, x, account, urn) + Total(e, y, account, urn)
  {
    if x == [] {
      assert x + y == y;
    } else {
      assert (x + y)[1..] == x[1..] + y;
      TotalOfConcat(e, x[1..], y, account, urn);
    }
  }

  /** The shares of an order that are open in the book. */
  ghost function Open(book: Book, account: u32, urn: u32): int {
    if id :| Resting(book, account, urn, id) then book[id].qty else 0
  }

  lemma OpenIs(book: Book, account: u32, urn: u32, id: int)
    requires OneEach(book) && Resting(book, account, urn, id)
    ensures Open(book, account, urn) == book[id].qty
  {
    forall j | Resting(book, account, urn, j) ensures j == id {
      assert book[j].account == book[id].account;
    }
  }

  /** Taking `n` shares of order `id` takes them from its own account, and from no other. */
  lemma OpenAfterTake(book: Book, id: int, n: int, account: u32, urn: u32)
    requires OneEach(book) && Positive(book) && id in book && 0 <= n <= book[id].qty
    ensures Open(Take(book, id, n), account, urn) ==
      Open(book, account, urn) - (if book[id].account == account && book[id].urn == urn then n else 0)
  {
    var g := Take(book, id, n);
    TakeIs(book, id, n);
    LessKeeps(g, book, 0, 0);
    if i :| Resting(book, account, urn, i) {
      OpenIs(book, account, urn, i);
      if i in g {
        assert Resting(g, account, urn, i);
        OpenIs(g, account, urn, i);
        assert i == id <==> (book[id].account == account && book[id].urn == urn);
      } else {
        assert i == id;
        forall j ensures !Resting(g, account, urn, j) {
          if j in g { assert Resting(book, account, urn, j) <==> Resting(g, account, urn, j); }
        }
      }
    } else {
      forall j ensures !Resting(g, account, urn, j) {
        assert !Resting(book, account, urn, j);
      }
      assert !Resting(book, account, urn, id);
    }
  }

  /** Shares that fills take from one maker, and from all makers. */
  function MakerShares(fills: seq<Fill>, account: u32, urn: u32): nat {
    if fills == [] then 0
    else (if fills[0].maker.account == account && fills[0].maker.urn == urn then fills[0].qty else 0)
         + MakerShares(fills[1..], account, urn)
  }

  function AllShares(fills: seq<Fill>): nat {
    if fills == [] then 0 else fills[0].qty + AllShares(fills[1..])
  }

  /** Equal amounts leave both sides: the fills take from the book, maker by maker, what the request for
      `qty` shares no longer has left. */
  ghost predicate Conserves(book: Book, qty: u32, m: Matched, account: u32, urn: u32) {
    && AllShares(m.fills) == qty - m.left
    && Open(m.book, account, urn) == Open(book, account, urn) - MakerShares(m.fills, account, urn)
  }

  lemma ConservesMore(book: Book, id: int, n: u32, qty: u32, rest: Matched, account: u32, urn: u32)
    requires OneEach(book) && Positive(book) && id in book && n <= book[id].qty && n <= qty
    requires Conserves(Take(book, id, n), qty - n, rest, account, urn)
    ensures Conserves(book, qty, Matched(rest.book, [Fill(id, book[id], n)] + rest.fills, rest.left), account, urn)
  {
    OpenAfterTake(book, id, n, account, urn);
    assert ([Fill(id, book[id], n)] + rest.fills)[1..] == rest.fills;
  }

  lemma ConservesNothing(book: Book, qty: u32, account: u32, urn: u32)
    ensures Conserves(book, qty, Matched(book, [], qty), account, urn)
  {
  }

  lemma {:induction false} MatchConserves(book: Book, side: Side, price: int, qty: u32, account: u32, urn: u32)
    requires OneEach(book) && Positive(book)
    ensures Conserves(book, qty, Match(book, side, price, qty), account, urn)
    decreases |book.Keys|, qty
  {
    hide Match, Conserves;
    if c :| qty > 0 && CrossesAt(book, side, price, c) {
      BestExists(book, side, price, c);
      var id :| IsBest(book, side, price, id);
      var n := Min(qty, book[id].qty);
      var g := Take(book, id, n);
      MatchRound(book, side, price, qty, id);
      TakeIs(book, id, n);
      if n == book[id].qty {
        LessKeeps(g, book, 0, 0);
        MatchConserves(g, side, price, qty - n, account, urn);
        ConservesMore(book, id, n, qty, Match(g, side, price, qty - n), account, urn);
      } else {
        var f := Fill(id, book[id], n);
        assert [f] + [] == [f];
        ConservesNothing(g, 0, account, urn);
        ConservesMore(book, id, n, qty, Matched(g, [], 0), account, urn);
      }
    } else {
      MatchStops(book, side, price, qty);
      ConservesNothing(book, qty, account, urn);
    }
  }

  lemma {:induction false} FillTotals(q: Request, fills: seq<Fill>, number: int, account: u32, urn: u32)
    ensures var msgs := AllFillMsgs(q, fills, number);
      && Total(Entered, msgs, account, urn) == Total(Withdrawn, msgs, account, urn) == 0
      && Total(Traded, msgs, account, urn) ==
           (if q.account == account && q.urn == urn then AllShares(fills) else 0) + MakerShares(fills, account, urn)
  {
    if fills != [] {
      var first, rest := FillMsgs(q, fills[0], number), AllFillMsgs(q, fills[1..], number + 1);
      FillTotals(q, fills[1..], number + 1, account, urn);
      PairTotal(Entered, first[0], first[1], rest, account, urn);
      PairTotal(Traded, first[0], first[1], rest, account, urn);
      PairTotal(Withdrawn, first[0], first[1], rest, account, urn);
    }
  }

  lemma PairTotal(e: Entry, x: Msg, y: Msg, rest: seq<Msg>, account: u32, urn: u32)
    ensures Total(e, [x, y] + rest, account, urn) ==
      Shares(e, x, account, urn) + Shares(e, y, account, urn) + Total(e, rest, account, urn)
  {
    assert ([x, y] + rest)[1..] == [y] + rest && ([y] + rest)[1..] == rest;
  }

  lemma FramedTotal(e: Entry, x: Msg, msgs: seq<Msg>, end: seq<Msg>, account: u32, urn: u32)
    requires |end| <= 1
    ensures Total(e, [x] + msgs + end, account, urn) ==
      Shares(e, x, account, urn) + Total(e, msgs, account, urn) + (if end == [] then 0 else Shares(e, end[0], account, urn))
  {
    assert ([x] + msgs + end)[1..] == msgs + end;
    TotalOfConcat(e, msgs, end, account, urn);
    if end != [] { assert end[1..] == []; }
  }

  /** The account of one order balances: shares entered are traded, withdrawn or still open. */
  ghost predicate Balanced(msgs: seq<Msg>, open: int, account: u32, urn: u32) {
    Total(Entered, msgs, account, urn) == Total(Traded, msgs, account, urn) + Total(Withdrawn, msgs, account, urn) + open
  }

  lemma OpenAfterRest(book: Book, q: Request, left: u32, id: int, account: u32, urn: u32)
    requires id !in book && forall j :: !Resting(book, q.account, q.urn, j)
    requires OneEach(book) && OneEach(book[id := OpenOrder(q, left)])
    ensures Open(book[id := OpenOrder(q, left)], account, urn) ==
      if q.account == account && q.urn == urn then left else Open(book, account, urn)
  {
    var g := book[id := OpenOrder(q, left)];
    if q.account == account && q.urn == urn {
      OpenIs(g, account, urn, id);
    } else if i :| Resting(book, account, urn, i) {
      OpenIs(book, account, urn, i);
      OpenIs(g, account, urn, i);
    } else {
      forall j ensures !Resting(g, account, urn, j) {
        assert !Resting(book, account, urn, j);
      }
    }
  }

  predicate Same(q: Request, account: u32, urn: u32) {
    q.account == account && q.urn == urn
  }

  /** What the messages of a request say of an order's shares. */
  lemma ConcludeTotals(s: State, q: Request, m: Matched, capacity: int, account: u32, urn: u32)
    ensures var msgs := Conclude(s, q, m, capacity).msgs;
      && Total(Entered, msgs, account, urn) == (if Same(q, account, urn) then q.qty else 0)
      && Total(Traded, msgs, account, urn) ==
           (if Same(q, account, urn) then AllShares(m.fills) else 0) + MakerShares(m.fills, account, urn)
      && Total(Withdrawn, msgs, account, urn) ==
           (if Same(q, account, urn) && !Rests(q, m, capacity) then m.left else 0)
  {
    var first := Accepted(q.account, q.urn, q.side, q.qty, q.price, s.accepted + 1);
    FillTotals(q, m.fills, s.matches + 1, account, urn);
    EndedTotals(q, m, capacity, first, AllFillMsgs(q, m.fills, s.matches + 1), account, urn);
  }

  lemma EndedTotals(q: Request, m: Matched, capacity: int, first: Msg, fills: seq<Msg>, account: u32, urn: u32)
    ensures var msgs := [first] + fills + Ending(q, m, capacity);
      && Total(Entered, msgs, account, urn) == Shares(Entered, first, account, urn) + Total(Entered, fills, account, urn)
      && Total(Traded, msgs, account, urn) == Shares(Traded, first, account, urn) + Total(Traded, fills, account, urn)
      && Total(Withdrawn, msgs, account, urn) == Shares(Withdrawn, first, account, urn) + Total(Withdrawn, fills, account, urn)
           + (if Same(q, account, urn) && !Rests(q, m, capacity) then m.left else 0)
  {
    var end := Ending(q, m, capacity);
    FramedTotal(Entered, first, fills, end, account, urn);
    FramedTotal(Traded, first, fills, end, account, urn);
    FramedTotal(Withdrawn, first, fills, end, account, urn);
  }

  /** What a request does to the open shares of an order. */
  lemma EnterOpens(s: State, q: Request, levels: int, capacity: int, account: u32, urn: u32)
    requires StateInv(s, levels, capacity) && MayEnter(s, q, levels)
    ensures var m := Match(s.book, q.side, q.price, q.qty);
      && AllShares(m.fills) == q.qty - m.left
      && Open(Enter(s, q, capacity).state.book, account, urn) ==
           Open(s.book, account, urn) - MakerShares(m.fills, account, urn)
           + (if Same(q, account, urn) && Rests(q, m, capacity) then m.left else 0)
  {
    hide Match, Legal, OneEach, Uncrossed;
    var m, id := Match(s.book, q.side, q.price, q.qty), s.accepted + 1;
    LegalPositive(s.book, s.accepted, levels);
    MatchConserves(s.book, q.side, q.price, q.qty, account, urn);
    if Rests(q, m, capacity) {
      MatchLeaves(s.book, q.side, q.price, q.qty);
      LessKeeps(m.book, s.book, s.accepted, levels);
      forall j ensures !Resting(m.book, q.account, q.urn, j) {
        assert !Resting(s.book, q.account, q.urn, j);
      }
      RestKeeps(m.book, q, m.left, id, levels);
      OpenAfterRest(m.book, q, m.left, id, account, urn);
    }
  }

  lemma EnterBalances(s: State, q: Request, levels: int, capacity: int, account: u32, urn: u32)
    requires StateInv(s, levels, capacity) && MayEnter(s, q, levels)
    ensures var r := Enter(s, q, capacity);
      Balanced(r.msgs, Open(r.state.book, account, urn) - Open(s.book, account, urn), account, urn)
  {
    ConcludeTotals(s, q, Match(s.book, q.side, q.price, q.qty), capacity, account, urn);
    EnterOpens(s, q, levels, capacity, account, urn);
  }

  lemma CancelBalances(s: State, a: u32, u: u32, qty: u32, levels: int, capacity: int, account: u32, urn: u32)
    requires StateInv(s, levels, capacity)
    ensures var r := Cancel(s, a, u, qty);
      Balanced(r.msgs, Open(r.state.book, account, urn) - Open(s.book, account, urn), account, urn)
  {
    LegalPositive(s.book, s.accepted, levels);
    var r := Cancel(s, a, u, qty);
    assert |r.msgs| == 1 && r.msgs[1..] == [];
    if id :| Resting(s.book, a, u, id) {
      CancelActsOn(s, a, u, qty, id);
      if qty < s.book[id].qty {
        OpenAfterTake(s.book, id, s.book[id].qty - qty, account, urn);
      }
    }
  }

  // ---- match numbers ----

  /** The two reports of the match with the given number: R to the taker, A to the maker, for the same
      shares at the same price. */
  predicate IsMatch(x: Msg, y: Msg, number: int) {
    && x.Executed? && y.Executed? && x.liquidity == 'R' && y.liquidity == 'A'
    && x.qty == y.qty && x.price == y.price && x.number == y.number == number
  }

  /** The executions among `msgs` are the matches numbered `from + 1 .. to`, in order, the two reports of
      each one next to each other. */
  predicate Numbered(msgs: seq<Msg>, from: int, to: int) {
    if msgs == [] then from == to
    else if msgs[0].Executed? then
      |msgs| >= 2 && IsMatch(msgs[0], msgs[1], from + 1) && Numbered(msgs[2..], from + 1, to)
    else Numbered(msgs[1..], from, to)
  }

  lemma {:induction false} NumberedConcat(x: seq<Msg>, y: seq<Msg>, from: int, mid: int, to: int)
    requires Numbered(x, from, mid) && Numbered(y, mid, to)
    ensures Numbered(x + y, from, to)
  {
    if x == [] {
      assert x + y == y;
    } else if x[0].Executed? {
      assert (x + y)[2..] == x[2..] + y;
      NumberedConcat(x[2..], y, from + 1, mid, to);
    } else {
      assert (x + y)[1..] == x[1..] + y;
      NumberedConcat(x[1..], y, from, mid, to);
    }
  }

  lemma {:induction false} FillsNumbered(q: Request, fills: seq<Fill>, number: int)
    ensures Numbered(AllFillMsgs(q, fills, number), number - 1, number - 1 + |fills|)
  {
    if fills != [] {
      FillsNumbered(q, fills[1..], number + 1);
      var msgs := AllFillMsgs(q, fills, number);
      assert msgs[2..] == AllFillMsgs(q, fills[1..], number + 1);
    }
  }

  lemma RespondNumbered(s: State, x: Input, levels: int, capacity: int)
    requires StateInv(s, levels, capacity) && MaySend(s, x, levels)
    ensures var r := Respond(s, x, capacity); Numbered(r.msgs, s.matches, r.state.matches)
  {
    match x
    case EnterOrder(q) => ConcludeNumbered(s, q, Match(s.book, q.side, q.price, q.qty), capacity);
    case CancelOrder(account, urn, qty) =>
      var r := Cancel(s, account, urn, qty);
      assert |r.msgs| == 1 && r.msgs[1..] == [];
  }

  lemma ConcludeNumbered(s: State, q: Request, m: Matched, capacity: int)
    ensures var r := Conclude(s, q, m, capacity); Numbered(r.msgs, s.matches, r.state.matches)
  {
    FillsNumbered(q, m.fills, s.matches + 1);
    FramedNumbered(Accepted(q.account, q.urn, q.side, q.qty, q.price, s.accepted + 1),
                   AllFillMsgs(q, m.fills, s.matches + 1), Ending(q, m, capacity), s.matches, s.matches + |m.fills|);
  }

  lemma FramedNumbered(first: Msg, fills: seq<Msg>, end: seq<Msg>, from: int, to: int)
    requires !first.Executed? && |end| <= 1 && (end != [] ==> !end[0].Executed?)
    requires Numbered(fills, from, to)
    ensures Numbered([first] + fills + end, from, to)
  {
    assert end != [] ==> end[1..] == [];
    NumberedConcat(fills, end, from, to, to);
    assert ([first] + fills + end)[1..] == fills + end;
  }

  /** The match with number `k` is reported by exactly two messages, one after the other. */
  lemma {:induction false} ReportedTwice(msgs: seq<Msg>, from: int, to: int, k: int) returns (i: nat)
    requires Numbered(msgs, from, to) && from < k <= to
    ensures i + 1 < |msgs| && IsMatch(msgs[i], msgs[i + 1], k)
    ensures forall j :: 0 <= j < |msgs| && msgs[j].Executed? && msgs[j].number == k ==> j == i || j == i + 1
  {
    if msgs[0].Executed? {
      if k == from + 1 {
        i := 0;
        NumbersAbove(msgs[2..], from + 1, to);
        assert forall j :: 2 <= j < |msgs| ==> msgs[j] == msgs[2..][j - 2];
      } else {
        var r := ReportedTwice(msgs[2..], from + 1, to, k);
        i := r + 2;
        assert forall j :: 2 <= j < |msgs| ==> msgs[j] == msgs[2..][j - 2];
      }
    } else {
      var r := ReportedTwice(msgs[1..], from, to, k);
      i := r + 1;
      assert forall j :: 1 <= j < |msgs| ==> msgs[j] == msgs[1..][j - 1];
    }
  }

  lemma {:induction false} NumbersAbove(msgs: seq<Msg>, from: int, to: int)
    requires Numbered(msgs, from, to)
    ensures from <= to
    ensures forall j :: 0 <= j < |msgs| && msgs[j].Executed? ==> from < msgs[j].number <= to
  {
    if msgs == [] {
    } else if msgs[0].Executed? {
      NumbersAbove(msgs[2..], from + 1, to);
      assert forall j :: 2 <= j < |msgs| ==> msgs[j] == msgs[2..][j - 2];
    } else {
      NumbersAbove(msgs[1..], from, to);
      assert forall j :: 1 <= j < |msgs| ==> msgs[j] == msgs[1..][j - 1];
    }
  }

  // ---- whole runs ----

  /** `states[i]` and `outs[i]` are the state and everything sent after the first `i` inputs. */
  ghost predicate Run(inputs: seq<Input>, states: seq<State>, outs: seq<seq<Msg>>, levels: int, capacity: int) {
    && |states| == |outs| == |inputs| + 1
    && states[0] == State(map[], 0, 0) && outs[0] == []
    && forall i :: 0 <= i < |inputs| ==> Answered(inputs[i], states[i], outs[i], states[i + 1], outs[i + 1], levels, capacity)
  }

  ghost predicate Answered(x: Input, s: State, sent: seq<Msg>, s': State, sent': seq<Msg>, levels: int, capacity: int) {
    MaySend(s, x, levels) && s' == Respond(s, x, capacity).state && sent' == sent + Respond(s, x, capacity).msgs
  }

  /** After any run: the book is legal and uncrossed; for every account and user reference number, the
      shares entered were traded, withdrawn or are still open; and match numbers run 1, 2, 3, ... */
  lemma {:induction false} RunBalances(inputs: seq<Input>, states: seq<State>, outs: seq<seq<Msg>>,
                                       levels: int, capacity: nat, account: u32, urn: u32, i: nat)
    requires Run(inputs, states, outs, levels, capacity) && i <= |inputs|
    ensures StateInv(states[i], levels, capacity)
    ensures Balanced(outs[i], Open(states[i].book, account, urn), account, urn)
    ensures Numbered(outs[i], 0, states[i].matches)
  {
    if i > 0 {
      RunBalances(inputs, states, outs, levels, capacity, account, urn, i - 1);
      var x, s, sent := inputs[i - 1], states[i - 1], outs[i - 1];
      assert Answered(x, s, sent, states[i], outs[i], levels, capacity);
      var r := Respond(s, x, capacity);
      RespondKeeps(s, x, levels, capacity);
      RespondNumbered(s, x, levels, capacity);
      NumberedConcat(sent, r.msgs, 0, s.matches, r.state.matches);
      match x {
        case EnterOrder(q) => EnterBalances(s, q, levels, capacity, account, urn);
        case CancelOrder(a, u, qty) => CancelBalances(s, a, u, qty, levels, capacity, account, urn);
      }
      TotalOfConcat(Entered, sent, r.msgs, account, urn);
      TotalOfConcat(Traded, sent, r.msgs, account, urn);
      TotalOfConcat(Withdrawn, sent, r.msgs, account, urn);
    }
  }
}
