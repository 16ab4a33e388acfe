/**
 What the matching engine promises: price-time priority over a book of open orders. The book is a map
 from order reference numbers to orders; nothing is said of levels, lists or indices.

 The benchmark's scan-everything matcher (`4_order_book_proj/benchmark/engine_flow_generator.hpp`) and
 the engine (`4_order_book_proj/src/engine.hpp`) are both proved to follow it.
 */
module Exchange {
  import opened Trading

  /** The price that marks a market order. */
  const MARKET := 0x7FFFFFFF

  /** An Enter Order request. */
  datatype Request = Request(account: u32, urn: u32, side: Side, qty: u32, price: int)

  /** An open order; `qty` is what is left of it. */
  datatype Order = Order(account: u32, urn: u32, side: Side, price: int, qty: u32)

  /** Open orders by reference number; a lower number is an older order. */
  type Book = map<int, Order>

  /** `qty` shares of the open order `id` change hands at its price. */
  datatype Fill = Fill(id: int, maker: Order, qty: u32)

  datatype Msg =
    | Accepted(account: u32, urn: u32, side: Side, qty: u32, price: int, id: int)
    | Executed(account: u32, urn: u32, qty: u32, price: int, liquidity: char, number: int)
    | Cancelled(account: u32, urn: u32, qty: u32, reason: char)
    | CancelRejected(account: u32, urn: u32)

  // ---- price-time priority ----

  /** Order `o` is on the other side of a request and its price is acceptable to it. */
  predicate Crosses(o: Order, side: Side, price: int) {
    o.side != side &&
    (price == MARKET || (if side == Buy then o.price <= price else o.price >= price))
  }

  /** For a request on `side`, order `i` has priority over order `j`: a better price, or the same price
      and older. */
  predicate Before(side: Side, i: int, o: Order, j: int, p: Order) {
    (if side == Buy then o.price < p.price else o.price > p.price) || (o.price == p.price && i < j)
  }

  ghost predicate CrossesAt(book: Book, side: Side, price: int, id: int) {
    id in book && Crosses(book[id], side, price)
  }

  /** The order that a request meets first. */
  ghost predicate IsBest(book: Book, side: Side, price: int, id: int) {
    && CrossesAt(book, side, price, id)
    && forall j :: CrossesAt(book, side, price, j) && j != id ==> Before(side, id, book[id], j, book[j])
  }

  lemma BestIsUnique(book: Book, side: Side, price: int, i: int, j: int)
    requires IsBest(book, side, price, i) && IsBest(book, side, price, j)
    ensures i == j
  {
  }

  /** What is left of the book once `qty` shares of order `id` are gone. */
  ghost function Take(book: Book, id: int, qty: int): Book
    requires id in book && 0 <= qty <= book[id].qty
  {
    if qty == book[id].qty then book - {id} else book[id := book[id].(qty := book[id].qty - qty)]
  }

  datatype Matched = Matched(book: Book, fills: seq<Fill>, left: u32)

  /** Matches a request for `qty` shares, best order first, until it is filled or nothing crosses. */
  ghost function Match(book: Book, side: Side, price: int, qty: u32): (r: Matched)
    decreases |book.Keys|, qty
  {
    if qty == 0 || !(exists id :: IsBest(book, side, price, id)) then Matched(book, [], qty)
    else
      var id :| IsBest(book, side, price, id);
      var n := Min(qty, book[id].qty);
      if n < book[id].qty then Matched(Take(book, id, n), [Fill(id, book[id], n)], 0)
      else
        var rest := Match(Take(book, id, n), side, price, qty - n);
        Matched(rest.book, [Fill(id, book[id], n)] + rest.fills, rest.left)
  }

  /** The two reports of a fill: to the request that took liquidity, then to the order that gave it. */
  function FillMsgs(q: Request, f: Fill, number: int): seq<Msg> {
    [Executed(q.account, q.urn, f.qty, f.maker.price, 'R', number),
     Executed(f.maker.account, f.maker.urn, f.qty, f.maker.price, 'A', number)]
  }

  function AllFillMsgs(q: Request, fills: seq<Fill>, number: int): seq<Msg> {
    if fills == [] then []
    else FillMsgs(q, fills[0], number) + AllFillMsgs(q, fills[1..], number + 1)
  }

  // ---- requests ----

  /** `accepted` requests have been given reference numbers 1, 2, 3, ...; `matches` fills have been
      given match numbers 1, 2, 3, ... */
  datatype State = State(book: Book, accepted: int, matches: int)

  datatype Response = Response(state: State, msgs: seq<Msg>, result: int)

  function OpenOrder(q: Request, left: u32): Order {
    Order(q.account, q.urn, q.side, q.price, left)
  }

  /** The last message of a request whose rest cannot stay: market orders never rest, and limit orders
      rest only if there is room. */
  ghost function Ending(q: Request, m: Matched, capacity: int): seq<Msg> {
    if m.left == 0 then []
    else if q.price == MARKET then [Cancelled(q.account, q.urn, m.left, 'I')]
    else if |m.book.Keys| >= capacity then [Cancelled(q.account, q.urn, m.left, 'Z')]
    else []
  }

  ghost predicate Rests(q: Request, m: Matched, capacity: int) {
    m.left > 0 && q.price != MARKET && |m.book.Keys| < capacity
  }

  /** The answer to a request that was matched as `m`. */
  ghost function Conclude(s: State, q: Request, m: Matched, capacity: int): Response {
    var id := s.accepted + 1;
    var book := if Rests(q, m, capacity) then m.book[id := OpenOrder(q, m.left)] else m.book;
    Response(State(book, id, s.matches + |m.fills|),
             [Accepted(q.account, q.urn, q.side, q.qty, q.price, id)] + AllFillMsgs(q, m.fills, s.matches + 1)
               + Ending(q, m, capacity),
             if Rests(q, m, capacity) then id else 0)
  }

  /** An Enter Order request, on an exchange with room for `capacity` open orders. */
  ghost function Enter(s: State, q: Request, capacity: int): Response {
    Conclude(s, q, Match(s.book, q.side, q.price, q.qty), capacity)
  }

  /** The book after a request was matched as `m`, if there is always room. */
  ghost function Kept(q: Request, m: Matched, id: int): Book {
    if m.left > 0 && q.price != MARKET then m.book[id := OpenOrder(q, m.left)] else m.book
  }

  /** An Enter Order request, on an exchange that always has room. */
  ghost function EnterUnlimited(s: State, q: Request): State {
    var m := Match(s.book, q.side, q.price, q.qty);
    State(Kept(q, m, s.accepted + 1), s.accepted + 1, s.matches + |m.fills|)
  }

  ghost predicate Resting(book: Book, account: u32, urn: u32, id: int) {
    id in book && book[id].account == account && book[id].urn == urn
  }

  /** A Cancel Order request: reduces the open order to `qty` shares, 0 to remove it. */
  ghost function Cancel(s: State, account: u32, urn: u32, qty: u32): Response {
    if exists id :: Resting(s.book, account, urn, id) then
      var id :| Resting(s.book, account, urn, id);
      if qty >= s.book[id].qty then Response(s, [CancelRejected(account, urn)], 0)
      else
        var gone := s.book[id].qty - qty;
        Response(s.(book := Take(s.book, id, gone)), [Cancelled(account, urn, gone, 'U')], gone)
    else Response(s, [CancelRejected(account, urn)], 0)
  }

  /** State, outgoing queue and result are what response `a` says, on top of what was `sent` before. */
  ghost predicate Concluded(a: Response, sent: seq<Msg>, now: State, out: seq<Msg>, result: int) {
    now == a.state && out == sent + a.msgs && result == a.result
  }

  // ---- what every book satisfies ----

  /** Open orders have something left, a legal limit price below `levels`, and a number already given. */
  ghost predicate Legal(book: Book, accepted: int, levels: int) {
    forall id :: id in book ==> 1 <= id <= accepted && 1 <= book[id].price < levels && book[id].qty > 0
  }

  /** Every bid is below every offer. */
  ghost predicate Uncrossed(book: Book) {
    forall i, j {:trigger book[i], book[j]} ::
      i in book && j in book && book[i].side == Buy && book[j].side == Sell ==> book[i].price < book[j].price
  }

  /** No two open orders have the same account and user reference number. */
  ghost predicate OneEach(book: Book) {
    forall i, j {:trigger book[i], book[j]} ::
      i in book && j in book && book[i].account == book[j].account && book[i].urn == book[j].urn ==> i == j
  }

  ghost predicate StateInv(s: State, levels: int, capacity: int) {
    && 0 <= s.accepted && 0 <= s.matches
    && Legal(s.book, s.accepted, levels)
    && Uncrossed(s.book)
    && OneEach(s.book)
    && |s.book.Keys| <= capacity
  }

  /** What senders may send: a limit price that has a level, or the market price; an account and user
      reference number that is not resting. */
  ghost predicate MayEnter(s: State, q: Request, levels: int) {
    && (q.price == MARKET || 1 <= q.price < levels)
    && levels <= MARKET
    && forall id :: !Resting(s.book, q.account, q.urn, id)
  }
}
