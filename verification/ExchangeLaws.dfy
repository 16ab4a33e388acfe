/**
 What price-time priority guarantees: the book stays legal and uncrossed, shares are conserved, match
 numbers run without gaps, and a full book turns away only orders that traded nothing.
 */
module ExchangeLaws {
  import opened Trading
  import opened Exchange
  import opened Collections

  // ---- the book ----

  lemma BestExists(book: Book, side: Side, price: int, id: int)
    requires CrossesAt(book, side, price, id)
    ensures exists b :: IsBest(book, side, price, b)
  {
    var crossing := set j | j in book && CrossesAt(book, side, price, j);
    var b := SomeBest(crossing, (i, j) => i in book && j in book && Before(side, i, book[i], j, book[j]), id);
    forall j | CrossesAt(book, side, price, j) && j != b ensures Before(side, b, book[b], j, book[j]) {
      assert j in crossing;
    }
    assert IsBest(book, side, price, b);
  }

  /** One round of matching against the best order `id`. */
  lemma MatchRound(book: Book, side: Side, price: int, qty: u32, id: int)
    requires qty > 0 && IsBest(book, side, price, id)
    ensures var n := Min(qty, book[id].qty);
      var m := Match(book, side, price, qty);
      if n < book[id].qty then m == Matched(Take(book, id, n), [Fill(id, book[id], n)], 0)
      else
        var rest := Match(Take(book, id, n), side, price, qty - n);
        m == Matched(rest.book, [Fill(id, book[id], n)] + rest.fills, rest.left)
  {
    forall j | IsBest(book, side, price, j) ensures j == id {
      BestIsUnique(book, side, price, id, j);
    }
  }

  lemma MatchStops(book: Book, side: Side, price: int, qty: u32)
    requires qty == 0 || forall id :: !CrossesAt(book, side, price, id)
    ensures Match(book, side, price, qty) == Matched(book, [], qty)
  {
  }

  /** Matching that has made `fills`, with `left` of the request to match against `book`, ends as the
      matching of the whole request `qty` against `book0`. */
  ghost predicate UnderWay(book0: Book, side: Side, price: int, qty: u32, fills: seq<Fill>, book: Book, left: u32) {
    var rest := Match(book, side, price, left);
    Match(book0, side, price, qty) == Matched(rest.book, fills + rest.fills, rest.left)
  }

  lemma NotYetUnderWay(book: Book, side: Side, price: int, qty: u32)
    ensures UnderWay(book, side, price, qty, [], book, qty)
  {
    assert [] + Match(book, side, price, qty).fills == Match(book, side, price, qty).fills;
  }

  /** One more fill against the best order. */
  lemma NextRound(book0: Book, side: Side, price: int, qty: u32, fills: seq<Fill>, book: Book, left: u32, id: int)
    requires UnderWay(book0, side, price, qty, fills, book, left)
    requires left > 0 && IsBest(book, side, price, id)
    ensures var n := Min(left, book[id].qty);
      UnderWay(book0, side, price, qty, fills + [Fill(id, book[id], n)], Take(book, id, n), left - n)
  {
    var n := Min(left, book[id].qty);
    var f := Fill(id, book[id], n);
    MatchRound(book, side, price, left, id);
    if n < book[id].qty {
      assert left - n == 0;
      MatchStops(Take(book, id, n), side, price, 0);
      assert fills + [f] + [] == fills + [f];
    } else {
      var rest := Match(Take(book, id, n), side, price, left - n);
      assert fills + ([f] + rest.fills) == fills + [f] + rest.fills;
    }
  }

  /** No more fills. */
  lemma LastRound(book0: Book, side: Side, price: int, qty: u32, fills: seq<Fill>, book: Book, left: u32)
    requires UnderWay(book0, side, price, qty, fills, book, left)
    requires left == 0 || forall id :: !CrossesAt(book, side, price, id)
    ensures Match(book0, side, price, qty) == Matched(book, fills, left)
  {
    MatchStops(book, side, price, left);
    assert fills + [] == fills;
  }

  /** `rest` has some of the orders of `book`, with no more left of each. */
  ghost predicate Less(rest: Book, book: Book) {
    forall id :: id in rest ==> id in book && rest[id] == book[id].(qty := rest[id].qty) && 0 < rest[id].qty <= book[id].qty
  }

  ghost predicate Positive(book: Book) {
    forall id :: id in book ==> book[id].qty > 0
  }

  /** Matching only takes shares away. If some of the request is left, nothing in the book crosses it;
      if an order was filled in part, nothing of the request is left. */
  ghost predicate Leaves(book: Book, side: Side, price: int, qty: u32, m: Matched) {
    && Less(m.book, book) && |m.book.Keys| <= |book.Keys|
    && (m.left > 0 ==> forall id :: !CrossesAt(m.book, side, price, id))
    && (m.left > 0 && m.fills != [] ==> |m.book.Keys| < |book.Keys|)
    && (m.fills == [] ==> m.left == qty && m.book == book)
  }

  lemma LeavesMore(book: Book, g: Book, side: Side, price: int, qty: u32, n: u32, f: Fill, rest: Matched)
    requires Less(g, book) && |g.Keys| == |book.Keys| - 1 && n <= qty
    requires Leaves(g, side, price, qty - n, rest)
    ensures Leaves(book, side, price, qty, Matched(rest.book, [f] + rest.fills, rest.left))
  {
    LessTrans(rest.book, g, book);
  }

  lemma {:induction false} MatchLeaves(book: Book, side: Side, price: int, qty: u32)
    requires Positive(book)
    ensures Leaves(book, side, price, qty, Match(book, side, price, qty))
    decreases |book.Keys|, qty
  {
    if c :| qty > 0 && CrossesAt(book, side, price, c) {
      BestExists(book, side, price, c);
      var id :| IsBest(book, side, price, id);
      var n := Min(qty, book[id].qty);
      var g, m := Take(book, id, n), Match(book, side, price, qty);
      MatchRound(book, side, price, qty, id);
      TakeIs(book, id, n);
      if n == book[id].qty {
        MatchLeaves(g, side, price, qty - n);
        LeavesMore(book, g, side, price, qty, n, Fill(id, book[id], n), Match(g, side, price, qty - n));
      } else {
        assert m == Matched(g, [Fill(id, book[id], n)], 0);
      }
    } else {
      MatchStops(book, side, price, qty);
    }
  }

  lemma TakeIs(book: Book, id: int, n: int)
    requires id in book && 0 <= n <= book[id].qty && Positive(book)
    ensures Less(Take(book, id, n), book) && Positive(Take(book, id, n))
    ensures |Take(book, id, n).Keys| == if n == book[id].qty then |book.Keys| - 1 else |book.Keys|
  {
    var g := Take(book, id, n);
    assert g.Keys == if n == book[id].qty then book.Keys - {id} else book.Keys;
  }

  lemma LessTrans(a: Book, b: Book, c: Book)
    requires Less(a, b) && Less(b, c)
    ensures Less(a, c)
  {
  }

  lemma LessKeeps(rest: Book, book: Book, accepted: int, levels: int)
    requires Less(rest, book)
    ensures Legal(book, accepted, levels) ==> Legal(rest, accepted, levels)
    ensures Uncrossed(book) ==> Uncrossed(rest)
    ensures OneEach(book) ==> OneEach(rest)
  {
  }

  /** A book stays legal when a number is given to an order that does not stay. */
  lemma LegalLater(book: Book, accepted: int, levels: int)
    requires Legal(book, accepted, levels)
    ensures Legal(book, accepted + 1, levels)
  {
  }

  lemma LegalPositive(book: Book, accepted: int, levels: int)
    requires Legal(book, accepted, levels)
    ensures Positive(book)
  {
  }

  /** A request that does not cross a book leaves it uncrossed and legal when it rests. */
  lemma RestKeeps(book: Book, q: Request, left: u32, id: int, levels: int)
    requires Legal(book, id - 1, levels) && Uncrossed(book) && OneEach(book)
    requires left > 0 && 1 <= id && 1 <= q.price < levels <= MARKET
    requires forall j :: !CrossesAt(book, q.side, q.price, j)
    requires forall j :: !Resting(book, q.account, q.urn, j)
    ensures var g := book[id := OpenOrder(q, left)];
      Legal(g, id, levels) && Uncrossed(g) && OneEach(g) && id !in book
  {
    var g := book[id := OpenOrder(q, left)];
    assert id !in book;
    forall i, j {:trigger g[i], g[j]} | i in g && j in g && g[i].side == Buy && g[j].side == Sell
      ensures g[i].price < g[j].price
    {
      assert !CrossesAt(book, q.side, q.price, if i == id then j else i);
    }
    forall i, j {:trigger g[i], g[j]} | i in g && j in g && g[i].account == g[j].account && g[i].urn == g[j].urn
      ensures i == j
    {
      assert !Resting(book, q.account, q.urn, if i == id then j else i);
    }
  }

  lemma EnterKeeps(s: State, q: Request, levels: int, capacity: int)
    requires StateInv(s, levels, capacity) && MayEnter(s, q, levels)
    ensures StateInv(Enter(s, q, capacity).state, levels, capacity)
  {
    hide Match, Legal, OneEach, Uncrossed;
    var m, id := Match(s.book, q.side, q.price, q.qty), s.accepted + 1;
    LegalPositive(s.book, s.accepted, levels);
    MatchLeaves(s.book, q.side, q.price, q.qty);
    LessKeeps(m.book, s.book, id - 1, levels);
    forall j ensures !Resting(m.book, q.account, q.urn, j) {
      assert !Resting(s.book, q.account, q.urn, j);
    }
    if m.left > 0 && q.price != MARKET {
      RestKeeps(m.book, q, m.left, id, levels);
    }
    LegalLater(m.book, s.accepted, levels);
  }

  lemma CancelKeeps(s: State, account: u32, urn: u32, qty: u32, levels: int, capacity: int)
    requires StateInv(s, levels, capacity)
    ensures StateInv(Cancel(s, account, urn, qty).state, levels, capacity)
  {
    LegalPositive(s.book, s.accepted, levels);
    forall id | Resting(s.book, account, urn, id) && qty < s.book[id].qty
      ensures StateInv(s.(book := Take(s.book, id, s.book[id].qty - qty)), levels, capacity)
    {
      TakeIs(s.book, id, s.book[id].qty - qty);
      LessKeeps(Take(s.book, id, s.book[id].qty - qty), s.book, s.accepted, levels);
    }
  }

  /** The order with the given account and user reference number, if it rests, is the only one, and a
      cancel acts on it. */
  lemma CancelActsOn(s: State, account: u32, urn: u32, qty: u32, id: int)
    requires OneEach(s.book) && Resting(s.book, account, urn, id)
    ensures Cancel(s, account, urn, qty) ==
      if qty >= s.book[id].qty then Response(s, [CancelRejected(account, urn)], 0)
      else Response(s.(book := Take(s.book, id, s.book[id].qty - qty)),
                    [Cancelled(account, urn, s.book[id].qty - qty, 'U')], s.book[id].qty - qty)
  {
    forall j | Resting(s.book, account, urn, j) ensures j == id {
      assert s.book[j].account == s.book[id].account;
    }
  }

  /** The exchange has no room for the request, and nothing in the book crosses it. */
  ghost predicate NoRoom(s: State, q: Request, capacity: int) {
    q.qty > 0 && q.price != MARKET && |s.book.Keys| == capacity && forall id :: !CrossesAt(s.book, q.side, q.price, id)
  }

  ghost predicate TurnedAway(msgs: seq<Msg>) {
    exists i :: 0 <= i < |msgs| && msgs[i].Cancelled? && msgs[i].reason == 'Z'
  }

  /** An order is turned away for lack of room exactly if the book is full and it trades nothing: then
      all of it is cancelled, with reason Z, and the book is as before. */
  lemma FullBook(s: State, q: Request, levels: int, capacity: int)
    requires StateInv(s, levels, capacity) && MayEnter(s, q, levels)
    ensures var r := Enter(s, q, capacity);
      && (TurnedAway(r.msgs) <==> NoRoom(s, q, capacity))
      && (NoRoom(s, q, capacity) ==>
           r.state.book == s.book
           && r.msgs == [Accepted(q.account, q.urn, q.side, q.qty, q.price, s.accepted + 1),
                         Cancelled(q.account, q.urn, q.qty, 'Z')])
  {
    hide Match, Legal, Uncrossed, OneEach;
    var m := Match(s.book, q.side, q.price, q.qty);
    var r := Enter(s, q, capacity);
    LegalPositive(s.book, s.accepted, levels);
    MatchLeaves(s.book, q.side, q.price, q.qty);
    if NoRoom(s, q, capacity) {
      MatchStops(s.book, q.side, q.price, q.qty);
      assert r.msgs[1] == Cancelled(q.account, q.urn, q.qty, 'Z');
    }
    if TurnedAway(r.msgs) {
      TurnedAwayAtTheEnd(q, Accepted(q.account, q.urn, q.side, q.qty, q.price, s.accepted + 1), m.fills, s.matches + 1, Ending(q, m, capacity));
    }
  }

  lemma TurnedAwayAtTheEnd(q: Request, first: Msg, fills: seq<Fill>, number: int, end: seq<Msg>)
    requires first.Accepted? && |end| <= 1
    requires TurnedAway([first] + AllFillMsgs(q, fills, number) + end)
    ensures |end| == 1 && end[0].Cancelled? && end[0].reason == 'Z'
  {
    FillMsgsAreFills(q, fills, number);
  }

  lemma {:induction false} OneMoreFill(q: Request, fills: seq<Fill>, f: Fill, number: int)
    ensures AllFillMsgs(q, fills + [f], number) == AllFillMsgs(q, fills, number) + FillMsgs(q, f, number + |fills|)
  {
    if fills == [] {
      assert [] + [f] == [f] && [f][1..] == [];
    } else {
      assert (fills + [f])[1..] == fills[1..] + [f];
      OneMoreFill(q, fills[1..], f, number + 1);
    }
  }

  lemma {:induction false} FillMsgsAreFills(q: Request, fills: seq<Fill>, number: int)
    ensures forall i :: 0 <= i < |AllFillMsgs(q, fills, number)| ==> AllFillMsgs(q, fills, number)[i].Executed?
  {
    if fills != [] { FillMsgsAreFills(q, fills[1..], number + 1); }
  }
}
