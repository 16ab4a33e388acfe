/**
 The benchmark's own matcher, `4_order_book_proj/benchmark/engine_flow_generator.hpp`: an unordered
 vector of open orders that is scanned from end to end for every fill.
 */
module FlowMatcher {
  import opened Trading
  import opened Exchange
  import opened ExchangeLaws

  datatype SimOrder = SimOrder(account: u32, urn: u32, side: Side, price: int, remaining: u32, arrival: int)

  /** An open order is known to the exchange by its arrival number plus one. */
  function Id(o: SimOrder): int {
    o.arrival + 1
  }

  function AsOrder(o: SimOrder): Order {
    Order(o.account, o.urn, o.side, o.price, o.remaining)
  }

  /** The vector holds the orders of the book, each once. */
  ghost predicate Describes(orders: seq<SimOrder>, book: Book) {
    && (forall i :: 0 <= i < |orders| ==> Id(orders[i]) in book && book[Id(orders[i])] == AsOrder(orders[i]))
    && (forall id :: id in book ==> Listed(orders, id))
    && (forall i, j :: 0 <= i < j < |orders| ==> orders[i].arrival != orders[j].arrival)
  }

  ghost predicate Listed(orders: seq<SimOrder>, id: int) {
    exists i :: 0 <= i < |orders| && Id(orders[i]) == id
  }

  /** `orders` without the order at `i`, whose place the last one takes. */
  function SwapAndPop(orders: seq<SimOrder>, i: int): seq<SimOrder>
    requires 0 <= i < |orders|
  {
    orders[i := orders[|orders| - 1]][..|orders| - 1]
  }

  lemma PopDescribes(orders: seq<SimOrder>, book: Book, i: int)
    requires Describes(orders, book) && 0 <= i < |orders|
    ensures Describes(SwapAndPop(orders, i), book - {Id(orders[i])})
  {
    var rest, id := SwapAndPop(orders, i), Id(orders[i]);
    forall k | k in book - {id} ensures Listed(rest, k) {
      assert Listed(orders, k);
      var j :| 0 <= j < |orders| && Id(orders[j]) == k;
      assert Id(rest[if j == |orders| - 1 then i else j]) == k;
    }
  }

  lemma UpdateDescribes(orders: seq<SimOrder>, book: Book, i: int, remaining: u32)
    requires Describes(orders, book) && 0 <= i < |orders|
    ensures var id := Id(orders[i]);
      Describes(orders[i := orders[i].(remaining := remaining)], book[id := book[id].(qty := remaining)])
  {
    var orders', id := orders[i := orders[i].(remaining := remaining)], Id(orders[i]);
    forall k | k in book ensures Listed(orders', k) {
      assert Listed(orders, k);
      var j :| 0 <= j < |orders| && Id(orders[j]) == k;
      assert Id(orders'[j]) == k;
    }
  }

  lemma PushDescribes(orders: seq<SimOrder>, book: Book, o: SimOrder)
    requires Describes(orders, book) && Id(o) !in book
    ensures Describes(orders + [o], book[Id(o) := AsOrder(o)])
  {
    var orders' := orders + [o];
    forall k | k in book[Id(o) := AsOrder(o)] ensures Listed(orders', k) {
      if k == Id(o) {
        assert Id(orders'[|orders|]) == k;
      } else {
        assert Listed(orders, k);
        var j :| 0 <= j < |orders| && Id(orders[j]) == k;
        assert Id(orders'[j]) == k;
      }
    }
  }

  class FlowGenerator {
    var openOrders: seq<SimOrder>
    var nextArrival: int
    ghost var state: State

    ghost predicate Valid()
      reads this
    {
      && Describes(openOrders, state.book)
      && state.accepted == nextArrival >= 0
      && forall id :: id in state.book ==> id <= nextArrival
    }

    constructor ()
      ensures Valid() && state == State(map[], 0, 0)
    {
      openOrders, nextArrival := [], 0;
      state := State(map[], 0, 0);
    }

    /** Scans all open orders for the one an order on `side` at `price` meets first. */
    method BestIndex(side: Side, price: int, ghost book: Book) returns (best: int)
      requires Describes(openOrders, book)
      ensures 0 <= best <= |openOrders|
      ensures best < |openOrders| ==> IsBest(book, side, price, Id(openOrders[best]))
      ensures best == |openOrders| ==> forall id :: !CrossesAt(book, side, price, id)
    {
      best := |openOrders|;
      for i := 0 to |openOrders|
        invariant best == |openOrders| || 0 <= best < i
        invariant best == |openOrders| ==> forall j :: 0 <= j < i ==> !Crosses(AsOrder(openOrders[j]), side, price)
        invariant best < i ==> Crosses(AsOrder(openOrders[best]), side, price)
        invariant best < i ==> forall j :: 0 <= j < i && j != best && Crosses(AsOrder(openOrders[j]), side, price) ==>
          Before(side, Id(openOrders[best]), AsOrder(openOrders[best]), Id(openOrders[j]), AsOrder(openOrders[j]))
      {
        var resting := openOrders[i];
        if resting.side == side {
          continue;
        }
        var crosses := price == MARKET || (if side == Buy then resting.price <= price else resting.price >= price);
        if !crosses {
          continue;
        }
        if best == |openOrders| {
          best := i;
          continue;
        }
        var betterPrice := if side == Buy then resting.price < openOrders[best].price
                           else resting.price > openOrders[best].price;
        var samePriceOlder := resting.price == openOrders[best].price && resting.arrival < openOrders[best].arrival;
        if betterPrice || samePriceOlder {
          best := i;
        }
      }
      if best == |openOrders| {
        forall id ensures !CrossesAt(book, side, price, id) {
          if id in book { assert Listed(openOrders, id); }
        }
      } else {
        var b := Id(openOrders[best]);
        forall id | CrossesAt(book, side, price, id) && id != b ensures Before(side, b, book[b], id, book[id]) {
          assert Listed(openOrders, id);
        }
      }
    }

    /** Fills against the open order at `best`, which leaves the vector when nothing of it is left. */
    method FillAt(best: int, remaining: u32, ghost book: Book) returns (fill: u32)
      requires Describes(openOrders, book) && 0 <= best < |openOrders|
      modifies this`openOrders
      ensures var o := old(openOrders[best]);
        && Id(o) in book && book[Id(o)] == AsOrder(o)
        && fill == Min(remaining, o.remaining)
        && Describes(openOrders, Take(book, Id(o), fill))
        && |openOrders| == old(|openOrders|) - (if fill == o.remaining then 1 else 0)
    {
      var o := openOrders[best];
      fill := Min(remaining, o.remaining);
      if o.remaining == fill {
        PopDescribes(openOrders, book, best);
        openOrders := SwapAndPop(openOrders, best);
      } else {
        UpdateDescribes(openOrders, book, best, o.remaining - fill);
        openOrders := openOrders[best := o.(remaining := o.remaining - fill)];
      }
    }

    /** The matching loop of `apply_enter`. */
    method MatchIncoming(incoming: SimOrder) returns (remaining: u32, ghost fills: seq<Fill>, ghost book: Book)
      requires Describes(openOrders, state.book)
      modifies this`openOrders
      ensures Match(state.book, incoming.side, incoming.price, incoming.remaining) == Matched(book, fills, remaining)
      ensures Describes(openOrders, book) && book.Keys <= state.book.Keys
    {
      remaining, fills, book := incoming.remaining, [], state.book;
      NotYetUnderWay(book, incoming.side, incoming.price, remaining);
      while remaining > 0
        invariant Describes(openOrders, book)
        invariant UnderWay(state.book, incoming.side, incoming.price, incoming.remaining, fills, book, remaining)
        invariant book.Keys <= state.book.Keys
        decreases |openOrders|, remaining
      {
        var best := BestIndex(incoming.side, incoming.price, book);
        if best == |openOrders| {
          break;
        }
        ghost var id := Id(openOrders[best]);
        NextRound(state.book, incoming.side, incoming.price, incoming.remaining, fills, book, remaining, id);
        var fill := FillAt(best, remaining, book);
        fills := fills + [Fill(id, book[id], fill)];
        remaining := remaining - fill;
        book := Take(book, id, fill);
      }
      LastRound(state.book, incoming.side, incoming.price, incoming.remaining, fills, book, remaining);
    }

    /** `apply_enter`: matches the incoming order against the open orders, and keeps the rest of a limit
        order. `state` and `fills` record what happened. */
    method ApplyEnter(incoming: SimOrder) returns (ghost fills: seq<Fill>)
      requires Describes(openOrders, state.book) && Id(incoming) !in state.book
      modifies this`openOrders, this`state
      ensures var q := Request(incoming.account, incoming.urn, incoming.side, incoming.remaining, incoming.price);
        var m := Match(old(state.book), q.side, q.price, q.qty);
        && fills == m.fills
        && state == old(state).(book := Kept(q, m, Id(incoming)))
      ensures Describes(openOrders, state.book)
      ensures state.book.Keys <= old(state.book.Keys) + {Id(incoming)}
    {
      ghost var book: Book;
      var remaining;
      remaining, fills, book := MatchIncoming(incoming);
      if remaining > 0 && incoming.price != MARKET {
        var resting := incoming.(remaining := remaining);
        PushDescribes(openOrders, book, resting);
        openOrders := openOrders + [resting];
        book := book[Id(resting) := AsOrder(resting)];
      }
      state := state.(book := book);
    }

    /** The bookkeeping of `create_enter_request`: the next arrival number, then `apply_enter`. */
    method EnterOrder(q: Request) returns (ghost fills: seq<Fill>)
      requires Valid()
      modifies this
      ensures Valid()
      ensures fills == Match(old(state.book), q.side, q.price, q.qty).fills
      ensures state == EnterUnlimited(old(state), q)
    {
      fills := ApplyEnter(SimOrder(q.account, q.urn, q.side, q.price, q.qty, nextArrival));
      nextArrival := nextArrival + 1;
      state := state.(accepted := nextArrival, matches := state.matches + |fills|);
    }

    /** The bookkeeping of `create_cancel_order`: the open order at `index` is cancelled as a whole. */
    method CancelOrder(index: int) returns (account: u32, urn: u32)
      requires Valid() && 0 <= index < |openOrders|
      modifies this
      ensures Valid()
      ensures var id := Id(old(openOrders[index]));
        && Resting(old(state.book), account, urn, id)
        && state == old(state).(book := old(state.book) - {id})
    {
      var order := openOrders[index];
      PopDescribes(openOrders, state.book, index);
      openOrders := SwapAndPop(openOrders, index);
      state := state.(book := state.book - {Id(order)});
      return order.account, order.urn;
    }
  }
}
