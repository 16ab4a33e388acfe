/**
 The matching engine, `4_order_book_proj/src/engine.hpp`, with its block pool,
 `4_order_book_proj/src/allocator.hpp`.
 */
module MatchingEngine {
  import opened Memory
  import opened Trading
  import opened Exchange
  import opened ExchangeLaws
  import opened EngineSlots
  import opened EngineBook

  class Engine {
    /** The pool. */
    const slots: array<Slot>
    var freeHead: int
    /** `order_buffer`: head and tail of the list of each price. */
    const heads: array<int>
    const tails: array<int>
    /** `order_blocks_map` */
    var keys: Keys
    var counter: int
    var matchCounter: int
    var buyOrders: int
    var sellOrders: int
    var bestBuy: int
    var bestSell: int
    /** Everything sent to the outgoing queue. */
    var out: seq<Msg>

    /** What slots, lists and key map stand for. */
    ghost var g: Shadow

    ghost function View(): Storage
      reads this, slots, heads, tails
    {
      Storage(slots[..], heads[..], tails[..], freeHead, keys)
    }

    /** Slots, lists, key map and counts stand for the open orders in `g.book`. */
    ghost predicate Sound()
      reads this, slots, heads, tails
    {
      heads != tails && heads.Length == tails.Length && Stands(View(), g) && Counted(g.book, buyOrders, sellOrders)
    }

    ghost function State(): State
      reads this
    {
      Exchange.State(g.book, counter, matchCounter)
    }

    ghost predicate Valid()
      reads this, slots, heads, tails
    {
      && 1 <= heads.Length <= MARKET
      && Sound()
      && StateInv(State(), heads.Length, slots.Length)
      && BestBid(g.book, bestBuy) && BestOffer(g.book, bestSell, heads.Length)
    }

    /** The pool constructor chains the slots from the last to the first. */
    constructor (levels: int, capacity: int)
      requires 1 <= levels <= MARKET && capacity > 0
      ensures Valid() && fresh(slots) && fresh(heads) && fresh(tails)
      ensures heads.Length == levels && slots.Length == capacity
      ensures State() == Exchange.State(map[], 0, 0) && out == []
    {
      slots := new Slot[capacity](_ => Free(NULL));
      heads := new int[levels](_ => NULL);
      tails := new int[levels](_ => NULL);
      freeHead := 0;
      keys := map[];
      counter, matchCounter, buyOrders, sellOrders := 0, 0, 0, 0;
      bestBuy, bestSell := 0, levels;
      out := [];
      g := Shadow(seq(capacity, i => i), seq(levels, _ => []), map[], map[]);
      new;
      ChainPool();
      FreshPool(slots[..], g.list);
      FreshLevels(slots[..], heads[..], tails[..], g.queues);
      assert Ids(g.book, Buy) == {} && Ids(g.book, Sell) == {};
    }

    /** Chains the slots, from the last to the first. */
    method ChainPool()
      requires slots.Length > 0
      modifies slots
      ensures forall i :: 0 <= i < slots.Length ==> slots[i] == Free(if i == slots.Length - 1 then NULL else i + 1)
    {
      var current := slots.Length - 1;
      slots[current] := Free(NULL);
      while current > 0
        invariant 0 <= current < slots.Length
        invariant forall i :: current <= i < slots.Length ==> slots[i] == Free(if i == slots.Length - 1 then NULL else i + 1)
      {
        current := current - 1;
        slots[current] := Free(current + 1);
      }
    }

    // ---- the pool ----

    /** `allocate`: takes the first free slot; NULL if there is none. */
    method Allocate() returns (b: int)
      requires FreeList(slots[..], freeHead, g.list)
      modifies this`freeHead
      ensures g.list == [] ==> b == NULL && freeHead == old(freeHead)
      ensures g.list != [] ==> b == old(freeHead) == g.list[0] && 0 <= b < slots.Length && slots[b] == Free(freeHead)
    {
      assert g.list != [] ==> FreeAt(slots[..], g.list, 0);
      if freeHead == NULL {
        return NULL;
      }
      b := freeHead;
      freeHead := slots[b].nextFree;
    }

    /** `deallocate`: the slot becomes the first free one. */
    method Deallocate(b: int)
      requires 0 <= b < slots.Length
      modifies slots, this`freeHead
      ensures slots[..] == old(slots[..])[b := Free(old(freeHead))] && freeHead == b
    {
      slots[b] := Free(freeHead);
      freeHead := b;
    }

    // ---- the lists ----

    /** `unlink`: takes block `b`, node `k` of the list of price `p`, off that list. */
    method Unlink(b: int, p: int, ghost queue: seq<int>, ghost k: int)
      requires heads != tails && heads.Length == tails.Length && 0 <= p < heads.Length
      requires LevelList(slots[..], heads[p], tails[p], queue, p) && 0 <= k < |queue| && b == queue[k]
      modifies slots, heads, tails
      ensures Unlinked(old(slots[..]), slots[..], queue, k)
      ensures heads[..] == old(heads[..])[p := if k == 0 then (if |queue| == 1 then NULL else queue[1]) else old(heads[p])]
      ensures tails[..] == old(tails[..])[p := if k == |queue| - 1 then (if |queue| == 1 then NULL else queue[|queue| - 2]) else old(tails[p])]
    {
      ghost var s := slots[..];
      assert NodeAt(s, queue, p, k);
      if k > 0 { assert NodeAt(s, queue, p, k - 1) && Older(s, queue[k - 1], queue[k]); }
      if k < |queue| - 1 { assert NodeAt(s, queue, p, k + 1) && Older(s, queue[k], queue[k + 1]); }
      if 0 < k < |queue| - 1 { assert Older(s, queue[k - 1], queue[k + 1]); }
      var prev, next := slots[b].prev, slots[b].next;
      if prev != NULL {
        slots[prev] := slots[prev].(next := next);
      } else {
        heads[p] := next;
      }
      if next != NULL {
        slots[next] := slots[next].(prev := prev);
      } else {
        tails[p] := prev;
      }
      slots[b] := slots[b].(prev := NULL, next := NULL);
    }

    /** `append_list`: puts block `b` at the end of the list of price `p`. */
    method Append(b: int, p: int, ghost queue: seq<int>)
      requires heads != tails && heads.Length == tails.Length && 0 <= p < heads.Length
      requires 0 <= b < slots.Length && slots[b].Block? && b !in queue
      requires heads[p] == if queue == [] then NULL else queue[0]
      requires tails[p] == if queue == [] then NULL else queue[|queue| - 1]
      requires queue != [] ==> 0 <= tails[p] < slots.Length && slots[tails[p]].Block?
      modifies slots, heads, tails
      ensures Appended(old(slots[..]), slots[..], queue, b)
      ensures slots[b] == old(slots[b]).(prev := slots[b].prev, next := slots[b].next)
      ensures heads[..] == old(heads[..])[p := if queue == [] then b else old(heads[p])]
      ensures tails[..] == old(tails[..])[p := b]
    {
      slots[b] := slots[b].(next := NULL);
      slots[b] := slots[b].(prev := tails[p]);
      if tails[p] != NULL {
        slots[tails[p]] := slots[tails[p]].(next := b);
      } else {
        heads[p] := b;
      }
      tails[p] := b;
    }

    /** Takes block `b`, node `k` of the list of price `p`, off that list and out of the key map, and
        frees its slot. Returns the pool in between. */
    method Release(b: int, p: int, ghost queue: seq<int>, ghost k: int) returns (ghost slots1: seq<Slot>)
      requires heads != tails && heads.Length == tails.Length && 0 <= p < heads.Length
      requires LevelList(slots[..], heads[p], tails[p], queue, p) && 0 <= k < |queue| && b == queue[k]
      requires 0 <= b < slots.Length && slots[b].Block?
      modifies slots, heads, tails, this`freeHead, this`keys
      ensures BlockGone(old(View()), View(), slots1, queue, p, k)
      ensures keys == old(keys) - {old(slots[b].key)}
    {
      keys := keys - {slots[b].key};
      Unlink(b, p, queue, k);
      slots1 := slots[..];
      Deallocate(b);
    }

    /** Takes block `b`, node `k` of the list of price `p`, out of the book. */
    method RemoveBlock(b: int, p: int, ghost k: int)
      requires Sound() && 0 <= p < heads.Length && 0 <= k < |g.queues[p]| && b == g.queues[p][k]
      requires 0 <= b < slots.Length && slots[b].Block?
      modifies slots, heads, tails, this`freeHead, this`keys, this`buyOrders, this`sellOrders, this`g
      ensures Sound()
      ensures old(slots[b].id) in old(g.book) && g.book == old(g.book) - {old(slots[b].id)}
    {
      ghost var m, s := View(), slots[b];
      assert LevelOf(m.slots, m.heads, m.tails, g.queues, p);
      var isBuy := slots[b].side == Buy;
      ghost var slots1 := Release(b, p, g.queues[p], k);
      StandsAfterRemove(m, View(), slots1, g, p, k, buyOrders, sellOrders);
      if isBuy {
        buyOrders := buyOrders - 1;
      } else {
        sellOrders := sellOrders - 1;
      }
      g := ShadowWithout(g, p, k, s.id);
    }

    /** Leaves `qty` shares of block `b` in place. */
    method ReduceBlock(b: int, qty: u32)
      requires Sound() && 0 <= b < slots.Length && slots[b].Block?
      modifies slots, this`g
      ensures Sound()
      ensures var id := old(slots[b].id);
        id in old(g.book) && g.book == old(g.book)[id := old(g.book)[id].(qty := qty)]
    {
      ghost var m, id := View(), slots[b].id;
      slots[b] := slots[b].(qty := qty);
      StandsAfterQty(m, View(), g, b, qty, buyOrders, sellOrders);
      g := g.(book := g.book[id := g.book[id].(qty := qty)]);
    }

    /** `send_fills`, then the resting block at the head of level `p` loses the shares; it leaves the book
        if nothing of it is left. */
    method FillHead(q: Request, p: int, left: u32) returns (rest: u32, gone: bool, ghost f: Fill)
      requires Sound() && 0 <= p < heads.Length && heads[p] != NULL && Positive(g.book)
      modifies slots, heads, tails, this`freeHead, this`keys, this`buyOrders, this`sellOrders, this`g,
               this`matchCounter, this`out
      ensures Sound()
      ensures var b := old(heads[p]);
        && 0 <= b < slots.Length && old(slots[b]).Block? && f.id == old(slots[b].id)
        && f.id in old(g.book) && f.maker == old(g.book)[f.id] && f.qty == Min(left, f.maker.qty)
      ensures g.book == Take(old(g.book), f.id, f.qty)
      ensures rest == left - f.qty && (gone <==> f.qty == f.maker.qty)
      ensures matchCounter == old(matchCounter) + 1 && out == old(out) + FillMsgs(q, f, matchCounter)
    {
      HeadTells(View(), g, p);
      var b := heads[p];
      assert BlockIs(slots[..], g.book, g.at, keys, b);
      var key, qty := slots[b].key, slots[b].qty;
      f := Fill(slots[b].id, g.book[slots[b].id], Min(left, qty));
      matchCounter := matchCounter + 1;
      out := out + [Executed(q.account, q.urn, Min(left, qty), p, 'R', matchCounter),
                    Executed(KeyAccount(key), KeyUrn(key), Min(left, qty), p, 'A', matchCounter)];
      if qty > left {
        ReduceBlock(b, qty - left);
        rest, gone := 0, false;
      } else {
        RemoveBlock(b, p, 0);
        rest, gone := left - qty, true;
      }
    }

    /** Moves the best offer up to the next level that is not empty. */
    method ScanUp(ghost from: int)
      requires Sound() && 0 <= bestSell <= heads.Length
      requires OffersFrom(g.book, bestSell) && from <= bestSell
      requires forall id :: id in g.book && g.book[id].side == Buy ==> g.book[id].price < from
      requires Legal(g.book, counter, heads.Length)
      modifies this`bestSell
      ensures BestOffer(g.book, bestSell, heads.Length)
    {
      while sellOrders > 0 && bestSell < heads.Length && heads[bestSell] == NULL
        invariant from <= bestSell && 0 <= bestSell <= heads.Length && OffersFrom(g.book, bestSell)
      {
        HeadTells(View(), g, bestSell);
        bestSell := bestSell + 1;
      }
      if sellOrders == 0 {
        assert forall id :: id in g.book && g.book[id].side == Sell ==> id in Ids(g.book, Sell);
        bestSell := heads.Length;
      }
      if bestSell < heads.Length {
        HeadTells(View(), g, bestSell);
        assert g.book[slots[heads[bestSell]].id].side == Sell;
      }
    }

    /** Moves the best bid down to the next level that is not empty. */
    method ScanDown(ghost from: int)
      requires Sound() && 0 <= bestBuy < heads.Length
      requires BidsUpTo(g.book, bestBuy) && bestBuy <= from
      requires forall id :: id in g.book && g.book[id].side == Sell ==> g.book[id].price > from
      requires Legal(g.book, counter, heads.Length)
      modifies this`bestBuy
      ensures BestBid(g.book, bestBuy)
    {
      while buyOrders > 0 && bestBuy > 0 && heads[bestBuy] == NULL
        invariant 0 <= bestBuy <= from && bestBuy < heads.Length && BidsUpTo(g.book, bestBuy)
      {
        HeadTells(View(), g, bestBuy);
        bestBuy := bestBuy - 1;
      }
      if buyOrders == 0 {
        assert forall id :: id in g.book && g.book[id].side == Buy ==> id in Ids(g.book, Buy);
        bestBuy := 0;
      }
      if bestBuy > 0 {
        HeadTells(View(), g, bestBuy);
        assert g.book[slots[heads[bestBuy]].id].side == Buy;
      }
    }

    /** Between two rounds of matching: everything but the account of the request itself. */
    ghost predicate Steady()
      reads this, slots, heads, tails
    {
      && 1 <= heads.Length <= MARKET && Sound()
      && BestBid(g.book, bestBuy) && BestOffer(g.book, bestSell, heads.Length)
    }

    /** One round of `insert_buy_order`. */
    method RoundBuy(q: Request, left: u32, ghost s: State, ghost sent: seq<Msg>, ghost fills: seq<Fill>)
      returns (rest: u32, ghost f: Fill)
      requires Steady() && Matching(s, q, sent, fills, left, State(), out, heads.Length)
      requires q.side == Buy && left > 0 && bestSell < heads.Length && bestSell <= q.price
      modifies slots, heads, tails, this`freeHead, this`keys, this`buyOrders, this`sellOrders, this`g,
               this`matchCounter, this`out, this`bestSell
      ensures Steady() && Matching(s, q, sent, fills + [f], rest, State(), out, heads.Length)
      ensures |g.book.Keys| < |old(g.book).Keys| || (|g.book.Keys| == |old(g.book).Keys| && rest < left)
    {
      hide Stands, Counted, Legal, Uncrossed, UnderWay, IsBest, BidsUpTo, OffersFrom;
      ghost var book, idx, now, sent1 := g.book, bestSell, State(), out;
      LegalPositive(book, counter, heads.Length);
      OfferHeadIsBest(View(), g, bestSell, q.price);
      AcrossFrom(book, bestSell);
      var gone;
      rest, gone, f := FillHead(q, bestSell, left);
      NextFill(s, q, sent, fills, left, now, sent1, heads.Length, f);
      TakeQuotes(book, f.id, f.qty, bestBuy, bestSell, heads.Length);
      if gone {
        ScanUp(idx);
      }
    }

    /** The loop of `insert_buy_order`. */
    method MatchBuy(q: Request) returns (left: u32, ghost fills: seq<Fill>)
      requires Steady() && Legal(g.book, counter, heads.Length) && Uncrossed(g.book) && q.side == Buy
      modifies slots, heads, tails, this`freeHead, this`keys, this`buyOrders, this`sellOrders, this`g,
               this`matchCounter, this`out, this`bestSell
      ensures Steady() && Matching(old(State()), q, old(out), fills, left, State(), out, heads.Length)
      ensures left > 0 ==> forall id :: !CrossesAt(g.book, q.side, q.price, id)
    {
      ghost var s, sent := State(), out;
      left, fills := q.qty, [];
      MatchingStarts(s, q, sent, heads.Length);
      while sellOrders > 0 && bestSell < heads.Length && bestSell <= q.price && left > 0
        invariant Steady() && Matching(s, q, sent, fills, left, State(), out, heads.Length)
        decreases |g.book.Keys|, left
      {
        ghost var f;
        left, f := RoundBuy(q, left, s, sent, fills);
        fills := fills + [f];
      }
      if left > 0 {
        NoOfferCrosses(g.book, sellOrders, bestSell, heads.Length, q.price);
      }
    }

    /** One round of `insert_sell_order`. */
    method RoundSell(q: Request, left: u32, ghost s: State, ghost sent: seq<Msg>, ghost fills: seq<Fill>)
      returns (rest: u32, ghost f: Fill)
      requires Steady() && Matching(s, q, sent, fills, left, State(), out, heads.Length)
      requires q.side == Sell && left > 0 && 0 < bestBuy < heads.Length && (q.price == MARKET || bestBuy >= q.price)
      modifies slots, heads, tails, this`freeHead, this`keys, this`buyOrders, this`sellOrders, this`g,
               this`matchCounter, this`out, this`bestBuy
      ensures Steady() && Matching(s, q, sent, fills + [f], rest, State(), out, heads.Length)
      ensures |g.book.Keys| < |old(g.book).Keys| || (|g.book.Keys| == |old(g.book).Keys| && rest < left)
    {
      hide Stands, Counted, Legal, Uncrossed, UnderWay, IsBest, BidsUpTo, OffersFrom;
      ghost var book, idx, now, sent1 := g.book, bestBuy, State(), out;
      LegalPositive(book, counter, heads.Length);
      BidHeadIsBest(View(), g, bestBuy, q.price);
      AcrossFrom(book, bestBuy);
      var gone;
      rest, gone, f := FillHead(q, bestBuy, left);
      NextFill(s, q, sent, fills, left, now, sent1, heads.Length, f);
      TakeQuotes(book, f.id, f.qty, bestBuy, bestSell, heads.Length);
      if gone {
        ScanDown(idx);
      }
    }

    /** The loop of `insert_sell_order`. A market order matches as the lowest possible limit, and the level
        at the best bid is checked because the index stops at 0 when bids run out. */
    method MatchSell(q: Request) returns (left: u32, ghost fills: seq<Fill>)
      requires Steady() && Legal(g.book, counter, heads.Length) && Uncrossed(g.book) && q.side == Sell
      modifies slots, heads, tails, this`freeHead, this`keys, this`buyOrders, this`sellOrders, this`g,
               this`matchCounter, this`out, this`bestBuy
      ensures Steady() && Matching(old(State()), q, old(out), fills, left, State(), out, heads.Length)
      ensures left > 0 ==> forall id :: !CrossesAt(g.book, q.side, q.price, id)
    {
      ghost var s, sent := State(), out;
      var limit := if q.price == MARKET then 0 else q.price;
      left, fills := q.qty, [];
      MatchingStarts(s, q, sent, heads.Length);
      BidInRange(State(), heads.Length, bestBuy);
      BidLevel(View(), g, bestBuy, buyOrders);
      while buyOrders > 0 && heads[bestBuy] != NULL && bestBuy >= limit && left > 0
        invariant Steady() && Matching(s, q, sent, fills, left, State(), out, heads.Length)
        invariant 0 <= bestBuy < heads.Length && (buyOrders > 0 ==> bestBuy > 0 && heads[bestBuy] != NULL)
        decreases |g.book.Keys|, left
      {
        ghost var f;
        left, f := RoundSell(q, left, s, sent, fills);
        fills := fills + [f];
        BidInRange(State(), heads.Length, bestBuy);
        BidLevel(View(), g, bestBuy, buyOrders);
      }
      if left > 0 {
        NoBidCrosses(g.book, buyOrders, bestBuy, q.price);
      }
    }

    /** Writes block `s` into the first free slot, at the end of the list of its price, and enters it in
        the key map. Returns the slot, and the pool before the list was touched. */
    method Place(s: Slot, ghost queue: seq<int>) returns (b: int, ghost slots1: seq<Slot>)
      requires heads != tails && heads.Length == tails.Length && s.Block? && 0 <= s.price < heads.Length
      requires FreeList(slots[..], freeHead, g.list)
      requires LevelList(slots[..], heads[s.price], tails[s.price], queue, s.price)
      modifies slots, heads, tails, this`freeHead, this`keys
      ensures g.list == [] ==> b == NULL && View() == old(View())
      ensures g.list != [] ==> b == old(freeHead) != NULL && BlockAdded(old(View()), View(), slots1, queue, s)
    {
      ghost var before := slots[..];
      if queue != [] { assert NodeAt(before, queue, s.price, |queue| - 1); }
      b := Allocate();
      slots1 := slots[..];
      if b == NULL {
        return;
      }
      forall i | 0 <= i < |queue| ensures queue[i] != b {
        assert NodeAt(before, queue, s.price, i);
      }
      slots[b] := s;
      slots1 := slots[..];
      Append(b, s.price, queue);
      keys := keys[s.key := b];
    }

    /** Puts the rest of request `q` on the list of its price, if the pool has a slot for it. */
    method Rest(q: Request, left: u32, id: int) returns (rests: bool)
      requires Sound() && 1 <= q.price < heads.Length && left > 0
      requires forall i :: i in g.book ==> i < id
      requires OrderKey(q.account, q.urn) !in keys
      modifies slots, heads, tails, this`freeHead, this`keys, this`buyOrders, this`sellOrders, this`g
      ensures Sound()
      ensures rests <==> |old(g.book).Keys| < slots.Length
      ensures g.book == if rests then old(g.book)[id := OpenOrder(q, left)] else old(g.book)
    {
      ghost var m := View();
      KeyParts(q.account, q.urn);
      var s := Block(q.side, q.price, left, id, OrderKey(q.account, q.urn), NULL, NULL);
      assert LevelOf(m.slots, m.heads, m.tails, g.queues, q.price);
      ghost var slots1;
      var b;
      b, slots1 := Place(s, g.queues[q.price]);
      if b == NULL {
        return false;
      }
      StandsAfterAdd(m, View(), slots1, g, s, buyOrders, sellOrders);
      if q.side == Buy {
        buyOrders := buyOrders + 1;
      } else {
        sellOrders := sellOrders + 1;
      }
      g := ShadowWith(g, b, s);
      return true;
    }

    /** What is left of a limit order rests, if there is room. */
    method FinishLimit(q: Request, left: u32, id: int) returns (r: int)
      requires Steady() && left > 0 && 1 <= q.price < heads.Length
      requires forall i :: i in g.book ==> i < id
      requires OrderKey(q.account, q.urn) !in keys
      modifies slots, heads, tails, this`freeHead, this`keys, this`buyOrders, this`sellOrders, this`g,
               this`out, this`bestBuy, this`bestSell
      ensures Steady()
      ensures if |old(g.book).Keys| < slots.Length
        then r == id && g.book == old(g.book)[id := OpenOrder(q, left)] && out == old(out)
        else r == 0 && g.book == old(g.book) && out == old(out) + [Cancelled(q.account, q.urn, left, 'Z')]
    {
      RestQuotes(g.book, id, OpenOrder(q, left), bestBuy, bestSell, heads.Length);
      var rests := Rest(q, left, id);
      if !rests {
        out := out + [Cancelled(q.account, q.urn, left, 'Z')];
        return 0;
      }
      if q.side == Buy && q.price > bestBuy {
        bestBuy := q.price;
      }
      if q.side == Sell && q.price < bestSell {
        bestSell := q.price;
      }
      return id;
    }

    /** The end of `insert_buy_order` and `insert_sell_order`, for a request matched as `m`: what is left
        rests, or is cancelled. */
    method Finish(q: Request, left: u32, id: int, ghost s: State, ghost sent: seq<Msg>, ghost m: Matched)
      returns (r: int)
      requires Steady() && (q.price == MARKET || 1 <= q.price < heads.Length)
      requires MatchedBy(s, q, sent, m, left, State(), out, keys) && counter == id
      modifies slots, heads, tails, this`freeHead, this`keys, this`buyOrders, this`sellOrders, this`g,
               this`out, this`bestBuy, this`bestSell
      ensures Steady()
      ensures Concluded(Conclude(s, q, m, slots.Length), sent, State(), out, r)
    {
      r := 0;
      if left > 0 {
        if q.price == MARKET {
          out := out + [Cancelled(q.account, q.urn, left, 'I')];
        } else {
          r := FinishLimit(q, left, id);
        }
      }
    }

    /** `insert_buy_order` and `insert_sell_order`, as `insert_order` calls them: the answer is that of
        the exchange. */
    method InsertOrder(q: Request) returns (r: int)
      requires Valid() && MayEnter(State(), q, heads.Length)
      modifies this, slots, heads, tails
      ensures Valid()
      ensures Concluded(Enter(old(State()), q, slots.Length), old(out), State(), out, r)
    {
      ghost var s, sent := State(), out;
      EnterKeeps(s, q, heads.Length, slots.Length);
      counter := counter + 1;
      var id := counter;
      out := out + [Accepted(q.account, q.urn, q.side, q.qty, q.price, id)];
      ghost var sent1 := out;
      var left;
      ghost var fills;
      if q.side == Buy {
        left, fills := MatchBuy(q);
      } else {
        left, fills := MatchSell(q);
      }
      ghost var m := MatchedSo(s, s.(accepted := id), q, sent, sent1, fills, left, State(), out, View(), g);
      r := Finish(q, left, id, s, sent, m);
    }

    /** Takes block `b` out of the book; the best price of its side moves on if that empties its level. */
    method Withdraw(b: int)
      requires Steady() && Legal(g.book, counter, heads.Length) && Uncrossed(g.book)
      requires 0 <= b < slots.Length && slots[b].Block?
      requires slots[b].id in g.book && g.book[slots[b].id].price == slots[b].price && g.book[slots[b].id].side == slots[b].side
      modifies slots, heads, tails, this`freeHead, this`keys, this`buyOrders, this`sellOrders, this`g,
               this`bestBuy, this`bestSell
      ensures Steady() && g.book == old(g.book) - {old(slots[b].id)}
    {
      hide Uncrossed, Counted, Stands;
      ghost var book, id := g.book, slots[b].id;
      RemoveQuotes(book, id, bestBuy, bestSell, heads.Length);
      AcrossFrom(book, slots[b].price);
      ghost var k := NodeOf(View(), g, b);
      var idx, isBuy := slots[b].price, slots[b].side == Buy;
      RemoveBlock(b, idx, k);
      HeadTells(View(), g, idx);
      if heads[idx] == NULL {
        if isBuy && idx == bestBuy {
          ScanDown(idx);
        } else if !isBuy && idx == bestSell {
          ScanUp(idx);
        }
      }
    }

    /** `cancel_order`: the answer is that of the exchange. */
    method CancelOrder(account: u32, urn: u32, qty: u32) returns (r: u32)
      requires Valid()
      modifies this, slots, heads, tails
      ensures Valid()
      ensures Concluded(Cancel(old(State()), account, urn, qty), old(out), State(), out, r)
    {
      hide Stands, Counted, Legal, Uncrossed, OneEach, BestBid, BestOffer;
      ghost var s := State();
      CancelKeeps(s, account, urn, qty, heads.Length, slots.Length);
      KeyFinds(View(), g, account, urn);
      var key := OrderKey(account, urn);
      if key !in keys {
        out := out + [CancelRejected(account, urn)];
        return 0;
      }
      var b := keys[key];
      CancelActsOn(s, account, urn, qty, slots[b].id);
      if qty >= slots[b].qty {
        out := out + [CancelRejected(account, urn)];
        return 0;
      }
      r := slots[b].qty - qty;
      if qty > 0 {
        TakeQuotes(g.book, slots[b].id, r, bestBuy, bestSell, heads.Length);
        ReduceBlock(b, qty);
      } else {
        Withdraw(b);
      }
      out := out + [Cancelled(account, urn, r, 'U')];
    }
  }
}
