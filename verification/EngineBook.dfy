/**
 How the slots, lists and indices of the engine stand for a book: every block on a list is an open order
 and the other way round, the key map finds each by account and user reference number, the counts are
 exact, and the two cached indices are the best bid and the best offer.
 */
module EngineBook {
  import opened Memory
  import opened Trading
  import opened Exchange
  import opened ExchangeLaws
  import opened EngineSlots
  import opened Collections

  /** The key map of the engine, and the map from reference numbers to slots (not kept by the engine). */
  type Keys = map<int, int>
  type Places = map<int, int>

  // ---- blocks and orders ----

  ghost predicate BlockIs(slots: seq<Slot>, book: Book, at: Places, keys: Keys, b: int)
    requires 0 <= b < |slots|
  {
    var s := slots[b];
    s.Block? ==>
      && LegalKey(s.key) && s.id in book && book[s.id] == AsOrder(s)
      && s.id in at && at[s.id] == b
      && s.key in keys && keys[s.key] == b
  }

  ghost predicate OrderIs(slots: seq<Slot>, book: Book, at: Places, id: int) {
    id in book ==> id in at && 0 <= at[id] < |slots| && slots[at[id]].Block? && slots[at[id]].id == id
  }

  ghost predicate KeyIs(slots: seq<Slot>, keys: Keys, key: int) {
    key in keys ==> 0 <= keys[key] < |slots| && slots[keys[key]].Block? && slots[keys[key]].key == key
  }

  ghost predicate Mirrors(slots: seq<Slot>, book: Book, at: Places, keys: Keys) {
    && (forall b {:trigger BlockIs(slots, book, at, keys, b)} :: 0 <= b < |slots| ==> BlockIs(slots, book, at, keys, b))
    && (forall id {:trigger OrderIs(slots, book, at, id)} :: OrderIs(slots, book, at, id))
    && (forall key {:trigger KeyIs(slots, keys, key)} :: KeyIs(slots, keys, key))
  }

  /** Blocks other than `b` have changed in their links only. */
  ghost predicate SameOrders(slots: seq<Slot>, slots': seq<Slot>, b: int) {
    && |slots| == |slots'|
    && forall c :: 0 <= c < |slots| && c != b ==>
         slots'[c] == slots[c]
         || (slots[c].Block? && slots'[c].Block? && slots'[c] == slots[c].(prev := slots'[c].prev, next := slots'[c].next))
  }

  lemma MirrorsRemove(slots: seq<Slot>, slots': seq<Slot>, book: Book, at: Places, keys: Keys, b: int)
    requires Mirrors(slots, book, at, keys)
    requires 0 <= b < |slots| && slots[b].Block? && SameOrders(slots, slots', b) && slots'[b].Free?
    ensures Mirrors(slots', book - {slots[b].id}, at, keys - {slots[b].key})
  {
    var id, key := slots[b].id, slots[b].key;
    var book', keys' := book - {id}, keys - {key};
    assert BlockIs(slots, book, at, keys, b);
    forall c | 0 <= c < |slots'| ensures BlockIs(slots', book', at, keys', c) {
      assert BlockIs(slots, book, at, keys, c);
    }
    forall i ensures OrderIs(slots', book', at, i) {
      assert OrderIs(slots, book, at, i);
    }
    forall k ensures KeyIs(slots', keys', k) {
      assert KeyIs(slots, keys, k);
    }
  }

  lemma MirrorsAdd(slots: seq<Slot>, slots': seq<Slot>, book: Book, at: Places, keys: Keys, b: int)
    requires Mirrors(slots, book, at, keys)
    requires 0 <= b < |slots| && slots[b].Free? && SameOrders(slots, slots', b) && slots'[b].Block?
    requires LegalKey(slots'[b].key) && slots'[b].id !in book && slots'[b].key !in keys
    ensures Mirrors(slots', book[slots'[b].id := AsOrder(slots'[b])], at[slots'[b].id := b], keys[slots'[b].key := b])
  {
    var id, key := slots'[b].id, slots'[b].key;
    var book', at', keys' := book[id := AsOrder(slots'[b])], at[id := b], keys[key := b];
    forall c | 0 <= c < |slots'| ensures BlockIs(slots', book', at', keys', c) {
      assert BlockIs(slots, book, at, keys, c);
    }
    forall i ensures OrderIs(slots', book', at', i) {
      assert OrderIs(slots, book, at, i);
    }
    forall k ensures KeyIs(slots', keys', k) {
      assert KeyIs(slots, keys, k);
    }
  }

  /** A key that is still in the map would lose the block it stands for: exactly with new keys does the map find
      every block after an insertion. */
  lemma MirrorsAddExactly(slots: seq<Slot>, slots': seq<Slot>, book: Book, at: Places, keys: Keys, b: int)
    requires Mirrors(slots, book, at, keys)
    requires 0 <= b < |slots| && slots[b].Free? && SameOrders(slots, slots', b) && slots'[b].Block?
    requires LegalKey(slots'[b].key) && slots'[b].id !in book
    ensures var id, key := slots'[b].id, slots'[b].key;
      Mirrors(slots', book[id := AsOrder(slots'[b])], at[id := b], keys[key := b]) <==> key !in keys
  {
    var id, key := slots'[b].id, slots'[b].key;
    if key !in keys {
      MirrorsAdd(slots, slots', book, at, keys, b);
    } else {
      assert KeyIs(slots, keys, key);
      assert !BlockIs(slots', book[id := AsOrder(slots'[b])], at[id := b], keys[key := b], keys[key]);
    }
  }

  lemma MirrorsQty(slots: seq<Slot>, slots': seq<Slot>, book: Book, at: Places, keys: Keys, b: int, qty: u32)
    requires Mirrors(slots, book, at, keys)
    requires 0 <= b < |slots| && slots[b].Block? && slots' == slots[b := slots[b].(qty := qty)]
    requires slots[b].id in book
    ensures Mirrors(slots', book[slots[b].id := book[slots[b].id].(qty := qty)], at, keys)
  {
    var id := slots[b].id;
    var book' := book[id := book[id].(qty := qty)];
    assert BlockIs(slots, book, at, keys, b);
    forall c | 0 <= c < |slots'| ensures BlockIs(slots', book', at, keys, c) {
      assert BlockIs(slots, book, at, keys, c);
    }
    forall i ensures OrderIs(slots', book', at, i) {
      assert OrderIs(slots, book, at, i);
    }
    forall k ensures KeyIs(slots', keys, k) {
      assert KeyIs(slots, keys, k);
    }
  }

  // ---- counts ----

  ghost function Ids(book: Book, side: Side): set<int> {
    set id | id in book && book[id].side == side
  }

  lemma CountAfterRemove(book: Book, id: int, side: Side)
    requires id in book
    ensures |Ids(book - {id}, side)| == |Ids(book, side)| - (if book[id].side == side then 1 else 0)
    ensures |(book - {id}).Keys| == |book.Keys| - 1
  {
    assert Ids(book - {id}, side) == Ids(book, side) - {id};
    assert (book - {id}).Keys == book.Keys - {id};
  }

  lemma RemoveCounts(book: Book, id: int)
    requires id in book
    ensures |Ids(book - {id}, Buy)| == |Ids(book, Buy)| - (if book[id].side == Buy then 1 else 0)
    ensures |Ids(book - {id}, Sell)| == |Ids(book, Sell)| - (if book[id].side == Sell then 1 else 0)
    ensures |(book - {id}).Keys| == |book.Keys| - 1
  {
    CountAfterRemove(book, id, Buy);
    CountAfterRemove(book, id, Sell);
  }

  lemma CountAfterAdd(book: Book, id: int, o: Order, side: Side)
    requires id !in book
    ensures |Ids(book[id := o], side)| == |Ids(book, side)| + (if o.side == side then 1 else 0)
    ensures |book[id := o].Keys| == |book.Keys| + 1
  {
    assert Ids(book[id := o], side) == if o.side == side then Ids(book, side) + {id} else Ids(book, side);
    assert book[id := o].Keys == book.Keys + {id};
  }

  lemma CountAfterUpdate(book: Book, id: int, o: Order, side: Side)
    requires id in book && o.side == book[id].side
    ensures |Ids(book[id := o], side)| == |Ids(book, side)|
    ensures |book[id := o].Keys| == |book.Keys|
  {
    assert Ids(book[id := o], side) == Ids(book, side);
    assert book[id := o].Keys == book.Keys;
  }

  // ---- best bid and best offer ----

  ghost predicate QuotedAt(book: Book, side: Side, price: int) {
    exists id :: id in book && book[id].side == side && book[id].price == price
  }

  /** No bid is above `idx`. */
  ghost predicate BidsUpTo(book: Book, idx: int) {
    forall id :: id in book && book[id].side == Buy ==> book[id].price <= idx
  }

  /** No offer is below `idx`. */
  ghost predicate OffersFrom(book: Book, idx: int) {
    forall id :: id in book && book[id].side == Sell ==> book[id].price >= idx
  }

  /** `idx` is the best bid, or 0 if there is no bid. */
  ghost predicate BestBid(book: Book, idx: int) {
    0 <= idx && BidsUpTo(book, idx) && (idx > 0 ==> QuotedAt(book, Buy, idx))
  }

  /** `idx` is the best offer, or `levels` if there is no offer. */
  ghost predicate BestOffer(book: Book, idx: int, levels: int) {
    0 <= idx <= levels && OffersFrom(book, idx) && (idx < levels ==> QuotedAt(book, Sell, idx))
  }

  /** Taking shares of an order leaves the best price of the other side, and of its own side too unless
      the order is gone. */
  lemma TakeQuotes(book: Book, id: int, n: int, bid: int, offer: int, levels: int)
    requires id in book && 0 <= n <= book[id].qty && BestBid(book, bid) && BestOffer(book, offer, levels)
    ensures var g := Take(book, id, n);
      && BidsUpTo(g, bid) && OffersFrom(g, offer)
      && (n < book[id].qty || book[id].side == Sell ==> BestBid(g, bid))
      && (n < book[id].qty || book[id].side == Buy ==> BestOffer(g, offer, levels))
  {
    var g := Take(book, id, n);
    if bid > 0 {
      var b :| b in book && book[b].side == Buy && book[b].price == bid;
      assert n < book[id].qty || book[id].side == Sell ==> b in g && g[b].side == Buy && g[b].price == bid;
    }
    if offer < levels {
      var o :| o in book && book[o].side == Sell && book[o].price == offer;
      assert n < book[id].qty || book[id].side == Buy ==> o in g && g[o].side == Sell && g[o].price == offer;
    }
  }

  /** With an offer at `idx`, every bid is below it; with a bid at `idx`, every offer is above it. */
  lemma AcrossFrom(book: Book, idx: int)
    requires Uncrossed(book)
    ensures QuotedAt(book, Sell, idx) ==> forall id :: id in book && book[id].side == Buy ==> book[id].price < idx
    ensures QuotedAt(book, Buy, idx) ==> forall id :: id in book && book[id].side == Sell ==> book[id].price > idx
  {
  }

  // ---- everything at once ----

  /** What the engine keeps in memory to find orders by price and by key. */
  datatype Storage = Storage(slots: seq<Slot>, heads: seq<int>, tails: seq<int>, freeHead: int, keys: Keys)

  /** What that memory stands for: the free list, the list of each price, the slot of each order, and the
      book. */
  datatype Shadow = Shadow(list: seq<int>, queues: seq<seq<int>>, at: Places, book: Book)

  /** Pool, lists and key map stand for the book; the pool has no other slots. */
  ghost predicate Stands(m: Storage, g: Shadow) {
    && FreeList(m.slots, m.freeHead, g.list)
    && Levels(m.slots, m.heads, m.tails, g.queues)
    && Mirrors(m.slots, g.book, g.at, m.keys)
    && |g.list| + |g.book.Keys| == |m.slots|
  }

  ghost predicate Counted(book: Book, buys: int, sells: int) {
    buys == |Ids(book, Buy)| && sells == |Ids(book, Sell)|
  }

  function Reduced(n: int, counts: bool): int {
    if counts then n - 1 else n
  }

  /** Block `b`, node `k` of level `p`, was unlinked and its slot freed. */
  ghost predicate BlockGone(m: Storage, m': Storage, slots1: seq<Slot>, queue: seq<int>, p: int, k: int)
    requires 0 <= k < |queue| && 0 <= p < |m.heads| == |m.tails|
  {
    && 0 <= queue[k] < |m.slots|
    && Unlinked(m.slots, slots1, queue, k) && m'.slots == slots1[queue[k] := Free(m.freeHead)] && m'.freeHead == queue[k]
    && m'.heads == m.heads[p := if k == 0 then (if |queue| == 1 then NULL else queue[1]) else m.heads[p]]
    && m'.tails == m.tails[p := if k == |queue| - 1 then (if |queue| == 1 then NULL else queue[|queue| - 2]) else m.tails[p]]
  }

  ghost function ShadowWithout(g: Shadow, p: int, k: int, id: int): Shadow
    requires 0 <= p < |g.queues| && 0 <= k < |g.queues[p]|
  {
    Shadow([g.queues[p][k]] + g.list, g.queues[p := Without(g.queues[p], k)], g.at, g.book - {id})
  }

  lemma StandsAfterRemove(m: Storage, m': Storage, slots1: seq<Slot>, g: Shadow, p: int, k: int, buys: int, sells: int)
    requires Stands(m, g) && Counted(g.book, buys, sells)
    requires 0 <= p < |g.queues| && 0 <= k < |g.queues[p]| && 0 <= g.queues[p][k] < |m.slots| && m.slots[g.queues[p][k]].Block?
    requires BlockGone(m, m', slots1, g.queues[p], p, k)
    requires m'.keys == m.keys - {m.slots[g.queues[p][k]].key}
    ensures var s := m.slots[g.queues[p][k]];
      && LegalKey(s.key) && s.id in g.book && g.book[s.id] == AsOrder(s)
      && Stands(m', ShadowWithout(g, p, k, s.id))
      && Counted(g.book - {s.id}, Reduced(buys, s.side == Buy), Reduced(sells, s.side == Sell))
  {
    var b := g.queues[p][k];
    assert LevelOf(m.slots, m.heads, m.tails, g.queues, p) && BlockIs(m.slots, g.book, g.at, m.keys, b);
    BlockGoneIs(m, m', slots1, g.queues[p], p, k);
    ListsAfterRemove(m, m', g, p, k);
    MirrorsRemove(m.slots, m'.slots, g.book, g.at, m.keys, b);
    RemoveCounts(g.book, m.slots[b].id);
  }

  lemma ListsAfterRemove(m: Storage, m': Storage, g: Shadow, p: int, k: int)
    requires FreeList(m.slots, m.freeHead, g.list) && Levels(m.slots, m.heads, m.tails, g.queues)
    requires 0 <= p < |g.queues| && 0 <= k < |g.queues[p]| && 0 <= g.queues[p][k] < |m.slots| && m.slots[g.queues[p][k]].Block?
    requires BlockGone(m, m', m'.slots, g.queues[p], p, k) && SameUse(m.slots, m'.slots, g.queues[p][k])
    ensures FreeList(m'.slots, m'.freeHead, [g.queues[p][k]] + g.list)
    ensures Levels(m'.slots, m'.heads, m'.tails, g.queues[p := Without(g.queues[p], k)])
  {
    PushFree(m.slots, m'.slots, m.freeHead, g.list, g.queues[p][k]);
    RemoveLevels(m.slots, m'.slots, m.heads, m.tails, m'.heads, m'.tails, g.queues, p, k);
  }

  /** The other blocks have changed in their links only. */
  lemma BlockGoneIs(m: Storage, m': Storage, slots1: seq<Slot>, q: seq<int>, p: int, k: int)
    requires 0 <= k < |q| && 0 <= p < |m.heads| == |m.tails|
    requires LevelList(m.slots, m.heads[p], m.tails[p], q, p) && BlockGone(m, m', slots1, q, p, k)
    ensures Unlinked(m.slots, m'.slots, q, k) && m'.slots[q[k]] == Free(m.freeHead)
    ensures SameOrders(m.slots, m'.slots, q[k]) && SameUse(m.slots, m'.slots, q[k])
  {
    UnlinkedOnly(m.slots, slots1, m.heads[p], m.tails[p], q, p, k);
    if k > 0 { DistinctNodes(m.slots, m.heads[p], m.tails[p], q, p, k, k - 1); }
    if k < |q| - 1 { DistinctNodes(m.slots, m.heads[p], m.tails[p], q, p, k, k + 1); }
  }

  /** The new block `s` was put in the first free slot, at the end of its level. */
  ghost predicate BlockAdded(m: Storage, m': Storage, slots1: seq<Slot>, queue: seq<int>, s: Slot)
    requires s.Block? && 0 <= s.price < |m.heads| == |m.tails|
  {
    var b := m.freeHead;
    && 0 <= b < |m.slots| && m.slots[b] == Free(m'.freeHead)
    && slots1 == m.slots[b := s] && Appended(slots1, m'.slots, queue, b)
    && m'.slots[b] == s.(prev := m'.slots[b].prev, next := m'.slots[b].next)
    && m'.heads == m.heads[s.price := if queue == [] then b else m.heads[s.price]]
    && m'.tails == m.tails[s.price := b]
    && m'.keys == m.keys[s.key := b]
  }

  ghost function ShadowWith(g: Shadow, b: int, s: Slot): Shadow
    requires s.Block? && LegalKey(s.key) && 0 <= s.price < |g.queues| && g.list != []
  {
    Shadow(g.list[1..], g.queues[s.price := g.queues[s.price] + [b]], g.at[s.id := b], g.book[s.id := AsOrder(s)])
  }

  lemma StandsAfterAdd(m: Storage, m': Storage, slots1: seq<Slot>, g: Shadow, s: Slot, buys: int, sells: int)
    requires Stands(m, g) && Counted(g.book, buys, sells) && g.list != []
    requires s.Block? && 0 <= s.price < |g.queues| && LegalKey(s.key) && s.key !in m.keys
    requires forall id :: id in g.book ==> id < s.id
    requires BlockAdded(m, m', slots1, g.queues[s.price], s)
    ensures Stands(m', ShadowWith(g, m.freeHead, s))
    ensures Counted(g.book[s.id := AsOrder(s)], if s.side == Buy then buys + 1 else buys, if s.side == Sell then sells + 1 else sells)
  {
    var q, b, p := g.queues[s.price], m.freeHead, s.price;
    assert LevelOf(m.slots, m.heads, m.tails, g.queues, p);
    if q != [] { assert NodeAt(m.slots, q, p, |q| - 1); }
    assert Appended(m.slots, m'.slots, q, b);
    forall c | 0 <= c < |m.slots| && m.slots[c].Block? ensures m.slots[c].id < s.id {
      assert BlockIs(m.slots, g.book, g.at, m.keys, c);
    }
    PopFree(m.slots, m'.slots, m.freeHead, g.list);
    AddLevels(m.slots, m'.slots, m.heads, m.tails, m'.heads, m'.tails, g.queues, p, b);
    MirrorsAdd(m.slots, m'.slots, g.book, g.at, m.keys, b);
    CountAfterAdd(g.book, s.id, AsOrder(s), Buy);
    CountAfterAdd(g.book, s.id, AsOrder(s), Sell);
    assert AsOrder(m'.slots[b]) == AsOrder(s);
  }

  /** Some shares of block `b` are gone. */
  lemma StandsAfterQty(m: Storage, m': Storage, g: Shadow, b: int, qty: u32, buys: int, sells: int)
    requires Stands(m, g) && Counted(g.book, buys, sells)
    requires 0 <= b < |m.slots| && m.slots[b].Block? && m' == m.(slots := m.slots[b := m.slots[b].(qty := qty)])
    ensures var s := m.slots[b];
      && LegalKey(s.key) && s.id in g.book && g.book[s.id] == AsOrder(s)
      && var book' := g.book[s.id := g.book[s.id].(qty := qty)];
      Stands(m', g.(book := book')) && Counted(book', buys, sells)
  {
    var id, slots' := m.slots[b].id, m'.slots;
    assert BlockIs(m.slots, g.book, g.at, m.keys, b);
    MirrorsQty(m.slots, slots', g.book, g.at, m.keys, b, qty);
    CountAfterUpdate(g.book, id, g.book[id].(qty := qty), Buy);
    CountAfterUpdate(g.book, id, g.book[id].(qty := qty), Sell);
    forall i | 0 <= i < |g.list| ensures FreeAt(slots', g.list, i) {
      assert FreeAt(m.slots, g.list, i);
    }
    forall r | 0 <= r < |g.queues| ensures LevelOf(slots', m.heads, m.tails, g.queues, r) {
      assert LevelOf(m.slots, m.heads, m.tails, g.queues, r);
      RepricedLevel(m.slots, slots', m.heads[r], m.tails[r], g.queues[r], r);
    }
    forall c | 0 <= c < |slots'| ensures Queued(slots', g.queues, c) {
      assert Queued(m.slots, g.queues, c);
    }
  }

  /** A list does not depend on the quantities of its blocks. */
  lemma RepricedLevel(slots: seq<Slot>, slots': seq<Slot>, head: int, tail: int, queue: seq<int>, p: int)
    requires LevelList(slots, head, tail, queue, p) && |slots| == |slots'|
    requires forall c :: 0 <= c < |slots| ==>
      slots'[c] == slots[c] || (slots[c].Block? && slots'[c].Block? && slots'[c] == slots[c].(qty := slots'[c].qty))
    ensures LevelList(slots', head, tail, queue, p)
  {
    forall i | 0 <= i < |queue| ensures NodeAt(slots', queue, p, i) {
      assert NodeAt(slots, queue, p, i);
    }
    forall i, j | 0 <= i < j < |queue| ensures Older(slots', queue[i], queue[j]) {
      assert Older(slots, queue[i], queue[j]);
    }
  }

  // ---- what the heads of the lists tell ----

  /** The head of a level is a block exactly if some order has that price. */
  lemma HeadTells(m: Storage, g: Shadow, p: int)
    requires Stands(m, g)
    requires 0 <= p < |m.heads|
    ensures m.heads[p] == NULL ==> forall id :: id in g.book ==> g.book[id].price != p
    ensures m.heads[p] != NULL ==>
      && g.queues[p] != [] && m.heads[p] == g.queues[p][0]
      && 0 <= m.heads[p] < |m.slots| && m.slots[m.heads[p]].Block? && m.slots[m.heads[p]].price == p
      && m.slots[m.heads[p]].id in g.book && g.book[m.slots[m.heads[p]].id].price == p
  {
    assert LevelOf(m.slots, m.heads, m.tails, g.queues, p);
    if g.queues[p] != [] { assert NodeAt(m.slots, g.queues[p], p, 0); }
    if m.heads[p] == NULL {
      forall id | id in g.book ensures g.book[id].price != p {
        assert OrderIs(m.slots, g.book, g.at, id);
        assert Queued(m.slots, g.queues, g.at[id]) && BlockIs(m.slots, g.book, g.at, m.keys, g.at[id]);
      }
    } else {
      assert BlockIs(m.slots, g.book, g.at, m.keys, m.heads[p]);
    }
  }

  /** All orders at one price are in the list of that price, and the head is the oldest. */
  lemma HeadIsOldest(m: Storage, g: Shadow, p: int, id: int)
    requires Stands(m, g)
    requires 0 <= p < |m.heads| && id in g.book && g.book[id].price == p
    ensures m.heads[p] != NULL && 0 <= m.heads[p] < |m.slots| && m.slots[m.heads[p]].Block?
    ensures m.slots[m.heads[p]].id != id ==> m.slots[m.heads[p]].id < id
  {
    HeadTells(m, g, p);
    assert LevelOf(m.slots, m.heads, m.tails, g.queues, p) && OrderIs(m.slots, g.book, g.at, id);
    var b := g.at[id];
    assert Queued(m.slots, g.queues, b) && BlockIs(m.slots, g.book, g.at, m.keys, b);
    var i :| 0 <= i < |g.queues[p]| && g.queues[p][i] == b;
    if i > 0 { assert Older(m.slots, g.queues[p][0], g.queues[p][i]); }
  }

  /** The head of the best offer level is the order that a buy request meets first. */
  lemma OfferHeadIsBest(m: Storage, g: Shadow, idx: int, price: int)
    requires Stands(m, g)
    requires Uncrossed(g.book) && BestOffer(g.book, idx, |m.heads|) && idx < |m.heads| && idx <= price
    ensures m.heads[idx] != NULL && 0 <= m.heads[idx] < |m.slots| && m.slots[m.heads[idx]].Block?
    ensures IsBest(g.book, Buy, price, m.slots[m.heads[idx]].id) && g.book[m.slots[m.heads[idx]].id].side == Sell
    ensures g.book[m.slots[m.heads[idx]].id].price == idx
  {
    var s :| s in g.book && g.book[s].side == Sell && g.book[s].price == idx;
    HeadIsOldest(m, g, idx, s);
    HeadTells(m, g, idx);
    var id := m.slots[m.heads[idx]].id;
    assert g.book[id].side == Sell by { assert g.book[id].price == g.book[s].price; }
    forall j | CrossesAt(g.book, Buy, price, j) && j != id ensures Before(Buy, id, g.book[id], j, g.book[j]) {
      if g.book[j].price == idx { HeadIsOldest(m, g, idx, j); }
    }
  }

  /** The head of the best bid level is the order that a sell request meets first. */
  lemma BidHeadIsBest(m: Storage, g: Shadow, idx: int, price: int)
    requires Stands(m, g)
    requires Uncrossed(g.book) && BestBid(g.book, idx) && 0 < idx < |m.heads| && (price == MARKET || idx >= price)
    ensures m.heads[idx] != NULL && 0 <= m.heads[idx] < |m.slots| && m.slots[m.heads[idx]].Block?
    ensures IsBest(g.book, Sell, price, m.slots[m.heads[idx]].id) && g.book[m.slots[m.heads[idx]].id].side == Buy
    ensures g.book[m.slots[m.heads[idx]].id].price == idx
  {
    var s :| s in g.book && g.book[s].side == Buy && g.book[s].price == idx;
    HeadIsOldest(m, g, idx, s);
    HeadTells(m, g, idx);
    var id := m.slots[m.heads[idx]].id;
    assert g.book[id].side == Buy by { assert g.book[id].price == g.book[s].price; }
    forall j | CrossesAt(g.book, Sell, price, j) && j != id ensures Before(Sell, id, g.book[id], j, g.book[j]) {
      if g.book[j].price == idx { HeadIsOldest(m, g, idx, j); }
    }
  }

  // ---- rounds of matching ----

  /** Request `q` came in state `s` with `sent` on the queue; by now it has made `fills`, and has `left`
      still to match. */
  ghost predicate Matching(s: State, q: Request, sent: seq<Msg>, fills: seq<Fill>, left: u32,
                           now: State, out: seq<Msg>, levels: int)
  {
    && Legal(now.book, now.accepted, levels) && Uncrossed(now.book)
    && UnderWay(s.book, q.side, q.price, q.qty, fills, now.book, left)
    && now.matches == s.matches + |fills|
    && out == sent + AllFillMsgs(q, fills, s.matches + 1)
  }

  lemma MatchingStarts(s: State, q: Request, sent: seq<Msg>, levels: int)
    requires Legal(s.book, s.accepted, levels) && Uncrossed(s.book)
    ensures Matching(s, q, sent, [], q.qty, s, sent, levels)
  {
    NotYetUnderWay(s.book, q.side, q.price, q.qty);
    assert sent + [] == sent;
  }

  /** One more fill `f`, against the best order of the book. */
  lemma NextFill(s: State, q: Request, sent: seq<Msg>, fills: seq<Fill>, left: u32, now: State, out: seq<Msg>, levels: int, f: Fill)
    requires Matching(s, q, sent, fills, left, now, out, levels) && left > 0
    requires IsBest(now.book, q.side, q.price, f.id) && f.maker == now.book[f.id] && f.qty == Min(left, f.maker.qty)
    ensures var book := Take(now.book, f.id, f.qty);
      && Matching(s, q, sent, fills + [f], left - f.qty, State(book, now.accepted, now.matches + 1),
                  out + FillMsgs(q, f, now.matches + 1), levels)
      && |book.Keys| == |now.book.Keys| - (if f.qty == f.maker.qty then 1 else 0)
    ensures f.qty == f.maker.qty || f.qty == left
  {
    hide Legal, OneEach, Uncrossed;
    NextRound(s.book, q.side, q.price, q.qty, fills, now.book, left, f.id);
    LegalPositive(now.book, now.accepted, levels);
    TakeIs(now.book, f.id, f.qty);
    LessKeeps(Take(now.book, f.id, f.qty), now.book, now.accepted, levels);
    OneMoreFill(q, fills, f, s.matches + 1);
  }

  lemma NoOfferCrosses(book: Book, sells: int, idx: int, levels: int, price: int)
    requires sells == |Ids(book, Sell)| && BestOffer(book, idx, levels) && levels <= MARKET
    requires sells == 0 || idx >= levels || idx > price
    requires forall id :: id in book ==> book[id].price < levels
    ensures forall id :: !CrossesAt(book, Buy, price, id)
  {
    forall id ensures !CrossesAt(book, Buy, price, id) {
      if id in book && book[id].side == Sell { assert id in Ids(book, Sell); }
    }
  }

  lemma NoBidCrosses(book: Book, buys: int, idx: int, price: int)
    requires buys == |Ids(book, Buy)| && BestBid(book, idx)
    requires buys == 0 || idx == 0 || (price != MARKET && idx < price)
    requires forall id :: id in book ==> 1 <= book[id].price
    ensures forall id :: !CrossesAt(book, Sell, price, id)
  {
    forall id ensures !CrossesAt(book, Sell, price, id) {
      if id in book && book[id].side == Buy { assert id in Ids(book, Buy); }
    }
  }

  /** The best bid is a level. */
  lemma BidInRange(s: State, levels: int, idx: int)
    requires BestBid(s.book, idx) && Legal(s.book, s.accepted, levels) && 1 <= levels
    ensures 0 <= idx < levels
  {
  }

  /** As long as there are bids, the level of the best bid is not empty. */
  lemma BidLevel(m: Storage, g: Shadow, idx: int, buys: int)
    requires Stands(m, g) && BestBid(g.book, idx) && buys == |Ids(g.book, Buy)| && 0 <= idx < |m.heads|
    requires forall id :: id in g.book ==> 1 <= g.book[id].price
    ensures buys > 0 ==> idx > 0 && m.heads[idx] != NULL
  {
    if idx == 0 {
      forall id | id in g.book ensures g.book[id].side != Buy {
        assert 1 <= g.book[id].price;
      }
      assert Ids(g.book, Buy) == {};
    } else {
      var id :| id in g.book && g.book[id].side == Buy && g.book[id].price == idx;
      HeadIsOldest(m, g, idx, id);
    }
  }

  /** The key of an order that does not rest is not in the key map. */
  lemma KeyIsFree(m: Storage, g: Shadow, account: u32, urn: u32)
    requires Stands(m, g) && forall id :: !Resting(g.book, account, urn, id)
    ensures OrderKey(account, urn) !in m.keys
  {
    var key := OrderKey(account, urn);
    KeyParts(account, urn);
    assert KeyIs(m.slots, m.keys, key);
    if key in m.keys {
      var b := m.keys[key];
      assert BlockIs(m.slots, g.book, g.at, m.keys, b);
      assert Resting(g.book, account, urn, m.slots[b].id);
    }
  }

  /** A new order moves the best price of its side if it is better. */
  lemma RestQuotes(book: Book, id: int, o: Order, bid: int, offer: int, levels: int)
    requires id !in book && BestBid(book, bid) && BestOffer(book, offer, levels) && 1 <= o.price < levels
    ensures var g := book[id := o];
      && BestBid(g, if o.side == Buy && o.price > bid then o.price else bid)
      && BestOffer(g, if o.side == Sell && o.price < offer then o.price else offer, levels)
  {
    var g := book[id := o];
    assert g[id] == o;
    if bid > 0 {
      var b :| b in book && book[b].side == Buy && book[b].price == bid;
      assert g[b] == book[b];
    }
    if offer < levels {
      var b :| b in book && book[b].side == Sell && book[b].price == offer;
      assert g[b] == book[b];
    }
  }

  /** Request `q`, sent in state `s` with `sent` on the queue, has been matched as `m`; only what is left of
      it has still to rest or be cancelled. */
  ghost predicate MatchedBy(s: State, q: Request, sent: seq<Msg>, m: Matched, left: u32, now: State, out: seq<Msg>, keys: Keys) {
    && m == Matched(now.book, m.fills, left)
    && now.accepted == s.accepted + 1 && now.matches == s.matches + |m.fills|
    && out == sent + ([Accepted(q.account, q.urn, q.side, q.qty, q.price, now.accepted)] + AllFillMsgs(q, m.fills, s.matches + 1))
    && (forall i :: i in now.book ==> i < now.accepted)
    && OrderKey(q.account, q.urn) !in keys
  }

  /** What is in a book was in the book before matching. */
  lemma StillFree(s: State, q: Request, book: Book, mem: Storage, g: Shadow, levels: int)
    requires Less(book, s.book) && MayEnter(s, q, levels) && Legal(s.book, s.accepted, levels)
    requires Stands(mem, g) && g.book == book
    ensures forall i :: i in book ==> i < s.accepted + 1
    ensures OrderKey(q.account, q.urn) !in mem.keys
  {
    forall id ensures !Resting(book, q.account, q.urn, id) {
      assert !Resting(s.book, q.account, q.urn, id);
    }
    KeyIsFree(mem, g, q.account, q.urn);
  }

  /** Matching is over. */
  lemma MatchedTo(s: State, q: Request, sent: seq<Msg>, fills: seq<Fill>, left: u32, now: State, out: seq<Msg>, levels: int)
      returns (m: Matched)
    requires Legal(s.book, s.accepted, levels)
    requires Matching(s, q, sent, fills, left, now, out, levels)
    requires left > 0 ==> forall id :: !CrossesAt(now.book, q.side, q.price, id)
    ensures m == Match(s.book, q.side, q.price, q.qty) == Matched(now.book, fills, left)
    ensures Less(now.book, s.book) && now.matches == s.matches + |m.fills|
    ensures out == sent + AllFillMsgs(q, m.fills, s.matches + 1)
  {
    LastRound(s.book, q.side, q.price, q.qty, fills, now.book, left);
    m := Matched(now.book, fills, left);
    LegalPositive(s.book, s.accepted, levels);
    MatchLeaves(s.book, q.side, q.price, q.qty);
  }

  lemma Associates(x: seq<Msg>, y: seq<Msg>, z: seq<Msg>)
    ensures (x + y) + z == x + (y + z)
  {
  }

  lemma MatchedAs(s: State, s1: State, q: Request, sent: seq<Msg>, sent1: seq<Msg>, m: Matched, left: u32, now: State,
                  out: seq<Msg>, mem: Storage, g: Shadow)
    requires Legal(s.book, s.accepted, |mem.heads|) && MayEnter(s, q, |mem.heads|) && s1 == s.(accepted := s.accepted + 1)
    requires sent1 == sent + [Accepted(q.account, q.urn, q.side, q.qty, q.price, s1.accepted)]
    requires m == Matched(now.book, m.fills, left) && Less(now.book, s1.book)
    requires now.accepted == s1.accepted && now.matches == s1.matches + |m.fills|
    requires out == sent1 + AllFillMsgs(q, m.fills, s1.matches + 1)
    requires Stands(mem, g) && g.book == now.book
    ensures MatchedBy(s, q, sent, m, left, now, out, mem.keys)
  {
    StillFree(s, q, now.book, mem, g, |mem.heads|);
    Associates(sent, [Accepted(q.account, q.urn, q.side, q.qty, q.price, now.accepted)], AllFillMsgs(q, m.fills, s.matches + 1));
  }

  /** `s1` is state `s` once the request has been given its number. */
  lemma MatchedSo(s: State, s1: State, q: Request, sent: seq<Msg>, sent1: seq<Msg>, fills: seq<Fill>, left: u32, now: State,
                  out: seq<Msg>, mem: Storage, g: Shadow) returns (m: Matched)
    requires Legal(s.book, s.accepted, |mem.heads|) && MayEnter(s, q, |mem.heads|) && s1 == s.(accepted := s.accepted + 1)
    requires sent1 == sent + [Accepted(q.account, q.urn, q.side, q.qty, q.price, s1.accepted)]
    requires Matching(s1, q, sent1, fills, left, now, out, |mem.heads|) && now.accepted == s1.accepted
    requires left > 0 ==> forall id :: !CrossesAt(now.book, q.side, q.price, id)
    requires Stands(mem, g) && g.book == now.book
    ensures m == Match(s.book, q.side, q.price, q.qty)
    ensures MatchedBy(s, q, sent, m, left, now, out, mem.keys)
  {
    m := MatchedTo(s1, q, sent1, fills, left, now, out, |mem.heads|);
    MatchedAs(s, s1, q, sent, sent1, m, left, now, out, mem, g);
  }

  // ---- cancels ----

  /** The key map finds an order exactly if it rests. */
  lemma KeyFinds(m: Storage, g: Shadow, account: u32, urn: u32)
    requires Stands(m, g)
    ensures var key := OrderKey(account, urn);
      if key in m.keys then
        && 0 <= m.keys[key] < |m.slots| && m.slots[m.keys[key]].Block?
        && var s := m.slots[m.keys[key]];
        && Resting(g.book, account, urn, s.id) && g.book[s.id].qty == s.qty
        && g.book[s.id].side == s.side && g.book[s.id].price == s.price
      else forall id :: !Resting(g.book, account, urn, id)
  {
    var key := OrderKey(account, urn);
    KeyParts(account, urn);
    assert KeyIs(m.slots, m.keys, key);
    if key in m.keys {
      assert BlockIs(m.slots, g.book, g.at, m.keys, m.keys[key]);
    } else {
      forall id ensures !Resting(g.book, account, urn, id) {
        assert OrderIs(m.slots, g.book, g.at, id);
        if id in g.book { assert BlockIs(m.slots, g.book, g.at, m.keys, g.at[id]); }
      }
    }
  }

  /** A block is a node of the list of its price. */
  lemma NodeOf(m: Storage, g: Shadow, b: int) returns (k: int)
    requires Stands(m, g) && 0 <= b < |m.slots| && m.slots[b].Block?
    ensures 0 <= m.slots[b].price < |g.queues| && 0 <= k < |g.queues[m.slots[b].price]|
    ensures g.queues[m.slots[b].price][k] == b
  {
    assert Queued(m.slots, g.queues, b);
    k :| 0 <= k < |g.queues[m.slots[b].price]| && g.queues[m.slots[b].price][k] == b;
  }

  ghost predicate PricedAt(book: Book, price: int) {
    exists id :: id in book && book[id].price == price
  }

  /** Removing an order can only change the best price of its side, and only if it was the last order at
      that price. */
  lemma RemoveQuotes(book: Book, id: int, bid: int, offer: int, levels: int)
    requires id in book && Uncrossed(book) && BestBid(book, bid) && BestOffer(book, offer, levels)
    ensures var g, price := book - {id}, book[id].price;
      && BidsUpTo(g, bid) && OffersFrom(g, offer)
      && (book[id].side == Sell || price != bid || PricedAt(g, price) ==> BestBid(g, bid))
      && (book[id].side == Buy || price != offer || PricedAt(g, price) ==> BestOffer(g, offer, levels))
  {
    var g, price := book - {id}, book[id].price;
    if bid > 0 && (book[id].side == Sell || price != bid) {
      var b :| b in book && book[b].side == Buy && book[b].price == bid;
      assert b in g;
    }
    if offer < levels && (book[id].side == Buy || price != offer) {
      var b :| b in book && book[b].side == Sell && book[b].price == offer;
      assert b in g;
    }
    if PricedAt(g, price) {
      var j :| j in g && g[j].price == price;
      assert book[j].side == book[id].side by { assert book[j].price == book[id].price; }
    }
  }
}
