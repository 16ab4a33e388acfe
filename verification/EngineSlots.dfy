/**
 The memory of the matching engine: order blocks in the slots of a fixed pool, free slots in an
 intrusive list (`4_order_book_proj/src/allocator.hpp`), resting blocks in doubly linked lists, one per
 price, shared by both sides (`4_order_book_proj/src/engine.hpp`).

 A pointer to a block is the number of its slot; `NULL` is -1. A free slot has nothing but its link:
 the bytes of the order are gone.
 */
module EngineSlots {
  import opened Memory
  import opened Trading
  import opened Exchange
  import opened Collections

  datatype Slot =
    | Free(nextFree: int)
    | Block(side: Side, price: int, qty: u32, id: int, key: int, prev: int, next: int)

  // ---- order keys ----

  /** `order_key`: account and user reference number in one 64-bit word. */
  function OrderKey(account: u32, urn: u32): int {
    account * 0x1_0000_0000 + urn
  }

  function KeyAccount(key: int): int {
    key / 0x1_0000_0000
  }

  function KeyUrn(key: int): int {
    key % 0x1_0000_0000
  }

  lemma KeyParts(account: u32, urn: u32)
    ensures KeyAccount(OrderKey(account, urn)) == account
    ensures KeyUrn(OrderKey(account, urn)) == urn
  {
  }

  predicate LegalKey(key: int) {
    0 <= key < 0x1_0000_0000 * 0x1_0000_0000
  }

  function AsOrder(s: Slot): Order
    requires s.Block? && LegalKey(s.key)
  {
    Order(KeyAccount(s.key), KeyUrn(s.key), s.side, s.price, s.qty)
  }

  // ---- the free list ----

  ghost predicate FreeAt(slots: seq<Slot>, list: seq<int>, i: int)
    requires 0 <= i < |list|
  {
    && 0 <= list[i] < |slots|
    && slots[list[i]] == Free(if i == |list| - 1 then NULL else list[i + 1])
  }

  /** `list` is the free list from `freeHead`: every free slot is on it, once. */
  ghost predicate FreeList(slots: seq<Slot>, freeHead: int, list: seq<int>) {
    && freeHead == (if list == [] then NULL else list[0])
    && (forall i {:trigger FreeAt(slots, list, i)} :: 0 <= i < |list| ==> FreeAt(slots, list, i))
    && (forall i, j :: 0 <= i < j < |list| ==> list[i] != list[j])
    && (forall b {:trigger b in list} :: 0 <= b < |slots| && slots[b].Free? ==> b in list)
  }

  // ---- the lists of the levels ----

  ghost predicate NodeAt(slots: seq<Slot>, queue: seq<int>, price: int, i: int)
    requires 0 <= i < |queue|
  {
    && 0 <= queue[i] < |slots|
    && slots[queue[i]].Block?
    && slots[queue[i]].price == price
    && slots[queue[i]].prev == (if i == 0 then NULL else queue[i - 1])
    && slots[queue[i]].next == (if i == |queue| - 1 then NULL else queue[i + 1])
  }

  ghost predicate Older(slots: seq<Slot>, b: int, c: int) {
    0 <= b < |slots| && 0 <= c < |slots| && slots[b].Block? && slots[c].Block? && slots[b].id < slots[c].id
  }

  /** `queue` is the list of one level, oldest block first. */
  ghost predicate LevelList(slots: seq<Slot>, head: int, tail: int, queue: seq<int>, price: int) {
    && head == (if queue == [] then NULL else queue[0])
    && tail == (if queue == [] then NULL else queue[|queue| - 1])
    && (forall i {:trigger NodeAt(slots, queue, price, i)} :: 0 <= i < |queue| ==> NodeAt(slots, queue, price, i))
    && (forall i, j {:trigger Older(slots, queue[i], queue[j])} :: 0 <= i < j < |queue| ==> Older(slots, queue[i], queue[j]))
  }

  /** Block `b` is on the list of its price. */
  ghost predicate Queued(slots: seq<Slot>, queues: seq<seq<int>>, b: int)
    requires 0 <= b < |slots|
  {
    slots[b].Block? ==> 0 <= slots[b].price < |queues| && b in queues[slots[b].price]
  }

  ghost predicate LevelOf(slots: seq<Slot>, heads: seq<int>, tails: seq<int>, queues: seq<seq<int>>, p: int)
    requires 0 <= p < |queues| && |heads| == |tails| == |queues|
  {
    LevelList(slots, heads[p], tails[p], queues[p], p)
  }

  ghost predicate Levels(slots: seq<Slot>, heads: seq<int>, tails: seq<int>, queues: seq<seq<int>>) {
    && |heads| == |tails| == |queues|
    && (forall p {:trigger LevelOf(slots, heads, tails, queues, p)} :: 0 <= p < |queues| ==>
         LevelOf(slots, heads, tails, queues, p))
    && (forall b {:trigger Queued(slots, queues, b)} :: 0 <= b < |slots| ==> Queued(slots, queues, b))
  }

  /** Node `k` was taken off its list: its neighbours are linked to each other, and only their links and
      the slot itself have changed. */
  ghost predicate Unlinked(slots: seq<Slot>, slots': seq<Slot>, queue: seq<int>, k: int)
    requires 0 <= k < |queue|
  {
    var prev, next := if k == 0 then NULL else queue[k - 1], if k == |queue| - 1 then NULL else queue[k + 1];
    && |slots'| == |slots|
    && (forall c :: 0 <= c < |slots| && c != queue[k] && c != prev && c != next ==> slots'[c] == slots[c])
    && (0 <= prev < |slots| && slots[prev].Block? ==> slots'[prev] == slots[prev].(next := next))
    && (0 <= next < |slots| && slots[next].Block? ==> slots'[next] == slots[next].(prev := prev))
  }

  lemma DistinctNodes(slots: seq<Slot>, head: int, tail: int, queue: seq<int>, price: int, i: int, j: int)
    requires LevelList(slots, head, tail, queue, price) && 0 <= i < |queue| && 0 <= j < |queue| && i != j
    ensures queue[i] != queue[j] && NodeAt(slots, queue, price, i) && NodeAt(slots, queue, price, j)
  {
    assert i < j ==> Older(slots, queue[i], queue[j]);
    assert j < i ==> Older(slots, queue[j], queue[i]);
  }

  lemma UnlinkedNode(slots: seq<Slot>, slots': seq<Slot>, head: int, tail: int, queue: seq<int>, price: int, k: int, i: int)
    requires LevelList(slots, head, tail, queue, price) && 0 <= k < |queue|
    requires Unlinked(slots, slots', queue, k)
    requires 0 <= i < |queue| - 1
    ensures NodeAt(slots', Without(queue, k), price, i)
  {
    var j := if i < k then i else i + 1;
    assert Without(queue, k)[i] == queue[j];
    DistinctNodes(slots, head, tail, queue, price, j, k);
    if k > 0 && j != k - 1 { DistinctNodes(slots, head, tail, queue, price, j, k - 1); }
    if k < |queue| - 1 && j != k + 1 { DistinctNodes(slots, head, tail, queue, price, j, k + 1); }
    if i > 0 { assert Without(queue, k)[i - 1] == queue[if i - 1 < k then i - 1 else i]; }
    if i + 1 < |queue| - 1 { assert Without(queue, k)[i + 1] == queue[if i + 1 < k then i + 1 else i + 2]; }
  }

  lemma UnlinkedList(slots: seq<Slot>, slots': seq<Slot>, head: int, tail: int, queue: seq<int>, price: int, k: int,
                     head': int, tail': int)
    requires LevelList(slots, head, tail, queue, price) && 0 <= k < |queue|
    requires Unlinked(slots, slots', queue, k)
    requires head' == (if k == 0 then (if |queue| == 1 then NULL else queue[1]) else head)
    requires tail' == (if k == |queue| - 1 then (if |queue| == 1 then NULL else queue[|queue| - 2]) else tail)
    ensures LevelList(slots', head', tail', Without(queue, k), price)
  {
    var q := Without(queue, k);
    forall i | 0 <= i < |q| ensures NodeAt(slots', q, price, i) {
      UnlinkedNode(slots, slots', head, tail, queue, price, k, i);
    }
    forall i, j | 0 <= i < j < |q| ensures Older(slots', q[i], q[j]) {
      var i', j' := if i < k then i else i + 1, if j < k then j else j + 1;
      assert q[i] == queue[i'] && q[j] == queue[j'];
      assert Older(slots, queue[i'], queue[j']);
      UnlinkedId(slots, slots', head, tail, queue, price, k, i');
      UnlinkedId(slots, slots', head, tail, queue, price, k, j');
    }
  }

  /** Unlinking changes no block but in its links. */
  lemma UnlinkedId(slots: seq<Slot>, slots': seq<Slot>, head: int, tail: int, queue: seq<int>, price: int, k: int, i: int)
    requires LevelList(slots, head, tail, queue, price) && 0 <= k < |queue|
    requires Unlinked(slots, slots', queue, k)
    requires 0 <= i < |queue| && i != k
    ensures NodeAt(slots, queue, price, i) && slots'[queue[i]].Block? && slots'[queue[i]].id == slots[queue[i]].id
  {
    assert NodeAt(slots, queue, price, i) && NodeAt(slots, queue, price, k);
    assert Older(slots, queue[if i < k then i else k], queue[if i < k then k else i]);
  }

  /** Only blocks of level `price` have changed. */
  ghost predicate OnlyLevel(slots: seq<Slot>, slots': seq<Slot>, price: int) {
    && |slots| == |slots'|
    && forall c :: 0 <= c < |slots| && slots'[c] != slots[c] ==> slots[c].Block? && slots[c].price == price
  }

  lemma OtherLevel(slots: seq<Slot>, slots': seq<Slot>, price: int, head: int, tail: int, queue: seq<int>, p: int)
    requires OnlyLevel(slots, slots', price) && p != price
    requires LevelList(slots, head, tail, queue, p)
    ensures LevelList(slots', head, tail, queue, p)
  {
    forall i | 0 <= i < |queue| ensures NodeAt(slots', queue, p, i) {
      assert NodeAt(slots, queue, p, i);
    }
    forall i, j | 0 <= i < j < |queue| ensures Older(slots', queue[i], queue[j]) {
      assert Older(slots, queue[i], queue[j]) && NodeAt(slots, queue, p, i) && NodeAt(slots, queue, p, j);
    }
  }

  // ---- a block leaves the book ----

  lemma UnlinkedOnly(slots: seq<Slot>, slots': seq<Slot>, head: int, tail: int, queue: seq<int>, price: int, k: int)
    requires LevelList(slots, head, tail, queue, price) && 0 <= k < |queue|
    requires Unlinked(slots, slots', queue, k)
    ensures OnlyLevel(slots, slots', price)
    ensures forall c :: 0 <= c < |slots| && c != queue[k] ==>
      (slots'[c] == slots[c] || (slots[c].Block? && slots'[c] == slots[c].(prev := slots'[c].prev, next := slots'[c].next)))
  {
    assert NodeAt(slots, queue, price, k);
    if k > 0 { assert NodeAt(slots, queue, price, k - 1); }
    if k < |queue| - 1 { assert NodeAt(slots, queue, price, k + 1); }
  }

  lemma RemoveLevels(slots: seq<Slot>, slots': seq<Slot>, heads: seq<int>, tails: seq<int>, heads': seq<int>, tails': seq<int>,
                     queues: seq<seq<int>>, p: int, k: int)
    requires Levels(slots, heads, tails, queues)
    requires 0 <= p < |queues| && 0 <= k < |queues[p]|
    requires Unlinked(slots, slots', queues[p], k)
    requires 0 <= queues[p][k] < |slots| && slots'[queues[p][k]].Free?
    requires var q := queues[p];
      && heads' == heads[p := if k == 0 then (if |q| == 1 then NULL else q[1]) else heads[p]]
      && tails' == tails[p := if k == |q| - 1 then (if |q| == 1 then NULL else q[|q| - 2]) else tails[p]]
    ensures Levels(slots', heads', tails', queues[p := Without(queues[p], k)])
  {
    var q, queues' := queues[p], queues[p := Without(queues[p], k)];
    assert LevelOf(slots, heads, tails, queues, p);
    UnlinkedOnly(slots, slots', heads[p], tails[p], q, p, k);
    forall r | 0 <= r < |queues'| ensures LevelOf(slots', heads', tails', queues', r) {
      assert LevelOf(slots, heads, tails, queues, r);
      if r == p {
        UnlinkedList(slots, slots', heads[p], tails[p], q, p, k, heads'[p], tails'[p]);
      } else {
        OtherLevel(slots, slots', p, heads[r], tails[r], queues[r], r);
      }
    }
    forall c | 0 <= c < |slots'| ensures Queued(slots', queues', c) {
      assert Queued(slots, queues, c);
      if slots'[c].Block? && slots'[c].price == p {
        var i :| 0 <= i < |q| && q[i] == c;
        assert queues'[p][if i < k then i else i - 1] == c;
      }
    }
  }

  // ---- a block joins the book ----

  /** Block `b` was put at the end of the list. */
  ghost predicate Appended(slots: seq<Slot>, slots': seq<Slot>, queue: seq<int>, b: int) {
    && |slots'| == |slots| && 0 <= b < |slots|
    && slots'[b].Block? && slots'[b].next == NULL && slots'[b].prev == (if queue == [] then NULL else queue[|queue| - 1])
    && (forall c :: 0 <= c < |slots| && c != b && (queue == [] || c != queue[|queue| - 1]) ==> slots'[c] == slots[c])
    && (queue != [] && 0 <= queue[|queue| - 1] < |slots| && slots[queue[|queue| - 1]].Block? ==>
         slots'[queue[|queue| - 1]] == slots[queue[|queue| - 1]].(next := b))
  }

  lemma AppendList(slots: seq<Slot>, slots': seq<Slot>, head: int, tail: int, queue: seq<int>, price: int, b: int)
    requires LevelList(slots, head, tail, queue, price)
    requires Appended(slots, slots', queue, b) && slots'[b].price == price && slots[b].Free?
    requires forall c :: 0 <= c < |slots| && slots[c].Block? ==> slots[c].id < slots'[b].id
    ensures LevelList(slots', if queue == [] then b else head, b, queue + [b], price)
  {
    var q, n := queue + [b], |queue|;
    forall i | 0 <= i <= n ensures NodeAt(slots', q, price, i) {
      if i < n { assert NodeAt(slots, queue, price, i); }
      if 0 < n { assert NodeAt(slots, queue, price, n - 1); assert i < n - 1 ==> Older(slots, queue[i], queue[n - 1]); }
    }
    forall i, j | 0 <= i < j <= n ensures Older(slots', q[i], q[j]) {
      assert NodeAt(slots, queue, price, i) && NodeAt(slots, queue, price, n - 1);
      if j < n { assert Older(slots, queue[i], queue[j]) && NodeAt(slots, queue, price, j); }
    }
  }

  lemma AddLevels(slots: seq<Slot>, slots': seq<Slot>, heads: seq<int>, tails: seq<int>, heads': seq<int>, tails': seq<int>,
                  queues: seq<seq<int>>, p: int, b: int)
    requires Levels(slots, heads, tails, queues)
    requires 0 <= p < |queues|
    requires Appended(slots, slots', queues[p], b) && slots'[b].price == p && slots[b].Free?
    requires forall c :: 0 <= c < |slots| && slots[c].Block? ==> slots[c].id < slots'[b].id
    requires heads' == heads[p := if queues[p] == [] then b else heads[p]] && tails' == tails[p := b]
    ensures Levels(slots', heads', tails', queues[p := queues[p] + [b]])
  {
    var q, queues' := queues[p], queues[p := queues[p] + [b]];
    assert LevelOf(slots, heads, tails, queues, p);
    if q != [] { assert NodeAt(slots, q, p, |q| - 1); }
    forall r | 0 <= r < |queues'| ensures LevelOf(slots', heads', tails', queues', r) {
      assert LevelOf(slots, heads, tails, queues, r);
      if r == p {
        AppendList(slots, slots', heads[p], tails[p], q, p, b);
      } else {
        UntouchedLevel(slots, slots', p, b, heads[r], tails[r], queues[r], r);
      }
    }
    forall c | 0 <= c < |slots'| ensures Queued(slots', queues', c) {
      assert Queued(slots, queues, c);
      if c == b {
        assert queues'[p][|q|] == b;
      } else if slots'[c].Block? && slots'[c].price == p {
        var i :| 0 <= i < |q| && q[i] == c;
        assert queues'[p][i] == c;
      }
    }
  }

  lemma UntouchedLevel(slots: seq<Slot>, slots': seq<Slot>, price: int, b: int, head: int, tail: int, queue: seq<int>, p: int)
    requires |slots| == |slots'| && p != price && 0 <= b < |slots| && slots[b].Free?
    requires forall c :: 0 <= c < |slots| && c != b && slots'[c] != slots[c] ==> slots[c].Block? && slots[c].price == price
    requires LevelList(slots, head, tail, queue, p)
    ensures LevelList(slots', head, tail, queue, p)
  {
    forall i | 0 <= i < |queue| ensures NodeAt(slots', queue, p, i) {
      assert NodeAt(slots, queue, p, i);
    }
    forall i, j | 0 <= i < j < |queue| ensures Older(slots', queue[i], queue[j]) {
      assert Older(slots, queue[i], queue[j]) && NodeAt(slots, queue, p, i) && NodeAt(slots, queue, p, j);
    }
  }

  // ---- the pool ----

  /** Slots other than `b` stay free or in use. */
  ghost predicate SameUse(slots: seq<Slot>, slots': seq<Slot>, b: int) {
    && |slots| == |slots'|
    && forall c :: 0 <= c < |slots| && c != b ==> (slots'[c].Free? <==> slots[c].Free?) && (slots[c].Free? ==> slots'[c] == slots[c])
  }

  lemma PushFree(slots: seq<Slot>, slots': seq<Slot>, freeHead: int, list: seq<int>, b: int)
    requires FreeList(slots, freeHead, list) && SameUse(slots, slots', b)
    requires 0 <= b < |slots| && slots[b].Block? && slots'[b] == Free(freeHead)
    ensures FreeList(slots', b, [b] + list)
  {
    var g := [b] + list;
    assert g[0] == b;
    forall i | 0 <= i < |g| ensures FreeAt(slots', g, i) {
      if i > 0 { assert g[i] == list[i - 1] && FreeAt(slots, list, i - 1); }
    }
    forall i, j | 0 <= i < j < |g| ensures g[i] != g[j] {
      assert g[j] == list[j - 1] && FreeAt(slots, list, j - 1);
      if i > 0 { assert g[i] == list[i - 1]; }
    }
    forall c {:trigger c in g} | 0 <= c < |slots'| && slots'[c].Free? ensures c in g {
      if c != b { assert c in list; }
    }
  }

  lemma PopFree(slots: seq<Slot>, slots': seq<Slot>, freeHead: int, list: seq<int>)
    requires FreeList(slots, freeHead, list) && list != [] && SameUse(slots, slots', freeHead)
    requires 0 <= freeHead < |slots| && slots'[freeHead].Block?
    ensures slots[freeHead].Free? && FreeList(slots', slots[freeHead].nextFree, list[1..])
  {
    var g := list[1..];
    assert FreeAt(slots, list, 0);
    forall i | 0 <= i < |g| ensures FreeAt(slots', g, i) {
      assert FreeAt(slots, list, i + 1);
    }
    forall c {:trigger c in g} | 0 <= c < |slots'| && slots'[c].Free? ensures c in g {
      assert c in list;
      var i :| 0 <= i < |list| && list[i] == c;
      assert g[i - 1] == c;
    }
  }

  // ---- a fresh pool ----

  lemma FreshPool(slots: seq<Slot>, list: seq<int>)
    requires |slots| == |list| > 0
    requires forall i :: 0 <= i < |slots| ==> list[i] == i && slots[i] == Free(if i == |slots| - 1 then NULL else i + 1)
    ensures FreeList(slots, 0, list)
  {
    forall i | 0 <= i < |list| ensures FreeAt(slots, list, i) {
    }
    forall b {:trigger b in list} | 0 <= b < |slots| && slots[b].Free? ensures b in list {
      assert list[b] == b;
    }
  }

  lemma FreshLevels(slots: seq<Slot>, heads: seq<int>, tails: seq<int>, queues: seq<seq<int>>)
    requires |heads| == |tails| == |queues|
    requires forall b :: 0 <= b < |slots| ==> slots[b].Free?
    requires forall p :: 0 <= p < |queues| ==> queues[p] == [] && heads[p] == NULL && tails[p] == NULL
    ensures Levels(slots, heads, tails, queues)
  {
    forall p | 0 <= p < |queues| ensures LevelOf(slots, heads, tails, queues, p) {
    }
  }
}
