# Allocators, matching engine, order books and queues, verified

A Dafny model of the parts of the repository where the logic is, with proofs that the code does what it is
for. Each part is a specification, the code against it, and theorems about whole runs.

## The parts

**Coalescing heap allocators** (`1_mem_allocator/list_explicit_free`, `implicit_free_list_coalasce`). One array of
8-byte words holds headers, footers, payloads and, in the explicit allocator, the links of the ring of free blocks.
`BlockHeap` has the abstract heap, `BoundaryTags` and `FreeRing` what is in memory, `ExplicitSpec` and `CoalescingHeap`
the specified calls, `ExplicitHeap.Allocator` and `CoalescingHeap.Allocator` the code; a client may write any word of a
payload in use at any time. `HeapTheorems` says what a request promises and compares the two, `HeapRuns` has whole runs
and freeing everything; `HeapAlignment` says which payloads are aligned, `EmptyRequests` what requests for zero bytes do.
Addresses are word numbers from `start_ptr`, sizes count words, the null address is -1; the links in memory are absolute
(`FreeRing.START`).

**Implicit allocators** (`implicit_free_list`, `implicit_free_list-improved`). `ImplicitHeap` keeps headers in front of
payloads, `SplitHeap` keeps them in a region of their own; `SlotSpec` says what both do, `SlotRuns` what their clients may
rely on, and `SlotAgreement` exactly when the two agree.

**Matching engine** (`4_order_book_proj/src`). `Exchange` says what price-time priority is, over a map of open orders;
`ExchangeLaws` and `ExchangeLedger` what follows from it: an uncrossed book, conservation of shares, match numbers;
`ExchangeContract` the answers in full, without saying how they come about.
`MatchingEngine.Engine` is the engine with its pool, levels, key map, counts and cached best prices, over the lemmas of
`EngineSlots` and `EngineBook`. `FlowMatcher.FlowGenerator` is the benchmark's own scan-everything matcher.
`EngineRefinement` proves that the two agree, exactly as long as the pool has room.

**Three order books** (`4_order_book_proj/data_structure_bench`). `OrderBooks` is the common contract over maps.
`SortedVector.SortedSide`, `SortedList.ListSide` and `TickOffset.TickSide` each keep one side, buying or selling, in
their own way; `BookClass.OrderBook` is the book over two sides of one kind. `BookAgreement` proves when the three agree,
`BookContract` what each operation does to every order and every share.
The source writes every operation of a side twice, and matching and market orders once for each book; here they are
written once.

**Queues and thread pool** (`mpmc.cpp`, `queues_impl.hpp`, `spsc_ring.cpp`, `spsc_linked.cpp`, `th_pool.cpp`). `MpmcQueue`,
`SequenceQueue`, `RingQueue`, `LinkedQueue` and `ThreadPool` are state machines in which every atomic operation and every
access to shared memory is one step of one thread, and a schedule is any sequence of steps. The modules named after
them with `Theorems` hold what is true under every schedule; `MpmcCalls` and `SequenceQueueCalls` follow whole calls, and
`ThreadPoolProgress` proves that all jobs get run.

`dafny verify dfyconfig.toml` checks everything.

## Where code and documentation disagree

- `implicit_free_list_coalasce/allocator.c:38-39` rounds requests to 16 bytes "so all headers and payloads stay 16-byte
  aligned", but header and footer take 24 bytes: `HeapAlignment.SecondMisaligned` is a run, `HeapAlignment.AlignedExactly`
  says which payloads are aligned. In the two implicit allocators without coalescing the same comment is right: see
  `SlotAgreement.RunAligned`.
- `4_order_book_proj/src/queues.hpp:6` and `:30` ask for a power of two only, so one cell is accepted, with which values
  are overwritten before they are dequeued: `SequenceQueueSize.OneCellLoses` is a schedule, `SequenceQueueSize.TwoCellsNeeded`
  the exact condition.
- `list_explicit_free/allocator.c:45` accepts a request for zero bytes, but freeing its payload writes links over tags
  of its own block and of the next one, or past the end of the arena, unless a neighbour is free:
  `EmptyRequests.EmptyRequestCorrupts` is a run, `EmptyRequests.FreeableExactly` and `TagsRightExactly` are the exact condition.
- `4_order_book_proj/README.md:60` says that the first order number is 1. The tick-offset book starts there; the sorted
  vector and the list count first and start at 2 (`BookClass.OrderBook.OfVectors`, `OfLists`, `OfTicks`).
- `4_order_book_proj/README.md:58-59` says that inserts at price 0 are rejected. Only the tick-offset book rejects them;
  `BookAgreement.BooksAgree` says exactly on which operations the books agree.

## Model

| member | source | states |
|---|---|---|
| Memory.Words | 1_mem_allocator/list_explicit_free/allocator.c:45 | a request in bytes becomes an even number of 8-byte words, at least as large and less than 16 bytes larger |
| ExplicitHeap.Allocator.constructor | 1_mem_allocator/list_explicit_free/allocator.c:7-22 | a fresh arena has no blocks, an empty ring and a valid representation |
| ExplicitHeap.Allocator.Reset | 1_mem_allocator/list_explicit_free/allocator.c:24-30 | the arena is empty again and valid, whatever was in it |
| ExplicitHeap.Allocator.ClientWrite | 1_mem_allocator/list_explicit_free/allocator.c:97-110 | whatever a client writes to any word of a payload in use, tags, ring and blocks stay as they were |
| ExplicitHeap.Allocator.Search | 1_mem_allocator/list_explicit_free/allocator.c:46-57 | the do-while walk over the ring terminates, and ends at the first block of the ring that is large enough, if there is one |
| ExplicitHeap.Allocator.SplitOff | 1_mem_allocator/list_explicit_free/allocator.c:65-88 | the rest of a split block takes the place of the old node in the ring, and its tags are written where a walk finds them |
| ExplicitHeap.Allocator.Take | 1_mem_allocator/list_explicit_free/allocator.c:59-98 | the block found is split or handed out whole, and the head of the ring moves on exactly if it was the block taken |
| ExplicitHeap.Allocator.Malloc | 1_mem_allocator/list_explicit_free/allocator.c:44-111 | for a request of any size, zero included, arena, ring and result are those of the specified request, validity is kept, and no word of any other payload in use changes |
| ExplicitHeap.Allocator.AbsorbRight | 1_mem_allocator/list_explicit_free/allocator.c:125-139 | a free right neighbour leaves the ring and adds its size and three words, and only then |
| ExplicitHeap.Allocator.AbsorbLeft | 1_mem_allocator/list_explicit_free/allocator.c:141-159 | a free left neighbour, found through its footer, leaves the ring and absorbs the block, and only then |
| ExplicitHeap.Allocator.PushNode | 1_mem_allocator/list_explicit_free/allocator.c:166-177 | the merged block becomes the head of the ring, linked in both directions |
| ExplicitHeap.Allocator.Free | 1_mem_allocator/list_explicit_free/allocator.c:113-179 | blocks, ring and result are those of the specified free with two-sided merging, validity is kept, and no word of any payload still in use changes |
| ExplicitSpec.FirstFitIs | 1_mem_allocator/list_explicit_free/allocator.c:46-57 | the node the search stops at fits, and every node before it is too small |
| ExplicitSpec.MallocKeeps | 1_mem_allocator/list_explicit_free/allocator.c:44-111 | every request keeps the invariant: blocks tile the arena up to last_ptr, no two free neighbours, the ring has every free block exactly once and nothing else, and free blocks have room for two links |
| ExplicitSpec.FreeKeeps | 1_mem_allocator/list_explicit_free/allocator.c:113-179 | of all frees of current blocks, exactly those that leave the merged block room for two links keep the same invariant, through merging on both sides |
| CoalescingHeap.Allocator.constructor | 1_mem_allocator/implicit_free_list_coalasce/allocator.c:10-24 | a fresh arena has no blocks and is valid |
| CoalescingHeap.Allocator.Reset | 1_mem_allocator/implicit_free_list_coalasce/allocator.c:142-147 | the arena is empty again and valid, whatever was in it |
| CoalescingHeap.Allocator.ClientWrite | 1_mem_allocator/implicit_free_list_coalasce/allocator.c:68-100 | whatever a client writes to any word of a payload in use, the tags of all blocks stay as they were |
| CoalescingHeap.Allocator.Search | 1_mem_allocator/implicit_free_list_coalasce/allocator.c:45-57 | the walk over the headers ends at the lowest free block that fits, or at last_ptr if none does |
| CoalescingHeap.Allocator.Malloc | 1_mem_allocator/implicit_free_list_coalasce/allocator.c:37-102 | blocks and result are those of the specified request, validity is kept, and no word of any other payload in use changes |
| CoalescingHeap.Allocator.Merged | 1_mem_allocator/implicit_free_list_coalasce/allocator.c:119-134 | header and size after one look to each side are those of the whole run of free neighbours around the block |
| CoalescingHeap.Allocator.Free | 1_mem_allocator/implicit_free_list_coalasce/allocator.c:104-140 | blocks and result are those of the specified free with two-sided merging, validity is kept, and no word of any payload still in use changes |
| CoalescingHeap.MallocKeeps | 1_mem_allocator/implicit_free_list_coalasce/allocator.c:37-102 | a request keeps the tiling and leaves no two free neighbours |
| CoalescingHeap.FreeKeeps | 1_mem_allocator/implicit_free_list_coalasce/allocator.c:114-140 | a free keeps the tiling and leaves no two free neighbours: one check on each side is enough |
| BlockHeap.CarveKeeps | 1_mem_allocator/implicit_free_list_coalasce/allocator.c:72-101 | splitting or taking a free block keeps the heap well formed, makes exactly that block live, and changes no other live block |
| BlockHeap.BumpKeeps | 1_mem_allocator/implicit_free_list_coalasce/allocator.c:64-71 | a block appended at last_ptr keeps the heap well formed and changes no other block |
| BlockHeap.ReleaseKeeps | 1_mem_allocator/implicit_free_list_coalasce/allocator.c:114-139 | a block merged with its free neighbours keeps the blocks tiling the arena, no two free ones next to each other |
| BlockHeap.ReleaseLive | 1_mem_allocator/implicit_free_list_coalasce/allocator.c:114-139 | exactly that block leaves use, and all other blocks in use stay where they are, with their sizes |
| BlockHeap.Cover | 1_mem_allocator/implicit_free_list_coalasce/allocator.c:45-57 | every word below last_ptr lies in one block and in no other |
| HeapTheorems.ExplicitMalloc | 1_mem_allocator/list_explicit_free/allocator.c:44-111 | the payload granted lies in the arena and shares no word with any other live payload; it is that of the first block of the ring that is large enough, if one is, and otherwise a new last one; a block with at least five words too many is split, the rest less three words becoming a free block right behind, and no grant is more than four words too large; all other blocks stay; refusal exactly if no block fits and the tail is too short |
| HeapTheorems.CoalescingMalloc | 1_mem_allocator/implicit_free_list_coalasce/allocator.c:37-102 | the same for the walk in address order, which finds the lowest block that fits |
| HeapTheorems.RingFindsFit | 1_mem_allocator/list_explicit_free/allocator.c:47-59 | the ring search finds a block exactly if some free block of the heap is large enough |
| HeapTheorems.WalkFindsFit | 1_mem_allocator/implicit_free_list_coalasce/allocator.c:45-57 | the address-order walk meets a free block that is large enough if the heap has one |
| HeapTheorems.SameRefusals | 1_mem_allocator/list_explicit_free/allocator.c:47-103 | on the same heap both coalescing allocators refuse the same requests, reuse a free block for the same ones, and grow alike |
| HeapAlignment.AlignedExactly | 1_mem_allocator/implicit_free_list_coalasce/allocator.c:38-40 | a payload is 16-byte aligned exactly if an even number of blocks of even size come before its block |
| HeapAlignment.EveryOther | 1_mem_allocator/implicit_free_list_coalasce/allocator.c:38-40 | with even sizes only, a payload is aligned exactly if an even number of blocks come before it |
| HeapAlignment.CoalescingAligned | 1_mem_allocator/implicit_free_list_coalasce/allocator.c:37-102 | the payload granted is that of the lowest fit, or the one at last_ptr if none fits, and is aligned exactly if an even number of blocks of even size lie below |
| HeapAlignment.ExplicitAligned | 1_mem_allocator/list_explicit_free/allocator.c:44-111 | the same for the first fit of the ring |
| HeapAlignment.SecondMisaligned | 1_mem_allocator/implicit_free_list_coalasce/allocator.c:38-40 | the comment's 16-byte alignment does not hold: after any first request the second payload of a fresh arena is misaligned |
| EmptyRequests.FreeableExactly | 1_mem_allocator/list_explicit_free/allocator.c:123-173 | a payload in use may be freed exactly if it has two words or a free neighbour to merge with |
| EmptyRequests.NonEmptyMayBeFreed | 1_mem_allocator/list_explicit_free/allocator.c:44-179 | as long as all requests are for at least one byte, every payload in use may be freed |
| EmptyRequests.TagsRightExactly | 1_mem_allocator/list_explicit_free/allocator.c:161-177 | once free has absorbed the neighbours of a block, its writes stay in the arena and leave all headers and footers right exactly if the payload is one that may be freed |
| EmptyRequests.LinksLandOnTags | 1_mem_allocator/list_explicit_free/allocator.c:166-173 | otherwise the links pushed overwrite the footer of the block with an address |
| EmptyRequests.EmptyRequestCorrupts | 1_mem_allocator/list_explicit_free/allocator.c:45 | the words of a fresh arena through a request for zero bytes, one for 16 and a free of the first: the header of the second block, in use with two words, then has the address of the first block for its size |
| HeapRuns.RunKeeps | 1_mem_allocator/list_explicit_free/allocator.c:24-179 | for both coalescing allocators, every heap that any sequence of requests, permitted frees and resets leads to satisfies the invariant |
| HeapRuns.RunGrants | 1_mem_allocator/list_explicit_free/allocator.c:44-111 | along any run of either allocator every request is answered as promised for one request, place, split and refusal included, with fewer than five words too many |
| HeapRuns.FreeReleases | 1_mem_allocator/implicit_free_list_coalasce/allocator.c:104-140 | a free answers 0 exactly if the address is the payload of a block in use, and then that block and no other leaves use; nothing else in use changes |
| HeapRuns.LivesUntilFreed | 1_mem_allocator/list_explicit_free/allocator.c:44-179 | along any run of either a payload keeps its place and size until it is freed or the arena is reset, and no request in between is answered with a word of it |
| HeapRuns.AllFree | 1_mem_allocator/implicit_free_list_coalasce/allocator.c:114-116 | with nothing in use, a heap without free neighbours is one single free block |
| HeapRuns.FreesAll | 1_mem_allocator/list_explicit_free/allocator.c:125-177 | in either allocator, freeing every payload in any order leaves one free block over the whole used part, and the next request it can hold gets the first payload address |
| ImplicitHeap.Allocator.Search | 1_mem_allocator/implicit_free_list/allocator.c:45-57 | the walk over the headers ends at the first free block that fits, or behind the last block |
| ImplicitHeap.Allocator.ClientWrite | 1_mem_allocator/implicit_free_list/allocator.c:70-75 | a client's write to a payload in use leaves every header as it was |
| ImplicitHeap.Allocator.AllocMalloc | 1_mem_allocator/implicit_free_list/allocator.c:37-77 | blocks and result are those of the specified first-fit request, and no payload in use changes |
| ImplicitHeap.Allocator.AllocFree | 1_mem_allocator/implicit_free_list/allocator.c:79-92 | the block whose payload is given is marked free, once; out of range nothing changes |
| SplitHeap.Allocator.Search | 1_mem_allocator/implicit_free_list-improved/allocator.c:51-61 | the scan of the entries ends at the first free block that fits, or behind the last entry |
| SplitHeap.Allocator.ClientWrite | 1_mem_allocator/implicit_free_list-improved/allocator.c:78-84 | a client's write to a payload in use leaves every entry and every back address as it was |
| SplitHeap.Allocator.AllocMalloc | 1_mem_allocator/implicit_free_list-improved/allocator.c:45-85 | blocks and result are those of the specified request with room for data and for headers, and no payload in use changes |
| SplitHeap.Allocator.AllocFree | 1_mem_allocator/implicit_free_list-improved/allocator.c:87-104 | for every address below the end of the region, counted in bytes, a block is freed exactly if the address is the payload of a block in use; at or behind the end nothing is freed |
| SlotSpec.StartsApart | 1_mem_allocator/implicit_free_list/allocator.c:64-71 | a payload ends before any later block starts |
| SlotRuns.Layout | 1_mem_allocator/implicit_free_list/allocator.c:64-71 | blocks follow each other, with two words in front of each payload |
| SlotRuns.MallocGrants | 1_mem_allocator/implicit_free_list/allocator.c:37-77 | in either allocator the payload granted is that of the first block not in use of at least the words requested, or of a new last block inside the region if there is none; refusal exactly if there is none and no room to append, for the data or for its three header words; nothing else changes |
| SlotRuns.FreeAnswers | 1_mem_allocator/implicit_free_list-improved/allocator.c:87-104 | a free answers 0 and marks that block alone exactly if the address is the payload of a block in use and in range, and otherwise answers 1 and changes nothing |
| SlotRuns.RunGrants | 1_mem_allocator/implicit_free_list-improved/allocator.c:45-85 | along any run of either allocator every request is answered as promised |
| SlotRuns.LivesUntilFreed | 1_mem_allocator/implicit_free_list/allocator.c:37-92 | along any run of either allocator a payload keeps its place and size until it is freed or the arena is reset, and no request in between is answered with a word of it |
| SlotSpec.FreeIs | 1_mem_allocator/implicit_free_list/allocator.c:79-92 | an address is the payload of at most one block, and freeing it marks that block |
| SlotAgreement.SameMalloc | 1_mem_allocator/implicit_free_list-improved/allocator.c:70-77 | on the same blocks the two allocators answer a request alike exactly if a block that would be appended also finds room for its separate header |
| SlotAgreement.EmptyRequestsDiffer | 1_mem_allocator/implicit_free_list-improved/allocator.c:74-77 | with requests for zero bytes it may not: the whole runs of both allocators on three such requests, the third of which only the plain one grants |
| SlotAgreement.EmptyFreesDiffer | 1_mem_allocator/implicit_free_list-improved/allocator.c:90-92 | nor are frees alike then: in any region with room for one entry, the runs of both on a request for zero bytes and a free of the payload, which only the one with separate headers frees |
| SlotAgreement.NothingBeyond | 1_mem_allocator/implicit_free_list/allocator.c:80-83 | from last_ptr on, the only payload in use there can be is that of an empty last block |
| SlotAgreement.SameFree | 1_mem_allocator/implicit_free_list-improved/allocator.c:90-103 | the plain range check up to last_ptr and the other one up to the last byte of the region answer alike exactly unless the address is that payload and starts before the region ends |
| SlotAgreement.LastBytesCount | 1_mem_allocator/implicit_free_list-improved/allocator.c:90-92 | an empty block behind 192 bytes is freed by the one with separate headers, and not by the plain one, exactly if the region is longer than 192 bytes, by less than a word even |
| SlotAgreement.SameStep | 1_mem_allocator/implicit_free_list-improved/allocator.c:45-111 | on the same blocks, in regions of any number of bytes, the two allocators answer a call alike and leave the same blocks exactly if no appended block lacks room for its separate header and no address freed is, inside the region, the payload of an empty last block |
| SlotAgreement.PayloadsAligned | 1_mem_allocator/implicit_free_list/allocator.c:38-40 | while all sizes are even every payload is 16-byte aligned |
| SlotAgreement.RunAligned | 1_mem_allocator/implicit_free_list/allocator.c:38-40 | on every run of either allocator, zero-byte requests included, every payload handed out is 16-byte aligned |
| SlotAgreement.RunsAgree | 1_mem_allocator/implicit_free_list-improved/allocator.c:45-111 | along any run that frees only payloads or addresses out of range, both allocators give the same addresses, failures, free results and blocks exactly as long as the same holds of every call |
| SlotAgreement.NonEmptyRunsAgree | 1_mem_allocator/implicit_free_list-improved/allocator.c:45-111 | so they agree on every run with requests of at least one byte: the header region never fills before the data region |
| Exchange.BestIsUnique | 4_order_book_proj/benchmark/engine_flow_generator.hpp:53-83 | at most one open order is the one that a request meets first |
| FlowMatcher.FlowGenerator.BestIndex | 4_order_book_proj/benchmark/engine_flow_generator.hpp:54-83 | the scan of all open orders ends at the best-priced, then oldest order that crosses, if any order crosses |
| FlowMatcher.FlowGenerator.FillAt | 4_order_book_proj/benchmark/engine_flow_generator.hpp:88-96 | the order loses exactly the shares filled; swap-and-pop removes that order and no other |
| FlowMatcher.FlowGenerator.MatchIncoming | 4_order_book_proj/benchmark/engine_flow_generator.hpp:50-97 | the loop terminates with the book, the fills and the rest of the matching by price and time |
| FlowMatcher.FlowGenerator.ApplyEnter | 4_order_book_proj/benchmark/engine_flow_generator.hpp:50-103 | the vector holds exactly the open orders of the exchange after the request |
| FlowMatcher.FlowGenerator.EnterOrder | 4_order_book_proj/benchmark/engine_flow_generator.hpp:105-136 | state and fills are those of the exchange with unlimited room |
| FlowMatcher.FlowGenerator.CancelOrder | 4_order_book_proj/benchmark/engine_flow_generator.hpp:138-153 | the order drawn is resting under the account and number returned, and leaves the book |
| ExchangeLaws.BestExists | 4_order_book_proj/benchmark/engine_flow_generator.hpp:53-86 | whenever some open order crosses, one of them is best |
| ExchangeLaws.MatchLeaves | 4_order_book_proj/src/engine.hpp:208-233 | matching only takes shares away, ends with nothing that crosses if some of the request is left, and removes an order if it fills something and is not finished |
| ExchangeLaws.EnterKeeps | 4_order_book_proj/src/engine.hpp:202-316 | after every request the book is legal, uncrossed, within capacity, and has each account and reference number once |
| ExchangeLaws.CancelKeeps | 4_order_book_proj/src/engine.hpp:318-373 | after every cancel too |
| ExchangeLaws.FullBook | 4_order_book_proj/src/engine.hpp:239-243 | reason Z is sent exactly if the book is full and nothing crosses the request, and then for the full quantity with no fill and an unchanged book |
| ExchangeContract.EnterAnswers | 4_order_book_proj/src/engine.hpp:189-316 | the whole answer to a request, without saying how it is matched: it trades with the crossing orders best first, each filled before the next; both sides of each fill are told the quantity, the price of the resting order and the next match number; makers lose what they traded and no other order changes; the rest stays exactly if it is no market order and there is room, and is otherwise cancelled with I or Z |
| ExchangeContract.CancelAnswers | 4_order_book_proj/src/engine.hpp:318-373 | the whole answer to a cancel: an open order with more shares keeps the given number of them, and the difference is reported and returned; otherwise it is rejected and nothing changes |
| ExchangeLedger.MatchConserves | 4_order_book_proj/src/engine.hpp:208-233 | what a request loses in fills is what its makers lose, order by order |
| ExchangeLedger.EnterBalances | 4_order_book_proj/src/engine.hpp:202-316 | for every account and reference number, shares entered equal shares traded, cancelled and newly open in one request |
| ExchangeLedger.CancelBalances | 4_order_book_proj/src/engine.hpp:318-373 | the same for one cancel |
| ExchangeLedger.RespondNumbered | 4_order_book_proj/src/engine.hpp:101-107 | the executions of one answer are numbered without gap from the last match number, each number on an adjacent R and A report of equal quantity and price |
| ExchangeLedger.ReportedTwice | 4_order_book_proj/src/engine.hpp:101-107 | every match number is on exactly two messages, next to each other |
| ExchangeLedger.RunBalances | 4_order_book_proj/src/engine.hpp:145-150 | after any run: the book invariant, share conservation for every account and reference number, and match numbers 1, 2, 3, ... without gaps |
| EngineSlots.KeyParts | 4_order_book_proj/src/engine.hpp:39-43 | account and reference number can be read back from the 64-bit key |
| EngineSlots.RemoveLevels | 4_order_book_proj/src/engine.hpp:161-175 | unlinking a block keeps all levels doubly linked, of one price, oldest first, with every block on the level of its price |
| EngineSlots.AddLevels | 4_order_book_proj/src/engine.hpp:177-187 | appending a block keeps the same |
| EngineSlots.PushFree | 4_order_book_proj/src/allocator.hpp:53-57 | a slot given back keeps the free list acyclic and complete |
| EngineSlots.PopFree | 4_order_book_proj/src/allocator.hpp:44-51 | a slot taken keeps the free list acyclic and complete |
| EngineBook.StandsAfterRemove | 4_order_book_proj/src/engine.hpp:217-225 | after a removal the free list, levels, key map and counts still stand for the book without the order, and pool and book still share out all slots |
| EngineBook.StandsAfterAdd | 4_order_book_proj/src/engine.hpp:239-254 | after an insertion they stand for the book with the order |
| EngineBook.MirrorsAddExactly | 4_order_book_proj/src/engine.hpp:239-254 | after an insertion the key map finds every block exactly if the key was not in it: inserting over a key loses the block it stood for |
| EngineBook.OfferHeadIsBest | 4_order_book_proj/src/engine.hpp:209-212 | the head of the level at the cached best offer is the order that a buy meets first |
| EngineBook.BidHeadIsBest | 4_order_book_proj/src/engine.hpp:267-271 | the head of the level at the cached best bid is the order that a sell meets first |
| EngineBook.KeyFinds | 4_order_book_proj/src/engine.hpp:322-330 | the key map finds a block exactly if the order rests, and it is that order's block |
| EngineBook.RemoveQuotes | 4_order_book_proj/src/engine.hpp:355-370 | removing an order can move the best price of its side only, and only if its level is now empty |
| MatchingEngine.Engine.constructor | 4_order_book_proj/src/allocator.hpp:19-35 | all slots are in the free list, the book is empty, and the engine is valid |
| MatchingEngine.Engine.ChainPool | 4_order_book_proj/src/allocator.hpp:28-34 | each slot is linked to the next one, the last to none |
| MatchingEngine.Engine.Allocate | 4_order_book_proj/src/allocator.hpp:44-51 | the first free slot, or none exactly if the free list is empty |
| MatchingEngine.Engine.Deallocate | 4_order_book_proj/src/allocator.hpp:53-57 | the slot becomes the head of the free list, and no other slot changes |
| MatchingEngine.Engine.Unlink | 4_order_book_proj/src/engine.hpp:161-175 | the neighbours of the block, or head and tail, are joined, and nothing else changes |
| MatchingEngine.Engine.Append | 4_order_book_proj/src/engine.hpp:177-187 | the block is behind the old tail, and nothing else changes |
| MatchingEngine.Engine.FillHead | 4_order_book_proj/src/engine.hpp:208-225 | one fill against the head: the book loses exactly the shares filled, and the two reports are sent |
| MatchingEngine.Engine.ScanUp | 4_order_book_proj/src/engine.hpp:226-231 | the count-bounded scan ends exactly at the best offer, or behind the last level if there is none |
| MatchingEngine.Engine.ScanDown | 4_order_book_proj/src/engine.hpp:285-290 | the count-bounded scan ends exactly at the best bid, or at 0 if there is none |
| MatchingEngine.Engine.MatchBuy | 4_order_book_proj/src/engine.hpp:207-233 | the loop terminates, having filled the request against best orders only, and stops with shares left only if no offer crosses |
| MatchingEngine.Engine.MatchSell | 4_order_book_proj/src/engine.hpp:264-292 | the same for sells, market orders included |
| MatchingEngine.Engine.Rest | 4_order_book_proj/src/engine.hpp:239-255 | what is left rests exactly if there is a free slot, and then as the youngest order of its price |
| MatchingEngine.Engine.InsertOrder | 4_order_book_proj/src/engine.hpp:189-316 | book, counters, messages and result are those of price-time matching with room for as many orders as slots, and every part of the representation is valid again |
| MatchingEngine.Engine.CancelOrder | 4_order_book_proj/src/engine.hpp:318-373 | book, messages and result are those of a cancel on the exchange, and every part of the representation is valid again |
| EngineRefinement.SameUnlessFull | 4_order_book_proj/src/engine.hpp:202-316 | for one request the engine's exchange and the unbounded one end alike exactly unless the pool is full and nothing crosses |
| EngineRefinement.WholeCancel | 4_order_book_proj/benchmark/engine_flow_generator.hpp:138-153 | a cancel to zero takes the whole order out of the book and nothing else |
| EngineRefinement.RunsAgree | 4_order_book_proj/benchmark/engine_flow_generator.hpp:50-153 | along any run the engine holds the open orders of the benchmark's matcher after every message exactly if no message found the pool full |
| EngineRefinement.SameFills | 4_order_book_proj/src/engine.hpp:202-316 | as long as that is so, the engine reports the matcher's fills, in the same order: message by message, to the requester and to the account and number of the maker, the quantity and the price of the resting order |
| EngineRefinement.SendEnter | 4_order_book_proj/benchmark/engine_flow_generator.hpp:105-136 | generator and engine objects agree after a new order exactly unless the pool was full and nothing crossed |
| EngineRefinement.SendCancel | 4_order_book_proj/benchmark/engine_flow_generator.hpp:138-153 | generator and engine objects agree after a drawn cancel |
| OrderBooks.MatchRound | 4_order_book_proj/data_structure_bench/sorted_vector_str.cpp:81-99 | a round of matching against the best bid and offer does not change what matching comes to |
| OrderBooks.MatchLeaves | 4_order_book_proj/data_structure_bench/sorted_vector_str.cpp:81-99 | matching leaves no best pair that crosses, and changes neither numbers nor prices |
| OrderBooks.WalkLeaves | 4_order_book_proj/data_structure_bench/sorted_vector_str.cpp:39-58 | a walk only takes shares and orders away from the side it is given, and returns the number of an order it met if it met any |
| Ranking.OneRanking | 4_order_book_proj/data_structure_bench/base.hpp:13-59 | the comparison operators admit only one order of a side |
| SortedVector.SortedSide.LowerBound | 4_order_book_proj/data_structure_bench/sorted_vector_str.cpp:5-9 | the insertion place of the sorted vector |
| SortedVector.SortedSide.Add | 4_order_book_proj/data_structure_bench/sorted_vector_str.cpp:5-19 | insertion keeps the vector sorted and adds exactly the order |
| SortedVector.SortedSide.FillHead | 4_order_book_proj/data_structure_bench/sorted_vector_str.cpp:81-97 | the order at the back is the best one; it loses the shares or is popped |
| SortedVector.SortedSide.Cancel | 4_order_book_proj/data_structure_bench/sorted_vector_str.cpp:21-37 | the order with the number is erased, if it is there, and no other |
| SortedList.ListSide.FindPlace | 4_order_book_proj/data_structure_bench/list_str.cpp:24-26 | the walk ends behind all better orders and in front of all others |
| SortedList.ListSide.Splice | 4_order_book_proj/data_structure_bench/list_str.cpp:28-43 | the new node is linked in both directions in front of the place found |
| SortedList.ListSide.Unlink | 4_order_book_proj/data_structure_bench/list_str.cpp:84-95 | the neighbours of the node, or head and tail, are joined |
| SortedList.ListSide.Add | 4_order_book_proj/data_structure_bench/list_str.cpp:18-47 | insertion keeps the list sorted and linked, the index exact, and adds exactly the order |
| SortedList.ListSide.FillHead | 4_order_book_proj/data_structure_bench/list_str.cpp:184-202 | the head is the best order; it loses the shares or is unlinked, dropped from the index and deleted |
| SortedList.ListSide.Cancel | 4_order_book_proj/data_structure_bench/list_str.cpp:110-130 | the indexed order is unlinked and deleted, and no other; no block leaks |
| TickLevels.HeadIsBest | 4_order_book_proj/data_structure_bench/tick_offset_str.cpp:191-197 | the head of the list at the cached index is the best order, and the index is at its sentinel exactly if the side is empty |
| TickLevels.StandsAdded | 4_order_book_proj/data_structure_bench/tick_offset_str.cpp:22-48 | appending an order keeps lists, key map and levels standing for the side |
| TickLevels.StandsRemoved | 4_order_book_proj/data_structure_bench/tick_offset_str.cpp:75-98 | removing an order keeps them standing for the side |
| TickOffset.TickSide.Add | 4_order_book_proj/data_structure_bench/tick_offset_str.cpp:22-48 | the order joins the end of its level, and the best index is the best level again |
| TickOffset.TickSide.Scan | 4_order_book_proj/data_structure_bench/tick_offset_str.cpp:94-96 | the scan ends at the best level with a list, or at the sentinel |
| TickOffset.TickSide.FillHead | 4_order_book_proj/data_structure_bench/tick_offset_str.cpp:195-219 | the best order loses the shares, or leaves its level, which goes away if it was the last |
| TickOffset.TickSide.Cancel | 4_order_book_proj/data_structure_bench/tick_offset_str.cpp:75-122 | the order with the number leaves its level, the level goes away if it was the last, and the best index is right again |
| BookClass.OrderBook.Match | 4_order_book_proj/data_structure_bench/sorted_vector_str.cpp:81-99 | the loop terminates, in all three books, with the sides that matching comes to |
| BookClass.OrderBook.InsertOrder | 4_order_book_proj/data_structure_bench/tick_offset_str.cpp:22-73 | state and result of an insertion, in all three books, are the specified ones, rejections included |
| BookClass.OrderBook.CancelOrder | 4_order_book_proj/data_structure_bench/list_str.cpp:110-130 | state and result of a cancel, in all three books, are the specified ones |
| BookClass.OrderBook.MarketOrder | 4_order_book_proj/data_structure_bench/tick_offset_str.cpp:123-189 | state and result of a market order, in all three books, are the specified ones, the fall-back insertion included |
| BookClass.OrderBook.TopOfBook | 4_order_book_proj/data_structure_bench/tick_offset_str.cpp:241-252 | the best orders of both sides, or orders of zeros |
| BookAgreement.MatchUncrosses | 4_order_book_proj/data_structure_bench/tick_offset_str.cpp:191-239 | however the sides crossed before, matching leaves every bid below every offer |
| BookAgreement.MatchConserves | 4_order_book_proj/data_structure_bench/list_str.cpp:184-206 | matching takes the same number of shares from both sides |
| BookAgreement.BooksAgree | 4_order_book_proj/data_structure_bench/tick_offset_str.cpp:22-189 | sorted and tick-offset books agree on an operation, with numbers one lower, exactly if a limit price has a level and a market order meets somebody |
| BookAgreement.RunsAgree | 4_order_book_proj/data_structure_bench/tick_offset_str.cpp:22-189 | along any run they hold the same orders after every operation exactly if all operations were such, and then answer alike |
| BookContract.InsertAnswers | 4_order_book_proj/data_structure_bench/tick_offset_str.cpp:22-73 | the whole effect of an insertion: a price without a level is rejected; otherwise the order gets the next number, takes shares of the orders that it reaches, best first and no more than it has, and what is left of it rests at its price; its own side does not change otherwise |
| BookContract.InsertConserves | 4_order_book_proj/data_structure_bench/sorted_vector_str.cpp:5-19 | whatever the books, its side gains the shares inserted less those that the other side loses; an order that reaches nobody rests as it is, and nothing else changes |
| BookContract.CancelAnswers | 4_order_book_proj/data_structure_bench/list_str.cpp:110-130 | exactly the order with the number leaves its side and its number is returned, or nothing changes and 0 is |
| BookContract.MarketAnswers | 4_order_book_proj/data_structure_bench/tick_offset_str.cpp:123-189 | a market order takes shares of the other side, best order first, until it is filled or that side is empty, and returns the last order that it met; if it meets nobody it is inserted at the extreme price of the book |
| BookContract.RunSteady | 4_order_book_proj/data_structure_bench/tick_offset_str.cpp:22-189 | after any operation of any run nothing crosses and numbers are positive and old, so that these laws hold for every operation |
| BookContract.RunConserves | 4_order_book_proj/data_structure_bench/tick_offset_str.cpp:22-239 | after any run of any of the three books, the shares brought to a side are those resting on it, those cancelled or taken by market orders, and those traded, as many on one side as on the other |
| BookContract.TopAnswers | 4_order_book_proj/data_structure_bench/tick_offset_str.cpp:241-252 | the order shown has the best price and, at that price, the lowest number of its side; an empty side shows zeros |
| BookAgreement.SameTop | 4_order_book_proj/data_structure_bench/tick_offset_str.cpp:241-252 | books that agree show the same top |
| BookAgreement.ListIsReversedVector | 4_order_book_proj/data_structure_bench/list_str.cpp:18-49 | with the same orders, the list read from its head is the vector read from its back |
| MpmcQueue.StepKeeps | 2_cpp_basics/3_lock_free/2_mpmc_queue/mpmc.cpp:46-99 | every atomic step of every thread keeps the invariant on tickets, cells and threads |
| MpmcQueue.EveryRun | 2_cpp_basics/3_lock_free/2_mpmc_queue/mpmc.cpp:33-99 | it holds in every state that any schedule of any number of threads leads to |
| MpmcTheorems.Delivery | 2_cpp_basics/3_lock_free/2_mpmc_queue/mpmc.cpp:46-99 | the consumer of a ticket has read what its producer wrote, and producers are between zero and one lap ahead |
| MpmcTheorems.Exclusive | 2_cpp_basics/3_lock_free/2_mpmc_queue/mpmc.cpp:67-71 | no two threads between claim and release, on either side, have one ticket or work on one cell |
| MpmcTheorems.EnqueueRefuses | 2_cpp_basics/3_lock_free/2_mpmc_queue/mpmc.cpp:50-65 | enqueue returns false exactly if, at its sequence load, its ticket is the next one and the ticket one lap before is not released |
| MpmcTheorems.DequeueRefuses | 2_cpp_basics/3_lock_free/2_mpmc_queue/mpmc.cpp:77-92 | dequeue returns false exactly if, at its sequence load, its ticket is the next one and not yet published |
| MpmcCalls.RefusedOnlyThen | 2_cpp_basics/3_lock_free/2_mpmc_queue/mpmc.cpp:50-92 | no step of a call but the load of the sequence answers false, and that only for the next ticket, while the queue is full, empty, or its cell still in the hands of another thread |
| MpmcCalls.EnqueueCall | 2_cpp_basics/3_lock_free/2_mpmc_queue/mpmc.cpp:46-72 | under every schedule, a call of enqueue that has returned true has enqueued its value once, and one that has returned false nothing |
| MpmcCalls.DequeueCall | 2_cpp_basics/3_lock_free/2_mpmc_queue/mpmc.cpp:74-99 | a call of dequeue that has returned true has taken one ticket and read the value enqueued under it, and one that has returned false has taken none |
| MpmcCalls.EnqueueAlone | 2_cpp_basics/3_lock_free/2_mpmc_queue/mpmc.cpp:46-72 | wherever an enqueue is that has no ticket, if there is room and the thread runs alone it returns true after at most six steps, with its value under the next ticket |
| MpmcCalls.DequeueAlone | 2_cpp_basics/3_lock_free/2_mpmc_queue/mpmc.cpp:74-99 | the same for a dequeue when the next ticket is published |
| MpmcTheorems.AtRest | 2_cpp_basics/3_lock_free/2_mpmc_queue/mpmc.cpp:46-99 | between calls the values dequeued and the values in the cells, in ticket order, are the values enqueued: none lost, doubled or reordered |
| MpmcTheorems.Returns | 2_cpp_basics/3_lock_free/2_mpmc_queue/mpmc.cpp:67-71 | a successful enqueue has left its value under its own ticket; a successful dequeue returns the value under its own |
| ThreadPool.MoveKeepsWakeful | 2_cpp_basics/4_thread_pool/th_pool.cpp:74-105 | every step keeps the mutex exclusive and keeps every worker that relies on a queue it found empty about to be told of a job there |
| ThreadPool.MoveKeepsTidy | 2_cpp_basics/4_thread_pool/th_pool.cpp:27-37 | every step keeps each job in exactly one place |
| ThreadPool.EveryRun | 2_cpp_basics/4_thread_pool/th_pool.cpp:74-114 | both hold in every state that any schedule leads to |
| ThreadPoolTheorems.NoLostWakeup | 2_cpp_basics/4_thread_pool/th_pool.cpp:74-105 | a worker asleep while some queue has a job means that a caller has put a job there and has still to notify |
| ThreadPoolTheorems.EachJobOnce | 2_cpp_basics/4_thread_pool/th_pool.cpp:74-114 | every job drawn so far is with someone or has been run, never both, and none has been run twice |
| ThreadPoolTheorems.AtRestMeansDone | 2_cpp_basics/4_thread_pool/th_pool.cpp:89-105 | once no call is under way and all workers are asleep, every job has been run |
| ThreadPoolTheorems.QueuesAreFifo | 2_cpp_basics/4_thread_pool/th_pool.cpp:17-35 | after any schedule, the jobs put on a queue, job k on queue k modulo their number, are those taken from it, in the same order, followed by those still there |
| ThreadPoolTheorems.OwnQueueFirst | 2_cpp_basics/4_thread_pool/th_pool.cpp:87-92 | a worker takes the oldest job of its own queue if there is one, and otherwise asks all queues in turn |
| ThreadPoolTheorems.NeverStuck | 2_cpp_basics/4_thread_pool/th_pool.cpp:74-114 | as long as a job has not been run, some thread can go on without a spurious wakeup or a new call |
| ThreadPoolProgress.EveryStepWorks | 2_cpp_basics/4_thread_pool/th_pool.cpp:60-114 | every such step, whoever takes it, lessens a bounded effort, so that workers cannot search and scan forever |
| ThreadPoolProgress.EveryWayEnds | 2_cpp_basics/4_thread_pool/th_pool.cpp:60-114 | from every reachable state, whatever the order of such steps, they come to an end after boundedly many, and not before every job drawn has been run |
| ThreadPoolProgress.EveryJobGetsRun | 2_cpp_basics/4_thread_pool/th_pool.cpp:60-114 | every sequence of such steps can be continued by finitely many to one after which every job drawn has been run |
| SequenceQueue.EveryRun | 4_order_book_proj/src/queues_impl.hpp:5-87 | the invariant on tickets, cells and threads holds in every state that any schedule leads to, with many producers or a single one |
| SequenceQueueTheorems.InOrder | 4_order_book_proj/src/queues_impl.hpp:26-87 | the values dequeued are the values of the first tickets, in order, and no producer is more than one lap ahead |
| SequenceQueueTheorems.AtRest | 4_order_book_proj/src/queues_impl.hpp:26-87 | with no producer at work, the cells hold the values not yet dequeued, oldest first |
| SequenceQueueTheorems.Exclusive | 4_order_book_proj/src/queues_impl.hpp:46-49 | no two producers, and no producer and the consumer, work on one cell |
| SequenceQueueTheorems.WaitsForRoom | 4_order_book_proj/src/queues_impl.hpp:30-58 | a producer with the next ticket waits exactly as long as the ticket one lap before is not released |
| SequenceQueueTheorems.WaitsForValue | 4_order_book_proj/src/queues_impl.hpp:65-87 | the consumer waits exactly as long as its ticket is not claimed or still being written |
| SequenceQueueCalls.EnqueueCall | 4_order_book_proj/src/queues_impl.hpp:26-61 | under every schedule, a call of enqueue comes to its end only with its value enqueued, once |
| SequenceQueueCalls.DequeueCall | 4_order_book_proj/src/queues_impl.hpp:63-87 | a call of dequeue comes to its end only with the value of the next ticket dequeued |
| SequenceQueueCalls.EnqueueAlone | 4_order_book_proj/src/queues_impl.hpp:26-61 | wherever an enqueue is that has no ticket, if the queue is not full and the thread runs alone, the call ends after at most six steps with the value in the cell of the next ticket |
| SequenceQueueCalls.DequeueAlone | 4_order_book_proj/src/queues_impl.hpp:63-87 | a dequeue that runs alone ends after five steps if the next ticket is published |
| SequenceQueueSize.OneCellLoses | 4_order_book_proj/src/queues.hpp:6 | with one cell, which the assertion accepts, there is a schedule under which the first value enqueued is overwritten before it is dequeued |
| SequenceQueueSize.TwoCellsNeeded | 4_order_book_proj/src/queues.hpp:30 | values are delivered in order and without loss under every schedule exactly if there are at least two cells, for a single producer and for many |
| RingQueue.EveryRun | 2_cpp_basics/3_lock_free/1_spsc_queue/spsc_ring.cpp:14-46 | the invariant on indices and slots holds in every state that any schedule leads to |
| RingQueueTheorems.Fifo | 2_cpp_basics/3_lock_free/1_spsc_queue/spsc_ring.cpp:19-46 | the values dequeued are the first values enqueued, in order; the ring holds the others, at most one less than its slots |
| RingQueueTheorems.EnqueueRefuses | 2_cpp_basics/3_lock_free/1_spsc_queue/spsc_ring.cpp:25-27 | enqueue returns false exactly if the ring holds as much as it can when it loads the head |
| RingQueueTheorems.DequeueRefuses | 2_cpp_basics/3_lock_free/1_spsc_queue/spsc_ring.cpp:38-40 | dequeue finds nothing exactly if everything enqueued has been dequeued when it loads the tail |
| RingQueueTheorems.RefusedOnlyThen | 2_cpp_basics/3_lock_free/1_spsc_queue/spsc_ring.cpp:19-46 | no other step of a call answers that it failed |
| RingQueueTheorems.EnqueueCall | 2_cpp_basics/3_lock_free/1_spsc_queue/spsc_ring.cpp:19-31 | whatever the consumer does, an enqueue ends after five steps at most, with its value enqueued if it returns true and nothing if it returns false |
| RingQueueTheorems.DequeueCall | 2_cpp_basics/3_lock_free/1_spsc_queue/spsc_ring.cpp:33-46 | whatever the producer does, a dequeue ends after five steps at most, with the oldest value dequeued if it finds one and nothing otherwise |
| LinkedQueue.StepKeeps | 2_cpp_basics/3_lock_free/1_spsc_queue/spsc_linked.cpp:31-60 | every access of producer or consumer keeps the invariant on the chain of nodes |
| LinkedQueue.EveryRun | 2_cpp_basics/3_lock_free/1_spsc_queue/spsc_linked.cpp:21-60 | it holds in every state that any schedule leads to |
| LinkedQueueTheorems.NoUseAfterDelete | 2_cpp_basics/3_lock_free/1_spsc_queue/spsc_linked.cpp:31-60 | no step touches a node that is not allocated, even if addresses are reused, and no node leaks |
| LinkedQueueTheorems.Fifo | 2_cpp_basics/3_lock_free/1_spsc_queue/spsc_linked.cpp:31-60 | the values dequeued are the first values enqueued, in order, and the chain holds the others |
| LinkedQueueTheorems.EmptyMeansEmpty | 2_cpp_basics/3_lock_free/1_spsc_queue/spsc_linked.cpp:34-38 | dequeue finds nothing exactly if everything enqueued has been dequeued |
| LinkedQueueTheorems.EmptyOnlyThen | 2_cpp_basics/3_lock_free/1_spsc_queue/spsc_linked.cpp:34-38 | no other step of a dequeue answers that there is nothing |
| LinkedQueueTheorems.EveryStepCounts | 2_cpp_basics/3_lock_free/1_spsc_queue/spsc_linked.cpp:31-60 | every step of a call brings it nearer to its end, whatever the other side has done |
| LinkedQueueTheorems.EnqueueCall | 2_cpp_basics/3_lock_free/1_spsc_queue/spsc_linked.cpp:21-60 | whatever the consumer does, an enqueue comes to its end only with its value enqueued |
| LinkedQueueTheorems.DequeueCall | 2_cpp_basics/3_lock_free/1_spsc_queue/spsc_linked.cpp:31-60 | whatever the producer does, a dequeue returns the oldest value and has dequeued that, or returns nothing and has dequeued nothing |

## Left out

- ExplicitHeap.Allocator.Free: needs an address out of range or the payload of a current block, because a header absorbed by a merge stays in memory and a stale address in front of it would be taken at its word; CoalescingHeap.Allocator.Free and ImplicitHeap.Allocator.AllocFree alike. A payload without words and without free neighbours is left out too, since freeing it corrupts the arena (EmptyRequests.LinksLandOnTags).
- HeapRuns.FreesAll: needs, in the explicit allocator, payloads in use of at least two words for the same reason, which requests of at least one byte give (EmptyRequests.NonEmptyMayBeFreed).
- ExplicitHeap.Allocator.constructor: the first word, which it clears, is part of the model only if the arena has 8 bytes. One allocator at a time, since the head of the ring is a static variable of the source.
- MatchingEngine.Engine.InsertOrder: needs a limit price with a level or the market price, as `4_order_book_proj/README.md:150-153` asks of what is upstream, and, as a condition of this model alone, an account and reference number that is not resting: the source inserts over the old key, which then finds one of the two orders only (EngineBook.MirrorsAddExactly). Sides are buy and sell only.
- MpmcQueue.EveryRun: needs a size of at least 2; the source asserts a power of two above 2, which makes its bit mask a remainder. Steps are interleaved and sequentially consistent, here and in the other queues; weaker orders of memory are not modelled.
- SequenceQueue.EveryRun: needs a size of at least 2, because with one cell the queues lose values (SequenceQueueSize.OneCellLoses), and takes the bit mask as a remainder; SequenceQueueTheorems.InOrder, AtRest, Exclusive, WaitsForRoom and WaitsForValue alike.
- SlotAgreement.RunsAgree: the plain allocator trusts its callers to free payloads or addresses out of range, so its runs do.
- SplitHeap.Allocator.AllocFree: addresses are word numbers, so an address or a back address that is not a multiple of 8 bytes is not modelled.
- ThreadPool.EveryRun: shutdown through stop tokens, promises and exceptions of jobs are not modelled, and a job that runs comes to an end.
- LinkedQueue.EveryRun: the destructor is not modelled.
- BookClass.OrderBook.Match: blocks get fresh addresses, a deleted block is never reused, and the destructors are not modelled.
- 64-bit wrap-around of tickets, order numbers and rounded sizes: numbers are unbounded. Quantities are 32 bits wide.
- `mmap`, failing initialisation, de-initialisation, clocks, time stamps and the random draws of the benchmark: fresh arenas and arguments instead.
- The OUCH messages as bytes, the sockets and the threads around the engine: the engine takes decoded requests and appends to a sequence of messages.
- Bump allocator, lock-based queue and stacks, counters, and the performance studies: little state and easy properties.
