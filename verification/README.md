# FlowLab: a verified model of its order books, transports and gates

This project models the stateful core of FlowLab in Dafny and proves what its documentation and tests promise. Verify it with
`dafny verify dfyconfig.toml`.

**Order books.** `Ladder` treats one side of the array book as a strictly sorted sequence of levels and shows that each
array operation (binary search, insert, draw down, remove) is an operation on a price-to-level map. `Slab.dfy`
(`OrderStore`) does the same for the slab allocator behind the order index. `HalfBook.dfy` (`LevelArrays`), `HotBook`,
`CppBook` and `ReferenceBook` hold the three books as classes that mutate arrays, maps and slabs in place; their methods
are proved equal to functions on the state (`ArrayBook`, `HotBook.HotApply`, `BookView.RefApply`). On those functions
`Conservation` and `Surplus` relate levels to live orders, `Agreement` compares hot and reference books, `Lanes` and
`LaneModifies` the lane-batched apply, `CanonicalHash` the L2 hash, `Bounds` the size of totals, `BookSnapshot`,
`AcceptedImage`, `ImageLayout` and `SnapshotFile` the snapshot formats and resume. `EventMeaning` says in plain numbers what each
event does, `SlotReuse` how the slab recycles, `LaneOrder` which serial run a lane batch is, `HashTranscript` what is hashed.

**Transport.** `Wal` and `WalProtocol` model the segmented log over arbitrary runs of appends, syncs, rotations, power
losses, kills and reopenings, `WalSegments` its division into segments, and `EventLog` the batches of events in it; `Ring`
models the single-producer ring as interleaved writer and reader steps and `RingBuffer` the mapped buffer itself; `Mold` and `GapTracker.dfy` (`GapTracking`)
the MoldUDP64 frames and the resequencer; `Itch`, `ItchStream` and `FileReplay` the ITCH decoder, the stream parser and the
capture replay. `Pipeline` composes them with the books.

**Gates and caches.** `FlashCrash` models the detector's cached best prices and band depth over every run of `process`, and
`DetectorShadow` compares its mini book with the reference order book; `Breaker` models the circuit breaker as the steps each
call takes between its locks, `BreakerRuns` every interleaving of them, `BreakerLimits` the position cap over sequential
sessions, `BreakerAnswers` what a check answers and how long the loss floor lasts; `Clustering` and `Episodes` the episode
clusterer.

Two shapes recur. Byte codecs, framings and message protocols are passed as function values where a result does not depend
on their layout, and instantiated once (`Crc32Framing`, `BOOK_FORMAT`, `ITCH`). Ordered maps are Dafny maps; an in-order
walk is a loop that repeatedly takes the least key.

## Model

| member | source | states |
|---|---|---|
| Ladder.RankIsPartition | hotpath/src/orderbook.cpp:30-47 | On a sorted side the number of better levels is the partition point: everything before it is better than the price, nothing from it on is |
| Ladder.PartitionIsRank | hotpath/src/orderbook.cpp:30-47 | Converse: any index that splits a sorted side that way is that number, so every correct binary search finds the same slot |
| Ladder.FindIsLookup | core/src/hot_book.rs:573-584 | Searching a sorted side succeeds exactly when the price is in the price map, and lands on its level |
| Ladder.InsertRefines | core/src/hot_book.rs:545-568 | Opening a slot at the partition point keeps the side sorted and adds exactly that binding to the price map |
| Ladder.ReplaceRefines | core/src/hot_book.rs:749-760 | Updating or removing one slot keeps the side sorted and changes exactly that binding |
| Ladder.AddLevelRefines | core/src/hot_book.rs:515-568 | An add merges into an existing level, opens one, or is refused exactly when the side is full and the price is new; sortedness and depth limit are kept |
| Ladder.DeductRefines | core/src/hot_book.rs:607-722 | Drawing on a level by price equals the map update, including when the level disappears, and reports whether it was found |
| Ladder.DeductAnonRefines | core/src/hot_book.rs:727-747 | Same for trades without an order id, which take a count only when they empty the level |
| Ladder.HeadIsBest | core/src/hot_book.rs:332-348 | Slot 0 is the best price of the price map |
| Ladder.ListingIsUnique | core/src/hot_book.rs:487-505 | Two sorted sides with the same price map are the same sequence: best-first order is canonical |
| Ladder.SortedIff | core/src/hot_book.rs:66-66 | Comparing neighbouring levels is enough for a side to be sorted |
| OrderStore.InsertRefines | core/src/hot_book.rs:131-150 | Insert binds the id (old binding replaced) and keeps slots injective, in range, and disjoint from a duplicate-free free list |
| OrderStore.RemoveRefines | core/src/hot_book.rs:171-177 | Remove unbinds exactly the id, recycles its slot and keeps the same shape |
| OrderStore.SetQtyRefines | core/src/hot_book.rs:152-159 | Writing through get_mut changes the residual of that id alone |
| OrderStore.SlotsPartition | core/src/hot_book.rs:114-177 | Live slots and free slots partition 0..data.len: every slot is in exactly one of the two |
| OrderStore.WellFormedIff | core/src/hot_book.rs:114-177 | A slab is well formed (slots in range, distinct, live and free disjoint) if and only if its index and free list name every slot and are as many as the slots |
| OrderStore.OrderSlab.InsertOrder | core/src/hot_book.rs:131-150 | The mutating insert reaches the specified slab |
| OrderStore.OrderSlab.PutQty | core/src/hot_book.rs:152-159 | The in-place write reaches the specified slab |
| OrderStore.OrderSlab.RemoveOrder | core/src/hot_book.rs:171-177 | The mutating remove reaches the specified slab and returns the old entry |
| LevelArrays.HalfBook.PartitionPoint | hotpath/src/orderbook.cpp:30-47 | The lo/hi loop returns the partition point |
| LevelArrays.HalfBook.FindLevel | core/src/hot_book.rs:573-584 | The search over the array returns the lookup result |
| LevelArrays.HalfBook.Add | core/src/hot_book.rs:515-568 | Merge, shift-and-insert or refuse: the array holds the specified side afterwards |
| LevelArrays.HalfBook.OpenSlot | core/src/hot_book.rs:545-568 | Shifting the tail in place inserts one level and moves the rest by one |
| LevelArrays.HalfBook.RemoveLevel | core/src/hot_book.rs:749-760 | Shifting down removes exactly one level |
| LevelArrays.HalfBook.DeductAt | core/src/hot_book.rs:607-722 | The in-place draw equals the specified side and flag |
| LevelArrays.HalfBook.DeductAnonAt | core/src/hot_book.rs:727-747 | Same for anonymous trades |
| ReferenceBook.OrderBook.ApplyEvent | core/src/orderbook.rs:48-60 | The map-based book follows the reference step on (bids, asks, orders) and returns its flag |
| ReferenceBook.OrderBook.AddOrder | core/src/orderbook.rs:62-89 | Reference add |
| ReferenceBook.OrderBook.CancelOrder | core/src/orderbook.rs:91-129 | Reference cancel: quantity 0 or at least the residual removes the order, the level loses what the order lost |
| ReferenceBook.OrderBook.ModifyOrder | core/src/orderbook.rs:131-135 | Modify is cancel with the event's own quantity, then add |
| ReferenceBook.OrderBook.ExecuteTrade | core/src/orderbook.rs:137-166 | Reference fill |
| ArrayBook.ApplyRefines | hotpath/src/orderbook.cpp:70-249 | Any event on sorted arrays is the same event on price maps and live orders, flag included, and keeps the arrays sorted and within capacity |
| ArrayBook.RunRefines | hotpath/src/orderbook.cpp:70-249 | Hence after every stream |
| CppBook.CppOrderBook.ApplyEvent | hotpath/src/orderbook.cpp:70-83 | The C++ book's dispatch, over its level arrays and id map, reaches the specified book |
| CppBook.CppOrderBook.AddOrder | hotpath/src/orderbook.cpp:84-125 | C++ add: metadata is stored only for placed orders with an id |
| CppBook.CppOrderBook.CancelOrder | hotpath/src/orderbook.cpp:126-184 | C++ cancel, order-driven or by price when the id is 0 |
| CppBook.CppOrderBook.ExecuteTrade | hotpath/src/orderbook.cpp:185-249 | C++ trade, order-driven or by price when the id is 0 |
| HotBook.ApplyProjects | core/src/hot_book.rs:195-209 | One event on the slab-backed book is the same event on the C++ book's state, and the slab stays well formed |
| HotBook.HotMatchesCpp | core/src/hot_book.rs:195-209 | For every stream, any ids (0 and unknown included), sides and capacity, Rust hot book and C++ book of the same capacity stay equal and strictly sorted |
| HotBook.HotOrderBook.ApplyEvent | core/src/hot_book.rs:195-209 | The object's dispatch reaches the specified state and flag |
| HotBook.HotOrderBook.AddOrder | core/src/hot_book.rs:515-570 | Add over the arrays and the slab |
| HotBook.HotOrderBook.CancelOrder | core/src/hot_book.rs:607-665 | Cancel over the arrays and the slab |
| HotBook.HotOrderBook.ExecuteTrade | core/src/hot_book.rs:667-747 | Trade over the arrays and the slab |
| HotBook.HotOrderBook.ApplyLanes | core/src/hot_book.rs:278-327 | The three lane loops reach the specified state and count of changes |
| Conservation.LiveTake | core/src/hot_book.rs:114-177 | The live quantity and count at a price do not depend on the order of summation |
| Conservation.StrikeConserves | core/src/hot_book.rs:607-722 | Reducing or removing a live order keeps every level equal to the sum and count of its live orders |
| Conservation.PlacedConserves | core/src/hot_book.rs:515-568 | So does adding under a fresh id |
| Conservation.NoSaturation | core/src/hot_book.rs:607-722 | When levels cover their orders, no saturating subtraction saturates |
| Conservation.RunConserves | core/src/hot_book.rs:515-722 | For every stream of adds under fresh nonzero ids, cancels and fills, at any capacity, levels equal their live orders throughout and no level is without orders |
| Conservation.RunCovers | core/src/hot_book.rs:515-722 | With modifies and reused ids, every level still holds at least its live orders, throughout |
| Conservation.RefStepCovers | core/src/orderbook.rs:62-166 | The reference book keeps the same lower bound |
| Conservation.ConservedGridsAgree | core/src/hot_book.rs:515-722 | Conserved books with the same live orders have the same levels: the grid is a function of the orders |
| Surplus.ApplyAddsExcess | core/src/hot_book.rs:515-722 | One identified event adds to what a level holds beyond its live orders exactly what it abandons by rebinding a live id, and never removes any |
| Surplus.StepConservesIff | core/src/hot_book.rs:515-747 | From a conserved book, any event (any type, side and id, 0 included) leaves the book conserved if and only if a stated guard on the book and the event holds |
| Surplus.ThroughoutIff | core/src/hot_book.rs:515-747 | A book stays conserved after every prefix of a stream if and only if every event meets the guard |
| Surplus.RunConservesIff | core/src/hot_book.rs:515-722 | A stream of identified events ends conserved if and only if every event meets it: no later event repairs an earlier one |
| Surplus.TalliedStays | core/src/hot_book.rs:515-722 | From the empty book every stream of identified events, modifies and reused ids included, leads to a book whose levels hold their live orders and some excess: the starting books of the lane theorems |
| Surplus.ModifyAbandons | core/src/hot_book.rs:202-205 | An order of 5 modified with quantity 3 leaves two units of no order on its level |
| Agreement.AgreeIff | core/src/orderbook.rs:48-166 | From any common state, hot and reference books give the same flag and state for an event if and only if the event meets the stated condition on side, id and room for a new price |
| Agreement.LockStepIff | core/src/orderbook.rs:48-166 | Whole streams: lock step if and only if every event meets it, and then the final books are equal |
| Agreement.HotLockStepIff | core/src/hot_book.rs:195-209 | The slab-backed book returns the reference book's flag and shows its orders and levels at every step if and only if every event meets the condition of `AgreeIff` |
| Agreement.HotMatchesReference | core/src/hot_book.rs:195-209 | Then the slab-backed hot book itself shows the reference book's orders and levels, sorted |
| Agreement.ConformantStreamsAgree | core/src/hot_book.rs:542-544 | Sides in {0, 1}, nonzero ids (reuse allowed) and at most capacity prices per side suffice |
| Agreement.HotConserves | core/src/hot_book.rs:515-722 | Conservation for the hot book's own orders and ladders |
| Agreement.HotConservesIff | core/src/hot_book.rs:515-722 | The same equivalence for the hot book's own orders and ladders |
| Agreement.HotLevelIsItsOrders | core/src/hot_book.rs:515-722 | Each slot in use is the sum and the positive count of the live orders at its side and price |
| Agreement.DepthBreaksAgreement | core/src/hot_book.rs:542-544 | Beyond the depth limit the books part: a concrete two-event stream |
| EventMeaning.AnonymousTrade | core/src/hot_book.rs:727-747 | A trade without an id at a level of x units in n orders: fewer than x units leave n orders; x or more leave 0 units in n - 1 orders, or no level if n was 1; every other price and all orders are unchanged |
| EventMeaning.AnonymousCancel | core/src/hot_book.rs:634-660 | A cancel without an id takes one order with its quantity, and the level with its last order |
| EventMeaning.KnownOrder | core/src/hot_book.rs:607-724 | A cancel or trade of a known order acts at its own price and side: it is deleted when the quantity covers it, or by a cancel of 0, and reduced otherwise; its level loses the same units, and an order only with a deletion |
| EventMeaning.UnknownOrder | core/src/hot_book.rs:607-677 | Of an unknown order it does nothing and reports so |
| EventMeaning.AddRefused | core/src/hot_book.rs:515-546 | An add is refused if and only if its price is new and the side shows `cap` levels; then nothing changes |
| EventMeaning.AddEvent | core/src/hot_book.rs:515-570 | A placed order joins its level with its quantity and a count of one, or opens a level of one order |
| EventMeaning.AddRemembers | core/src/hot_book.rs:558-570 | It is remembered under its id, unless that is 0 |
| EventMeaning.ModifyEvent | core/src/hot_book.rs:202-205 | A modify is the cancel, then the add, with its fields |
| EventMeaning.ReferenceAdd | core/src/orderbook.rs:62-89 | The reference book takes every add of side 0 or 1, under any id |
| EventMeaning.ReferenceReduce | core/src/orderbook.rs:91-166 | Its cancels and trades reduce known orders in the same way, id 0 included, and do nothing otherwise |
| EventMeaning.ReferenceModify | core/src/orderbook.rs:131-135 | Its modify is the cancel, then the add, with its fields |
| EventMeaning.HotEvent | core/src/hot_book.rs:195-209 | What the slab-backed book shows moves as these statements say |
| EventMeaning.HotAnonymousTrade | core/src/hot_book.rs:727-747 | Slot by slot: the anonymous trade rewrites or removes the one slot of its price, and leaves the slab alone |
| EventMeaning.AnonymousTradesDrain | core/src/hot_book.rs:727-747 | After any run of anonymous trades the orders are the same, and each level holds what its volume left, with one order fewer for every trade from the one that exhausts it |
| EventMeaning.HotAnonymousTradesKeepCount | core/src/hot_book.rs:727-747 | On the slab-backed book: trades for less than a level holds take their total and leave its count |
| EventMeaning.HotLevelsCounted | core/src/hot_book.rs:515-760 | After any stream of any events every level in use holds at least one order |
| SlotReuse.LastFreedFirstUsed | core/src/hot_book.rs:131-177 | Remove one id, insert another: it takes the freed slot, and storage, free list and all other slots are as before |
| SlotReuse.SlotsComeBackReversed | core/src/hot_book.rs:131-177 | Slots are reused in the reverse of the order in which they were freed |
| SlotReuse.StepStays | core/src/hot_book.rs:195-209 | No event moves a live order, a modify included, and storage grows only to hold more live orders than it has slots |
| SlotReuse.StorageIsPeak | core/src/hot_book.rs:114-177 | After every stream the storage has exactly as many slots as at the start or as the most orders live at once, whichever is more |
| SlotReuse.SlotForLife | core/src/hot_book.rs:114-177 | An order keeps its slot as long as it lives |
| SlotReuse.AddDeleteAdd | core/src/hot_book.rs:131-177 | Add, delete, add from the empty book: one slot, no free slot, the second order in slot 0 |
| Lanes.FillCancelCommute | core/src/hot_book.rs:607-722 | Clipped fills and partial or full cancels commute on the live orders |
| Lanes.LanesKeepOrders | core/src/hot_book.rs:278-327 | Sorting a batch into add, trade, cancel lanes keeps the live orders |
| Lanes.LanesMatchSerial | core/src/hot_book.rs:278-327 | And the levels, from any book whose levels hold their orders (an excess left by earlier modifies or reused ids included), when the all-adds-first peak fits |
| Lanes.HotLanesMatchSerial | core/src/hot_book.rs:278-327 | From any such book the hot book's apply_lanes ends with the same orders and identical ladders as serial apply |
| LaneModifies.LeadStays | core/src/hot_book.rs:287-293 | Once the add lane holds more beyond its live orders at a price than the serial loop, it does so to the end of the batch |
| LaneModifies.LanesIff | core/src/hot_book.rs:267-327 | From any such book, for every batch with nonzero ids, a new id per add and no fill or cancel ahead of its order, lanes end where serial apply does if and only if no modify names an order live at the start or placed before |
| LaneModifies.ItchLanesIff | core/src/hot_book.rs:267-277 | On the documented inputs (unique ids per add; cancels, trades and modifies of known orders) the documented equivalence holds if and only if the batch has no modify |
| LaneModifies.HotLanesIff | core/src/hot_book.rs:278-327 | The same for the hot book's own orders and ladders |
| LaneModifies.HotLanesAfterStreamIff | core/src/hot_book.rs:267-327 | From the hot book that any stream of identified events built, on the documented inputs, the equivalence holds if and only if the batch has no modify |
| LaneModifies.ModifiedInBatch | core/src/hot_book.rs:287-293 | An add of 5 and its modify to 3 in one batch: the level ends at 5 serially and at 8 in lanes |
| LaneOrder.LanesReorder | core/src/hot_book.rs:278-327 | For any book and batch: book and change count are those of applying the adds and modifies as adds, then the trades, then the cancels, one after the other |
| CanonicalHash.HotHash | core/src/hot_book.rs:487-505 | The hot book's loops compute the fold over its best-first levels |
| CanonicalHash.RefFold | core/src/orderbook.rs:199-215 | Walking the ordered map best-first computes the same fold as the sorted listing |
| CanonicalHash.RefHash | core/src/orderbook.rs:199-215 | The reference book's hash is the fold over the listings of its sides |
| CanonicalHash.HashesAgree | core/src/hot_book.rs:487-505 | After every agreeing stream the two hashes are equal, for any xxh3 |
| HashTranscript.HashIsTranscript | core/src/hot_book.rs:487-505 | The hash is the run of these xxh3 calls from seed 0: the tag, sixteen bytes per bid best first (price at 0, quantity at 8, little-endian), the bar, the same for the asks; rows are folded in by exclusive or, tag and bar replace |
| HashTranscript.TranscriptExists | core/src/hot_book.rs:487-505 | Every pair of ladders whose quantities fit a u64 has such calls |
| HashTranscript.HashTellsApart | core/src/hot_book.rs:477-505 | Two books hash alike under every xxh3 if and only if they show the same prices and quantities on both sides |
| Bounds.RunStaysBounded | core/src/hot_book.rs:515-722 | No level total or count exceeds what the stream brought, and the slab never outgrows the number of adds: the condition under which u64 and u32 never overflow |
| BookSnapshot.RowsRoundTrip | core/src/hot_book.rs:802-837 | Fixed-width rows read back from anywhere in a buffer |
| BookSnapshot.SectionRoundTrip | core/src/hot_book.rs:840-962 | A count-prefixed section reads back and says where it ends |
| BookSnapshot.EntriesUnique | core/src/hot_book.rs:866-875 | A map has one listing sorted by id |
| BookSnapshot.SortIndex | core/src/hot_book.rs:866-875 | Collecting in any order and sorting gives a sorted listing of the index |
| BookSnapshot.ImageRoundTrip | core/src/hot_book.rs:840-962 | Decode after encode returns ladders, slab data, free list in order and index, for every image whose numbers fit their fields, sound or not |
| BookSnapshot.ToSnapshotBytes | core/src/hot_book.rs:840-878 | The encoder's loops write the specified image |
| BookSnapshot.FromSnapshotBytes | core/src/hot_book.rs:881-962 | The decoder's checks and loops return the specified image or error |
| AcceptedImage.AcceptedIsWritable | core/src/hot_book.rs:881-962 | Of any bytes: what the decoder accepts is within the depth and has every number within its field |
| AcceptedImage.AcceptedReencodes | core/src/hot_book.rs:840-962 | And re-encoding it decodes to the same image: nothing accepted is lost |
| AcceptedImage.AcceptedSoundIff | core/src/hot_book.rs:881-962 | And it is a sound book if and only if neighbouring prices descend, index and free list name every slot, and they are as many as the slots: checks the decoder leaves out |
| ImageLayout.HeaderChecks | core/src/hot_book.rs:881-905 | The header checks, their order and their errors: length, depth, counts |
| ImageLayout.AcceptsIff | core/src/hot_book.rs:881-962 | A buffer is accepted if and only if it is of the decoder's depth, within it, and long enough for each of the counts it declares |
| ImageLayout.LaddersAt | core/src/hot_book.rs:802-815 | What an accepted image holds at which offset: header words, bids, then asks, 24 bytes a level |
| ImageLayout.SlabRowsAt | core/src/hot_book.rs:818-831 | The slab rows: price, quantity, side byte |
| ImageLayout.FreeSlotsAt | core/src/hot_book.rs:932-942 | The free slots in order |
| ImageLayout.IndexEntriesAt | core/src/hot_book.rs:944-958 | The index entries; the last entry of an id counts |
| ImageLayout.EncodedLength | core/src/hot_book.rs:840-852 | The encoder writes nothing but these parts |
| ImageLayout.EncodedIndexAscends | core/src/hot_book.rs:866-876 | And the index in strictly ascending order of id |
| BookSnapshot.BadSlotAccepted | core/src/hot_book.rs:949-958 | Slots are not checked: an image whose index names a slot beyond the slab is accepted |
| BookSnapshot.ResumeEqualsReplay | core/src/hot_book.rs:840-962 | Snapshot after a, decode, apply b: structurally the book that replayed a ++ b, and re-encoding is byte-identical, whenever the numbers of the book at the snapshot fit their fields |
| BookSnapshot.LightRunIsWritable | core/src/hot_book.rs:840-878 | They do when the stream brought less than a u64 of quantity in fewer than 2^32 orders |
| SnapshotFile.FrameReads | replay/src/snapshot.rs:47-90 | What a framed snapshot reads back as, for every payload |
| SnapshotFile.FrameRoundTripIff | replay/src/snapshot.rs:44-90 | The frame round-trips if and only if the payload has at most u32::MAX bytes |
| SnapshotFile.FrameAcceptsIff | replay/src/snapshot.rs:62-90 | A frame is accepted if and only if it has magic FLSN, version 1 and the bytes it declares; where its fields are |
| SnapshotFile.FrameLength | replay/src/snapshot.rs:47-58 | It writes 28 bytes and the book |
| SnapshotFile.PreambleReads | replay/src/snapshot.rs:47-58 | Where the writer puts magic, version, sequence number and state hash |
| SnapshotFile.FileResumes | replay/src/snapshot.rs:47-90 | Resume from the framed file: frame, read, decode, apply b |
| Bytes.LittleEndian | core/src/hot_book.rs:802-815 | The u32 and u64 fields of snapshots, log and hash are least significant byte first |
| Bytes.BigEndian | replay/src/moldudp.rs:76-79 | Those of MoldUDP64 and ITCH most significant byte first |
| Wal.Crc32FramingIsLawful | replay/src/wal.rs:96-113 | Length, checksum, payload frames are found whole in front of anything, never when cut, and only as written |
| Wal.HeaderReads | replay/src/wal.rs:96-113 | A record on disk is its length, its checksum and its payload, in that order |
| Wal.ParseEncode | replay/src/wal.rs:267-312 | Reading a segment returns exactly the records written |
| Wal.ParseCut | replay/src/wal.rs:267-312 | Cut at any byte, it returns exactly the records that lie whole before the cut |
| Wal.RecoverIsPrefix | replay/src/wal.rs:171-205 | On any bytes, recovery keeps a prefix that parses completely, to the same records the reader sees |
| Wal.RecoverIdempotent | replay/src/wal.rs:171-205 | Recovering twice is recovering once |
| Wal.RecoverSegmentTail | replay/src/wal.rs:171-205 | The scanning loop finds that prefix |
| Wal.WalReader.NextRecord | replay/src/wal.rs:248-312 | The reader hands out the remaining records one by one, across segments, and stays at the end |
| WalProtocol.StepRefines | replay/src/wal.rs:56-141 | Append, flush, sync, rotation, power loss, process kill and reopen each act on the record sequence as an append-only log with a synced watermark would |
| WalProtocol.CrashRefines | replay/src/wal.rs:171-205 | A power loss that cuts the last segment anywhere at or above its synced length keeps all synced records and a prefix of the rest |
| WalProtocol.KillRefines | replay/src/wal.rs:171-205 | A process kill does too, and promises nothing new unless recovery had to truncate |
| WalProtocol.RunRefines | replay/src/wal.rs:56-141 | Hence every run behaves as the log |
| WalProtocol.PromisedSurvives | replay/src/wal.rs:121-125 | In the log, what is below the watermark stays, in place, for ever |
| WalProtocol.SyncedSurvivesForever | replay/src/wal.rs:121-141 | With the checksum framing: records synced at some point are read back first and in order after any later run |
| WalProtocol.QuietRunStays | replay/src/wal.rs:121-141 | A fully synced log that nobody appends to reads back the same after any crashes, syncs and reopenings |
| WalSegments.AppendRotatesIff | replay/src/wal.rs:96-113 | An append starts a new segment if and only if it would take the current one past the limit; every earlier record is then durable |
| WalSegments.OversizeRefused | replay/src/wal.rs:97-99 | A payload of 2^32 bytes or more changes nothing |
| WalSegments.SegmentsStaySized | replay/src/wal.rs:56-141 | From a new log, through any appends, syncs, power losses, kills and reopenings, every segment is within the limit or holds exactly one record |
| WalProtocol.WalWriter.OpenOrCreate | replay/src/wal.rs:56-94 | Opening resumes the last segment at its recovered end |
| WalProtocol.WalWriter.AppendRecord | replay/src/wal.rs:96-113 | Append rotates when the segment is full, refuses oversized payloads, and otherwise extends the segment by one frame |
| WalProtocol.WalWriter.Rotate | replay/src/wal.rs:127-141 | Rotation makes the old segment durable before starting the next |
| EventLog.BatchRoundTrip | core/src/event.rs:16-38 | A batch of events, 40 bytes each, reads back from its record |
| EventLog.EventFields | core/src/event.rs:16-38 | Where the 40-byte event keeps its fields |
| EventLog.AppendedSurvive | replay/src/wal.rs:96-125 | Records appended to a new log and synced are its first records after any later actions, and its only ones if nothing is appended |
| EventLog.ReplayIsRun | replay/src/wal.rs:6-8 | Applying the batches record by record is applying the stream |
| EventLog.LogRebuildsBook | replay/src/wal.rs:6-8 | Append batches of events, sync, then any appends, syncs, kills, power losses and reopenings: the first records decode to the batches and rebuild the book of the live stream; without further appends the whole log does |
| Ring.MaskIsModulus | ingest/mmap/ring.go:78-99 | Masking with capacity - 1 is the remainder for powers of two, so the Go and Rust writers address the same slots |
| Ring.SlotsDistinct | replay/src/ring_reader.rs:245-277 | Indices less than a lap apart use different slots |
| Ring.StepKeeps | replay/src/ring_reader.rs:147-277 | Every writer, reader or flusher step keeps the unread bytes in their slots |
| Ring.RingIsFifo | replay/src/ring_reader.rs:147-277 | Under every interleaving: 0 <= write - read <= capacity, consumed is a prefix of published and that of submitted, and the flusher's second write is never refused |
| Ring.DrainedRingDeliversAll | replay/src/file_source.rs:174-195 | Flusher done and reader caught up: every byte was delivered once, in order |
| Ring.NeverStuck | replay/src/file_source.rs:174-195 | Deadlock freedom: in every reachable state, while a submitted byte is not yet consumed, some step of flusher or reader is enabled |
| RingBuffer.MappedRing.Write | replay/src/ring_reader.rs:245-277 | A batch that fits is appended to the queue of unread bytes, across the wrap; otherwise nothing changes and the free space is reported |
| RingBuffer.MappedRing.CopyIn | ingest/mmap/ring.go:78-99 | The one or two copies overwrite exactly the batch's slots |
| RingBuffer.MappedRing.Available | replay/src/ring_reader.rs:147-168 | The two slices concatenate to the next unread bytes |
| RingBuffer.MappedRing.Read | replay/src/ring_reader.rs:171-183 | Read hands out the front of the queue and keeps the rest |
| Mold.TerminatesIffWellFormed | replay/src/moldudp.rs:116-141 | Draining the iterator, skipping errors as `ingest` does, ends if and only if the frame is well formed |
| Mold.BodyRoundTrip | replay/src/moldudp.rs:304-314 | An encoded body yields exactly its messages, numbered consecutively |
| Mold.BodyConsumed | replay/src/moldudp.rs:116-141 | And nothing is left over |
| Mold.FrameRoundTrip | replay/src/moldudp.rs:64-141 | Encode, parse and iterate 1 to 65534 messages of under 64 KiB: same payloads, numbers first, first+1, and so on, whole body consumed |
| Mold.FrameFields | replay/src/moldudp.rs:64-89 | Which datagrams are refused and why, and where session, big-endian sequence and count are in the others |
| GapTracking.RunAccounts | replay/src/moldudp.rs:246-296 | For every arrival order: ingested = in order + reordered + duplicates + dropped + pending, and pending stays within the limit |
| GapTracking.CountersMean | replay/src/moldudp.rs:246-296 | Over any feed each counter is the number of arrivals of one kind: at the position, repeated, overflowing, ahead of an empty buffer, releasing something while something still waits; deliveries are those in order and those reordered |
| GapTracking.RunExactForKept | replay/src/moldudp.rs:246-296 | For every arrival order, with reordering, duplication and overflow: output is start..expected-1 once each in order, expected is the least number not received, pending is exactly the rest, all with respect to the arrivals not lost to a full buffer |
| GapTracking.DeliveredInOrder | replay/src/moldudp.rs:175-181 | Whatever is lost, the output is numbered start, start+1, and so on without a gap, and output and buffer hold only messages that arrived |
| GapTracking.RunExact | replay/src/moldudp.rs:246-296 | With nothing lost the same holds with respect to everything that arrived |
| GapTracking.ExactIsUnique | replay/src/moldudp.rs:246-296 | Those conditions determine position, buffer and output |
| GapTracking.ArrivalOrderIrrelevant | replay/src/moldudp.rs:246-296 | So feeds carrying the same messages in any order and multiplicity end alike |
| GapTracking.RoomyBufferLosesNothing | replay/src/moldudp.rs:283-296 | A buffer as large as the number of distinct messages loses none |
| GapTracking.NoDropsNoLoss | replay/src/moldudp.rs:283-296 | Nor does any run whose overflow counter stayed put |
| GapTracking.GapTracker.IngestSingle | replay/src/moldudp.rs:240-296 | The mutating ingest of one message, drain loop included, reaches the specified tracker, statistics and output |
| GapTracking.GapTracker.IngestFrame | replay/src/moldudp.rs:226-238 | Ingesting a well-formed frame is ingesting its messages in turn |
| GapTracking.GapTracker.OpenGap | replay/src/moldudp.rs:214-222 | The open gap runs from the expected number to just before the least buffered one |
| FlashCrash.SumTake | chaos/src/flash_crash.rs:191-197 | The range sum of an ordered map does not depend on the order of summation |
| FlashCrash.PruneKeepsBest | chaos/src/flash_crash.rs:490-503 | Pruning never evicts the best level |
| FlashCrash.AddCoherent | chaos/src/flash_crash.rs:374-422 | Adding, with pruning, keeps cached bests, level limits and the depth cache equal to their recomputation |
| FlashCrash.RemoveCoherent | chaos/src/flash_crash.rs:424-464 | So does partial or full removal |
| FlashCrash.StepCoherent | chaos/src/flash_crash.rs:199-245 | So does every event of `process` |
| FlashCrash.RunCoherent | chaos/src/flash_crash.rs:199-245 | For every run in which what rests and what arrives fit a u64 at each moment: bests are the true extremes, sides are within the limit, a valid depth cache is the full band sum around the bests |
| FlashCrash.RunShaped | chaos/src/flash_crash.rs:374-503 | Bests and level limits hold over every run, whatever the quantities |
| FlashCrash.DepthIsBand | chaos/src/flash_crash.rs:173-197 | A valid depth is the quantity at most `bandTicks` from the best bid and from the best ask, without clipping |
| FlashCrash.RefreshedDepth | chaos/src/flash_crash.rs:199-220 | So is every depth that `process` snapshots |
| FlashCrash.ZeroLimitBreaks | chaos/src/flash_crash.rs:490-503 | The level limit must be positive: at zero the first accepted add leaves a best price that is not in the book |
| DetectorShadow.TradeTracksIff | chaos/src/order_tracker.rs:82-110 | After a trade the order tracker still matches the reference book's live orders exactly under the stated condition: the tracker takes a trade of quantity 0 for a full fill and the book for nothing, and id 0 it never resolves |
| DetectorShadow.TradeLiveMirrorsIff | chaos/src/order_tracker.rs:82-110 | Exactly which trades of a live order, of quantity 0 included, keep step: those of a positive quantity at the resting price or without one, as long as level and last order go together |
| DetectorShadow.StepMirrorsIff | chaos/src/flash_crash.rs:199-245 | From a common state, one event of any kind keeps the detector's orders and level quantities in step with the reference book if and only if a stated guard on the book and the event holds |
| DetectorShadow.RunMirrorsIff | chaos/src/order_tracker.rs:44-133 | A run stays in step throughout if and only if every event meets the guard |
| DetectorShadow.BestsAreTheReferences | chaos/src/flash_crash.rs:149-154 | Then the detector's cached best prices are the reference book's |
| FlashCrash.FlashCrashDetector.Process | chaos/src/flash_crash.rs:199-245 | The object follows the step relation, and the depth it snapshots is the refreshed one |
| FlashCrash.FlashCrashDetector.DepthInBand | chaos/src/flash_crash.rs:173-197 | Lazy recomputation of the band depth |
| FlashCrash.FlashCrashDetector.AddQty | chaos/src/flash_crash.rs:374-422 | The in-place add, with its cache updates |
| FlashCrash.FlashCrashDetector.SubQty | chaos/src/flash_crash.rs:424-464 | The in-place removal, with its cache updates |
| Breaker.CircuitBreaker.Check | flow/src/circuit_breaker.rs:194-244 | A check is the uninterrupted run of its lock-level steps |
| Breaker.CircuitBreaker.RecordFill | flow/src/circuit_breaker.rs:247-265 | One trade more, position and cash moved by the signed fill |
| Breaker.CircuitBreaker.RecordGap | flow/src/circuit_breaker.rs:269-282 | Gap reporting is the uninterrupted run of its steps |
| Breaker.CircuitBreaker.GapsInWindow | flow/src/circuit_breaker.rs:176-181 | A telemetry sample prunes the gap log to the window and counts it |
| Breaker.CircuitBreaker.Reset | flow/src/circuit_breaker.rs:291-294 | Reset clears reason and flag, nothing else |
| Breaker.CircuitBreaker.StartOfDay | flow/src/circuit_breaker.rs:297-304 | Start of day clears all accumulators and the latch, not the token bucket |
| Breaker.SoloFill | flow/src/circuit_breaker.rs:247-265 | Three separate steps reach the filled state when undisturbed |
| BreakerAnswers.CheckAnswers | flow/src/circuit_breaker.rs:194-244 | A check allows if and only if nothing is latched, there is a token, the position after a full fill is within plus or minus the cap, cash is not below minus the loss limit, and orders are below the warm-up or at most the ratio times the trades (at least 1); otherwise it answers and latches the first guard that fails; all it changes is reason, flag, order count and bucket |
| BreakerAnswers.CheckDraws | flow/src/circuit_breaker.rs:332-343 | The bucket after a check: refilled, capped, less the token taken |
| BreakerAnswers.FillBooks | flow/src/circuit_breaker.rs:247-265 | A purchase adds to the position and pays quantity times price, a sale the reverse |
| BreakerAnswers.RoundTripEarns | flow/src/circuit_breaker.rs:247-265 | Buying and selling the same quantity earns the difference in price |
| BreakerAnswers.FreshDayAllowsIff | flow/src/circuit_breaker.rs:297-304 | What the first check after a start of day demands, whatever the day before was |
| BreakerAnswers.ResetKeepsLedgers | flow/src/circuit_breaker.rs:291-294 | Reset keeps orders, trades, cash, positions, tokens and gaps |
| BreakerAnswers.GapAnswers | flow/src/circuit_breaker.rs:269-282 | A reported gap latches if and only if it and the gaps no older than the window reach the threshold |
| BreakerAnswers.FloorHolds | flow/src/circuit_breaker.rs:222-228 | Once cash is below the floor, and until a start of day, an order is allowed only after a fill brought the cash back, and only after a reset has followed every check made below the floor |
| BreakerAnswers.FloorBlocks | flow/src/circuit_breaker.rs:222-228 | In every interleaving, a check begun below the floor is not allowed while the cash stays there |
| BreakerRuns.LatchHolds | flow/src/circuit_breaker.rs:306-313 | In every interleaving the first latched reason stays until a reset clears the slot |
| BreakerRuns.FailClosed | flow/src/circuit_breaker.rs:194-197 | A check that begins after a latch, with no reset clearing the slot meanwhile, never gets past reading it and blocks with the first latched reason |
| BreakerRuns.HaltedIff | flow/src/circuit_breaker.rs:291-294 | While a reason stays latched the halted flag is down if and only if some reset lowered it |
| BreakerRuns.HaltedMeansLatched | flow/src/circuit_breaker.rs:291-313 | A raised flag means a latched reason or a reset between its two steps |
| BreakerRuns.ResetRacesHalt | flow/src/circuit_breaker.rs:291-294 | A concrete interleaving leaves a reason latched with the flag down |
| BreakerRuns.TakeMetered | flow/src/circuit_breaker.rs:332-343 | One draw keeps the window account: tokens drawn since the window opened plus tokens left are covered by capacity plus refill |
| BreakerRuns.DrawsBounded | flow/src/circuit_breaker.rs:332-343 | On a monotone clock any window of length d sees at most capacity + rate * d tokens drawn, across resets and days, and tokens stay within [0, capacity] |
| BreakerRuns.AllowedSpendTokens | flow/src/circuit_breaker.rs:194-244 | Allow decisions on tokens of a window plus checks still in flight with one number at most the tokens drawn in it |
| BreakerRuns.OrdersBounded | flow/src/circuit_breaker.rs:194-244 | Hence the same bound on Allow decisions, in every interleaving |
| BreakerRuns.PositionsAreFills | flow/src/circuit_breaker.rs:247-265 | In every interleaving, a position is the signed sum of the fills booked since it was cleared |
| BreakerRuns.CashIsFills | flow/src/circuit_breaker.rs:247-265 | And cash the signed sum of their amounts |
| BreakerRuns.GapLogIsHistory | flow/src/circuit_breaker.rs:269-282 | With samples interleaved, the lazily pruned gap log is the full history seen through a cutoff no later than the window |
| BreakerRuns.GapTripsIff | flow/src/circuit_breaker.rs:269-282 | A reported gap trips the breaker if and only if the gaps inside the window reach the threshold |
| BreakerRuns.SampleIsWindow | flow/src/circuit_breaker.rs:176-181 | A telemetry sample finds exactly the gaps since the last clearing that lie within the window |
| BreakerLimits.AllowFits | flow/src/circuit_breaker.rs:208-220 | An allowed order fits the cap if filled in full |
| BreakerLimits.PositionsStayCapped | flow/src/circuit_breaker.rs:208-220 | When fills settle before the next check, every position stays within the cap in every state of every session |
| BreakerLimits.CarriedOrderIff | flow/src/circuit_breaker.rs:297-304 | An order still open over start of day keeps to the cap if and only if its rest fits it from zero |
| BreakerLimits.BoundaryCrossesCap | flow/src/circuit_breaker.rs:297-304 | A session that crosses the cap: cap 10, sell 10 filled, buy 20 allowed, start of day, the 20 fill |
| Itch.DispatchMeaning | replay/src/itch.rs:97-206 | Every well-formed A, F, D, X, E, C and P message, whatever its other fields, decodes to the event it stands for, its timestamp cut to 48 bits |
| Itch.LengthIsFields | replay/src/itch.rs:16-42 | Each of the 22 message types is as long as its fields; other bytes have no length |
| ItchStream.ParseSplits | replay/src/itch.rs:211-227 | Any input is whole messages and a remainder that says why the parser stopped; the events are those of the messages |
| ItchStream.AcceptsIff | replay/src/itch.rs:211-227 | The parser accepts exactly the concatenations of whole messages |
| ItchStream.ParseConcat | replay/src/itch.rs:211-227 | Parsing a ++ b is parsing a, then b, whenever a is accepted |
| ItchStream.ParseExtends | replay/src/itch.rs:211-227 | More input never takes back an event, and an unknown type stays an error |
| ItchStream.StreamRoundTrip | replay/src/itch.rs:211-292 | Any list of messages parses back to its events, one each, in order |
| ItchStream.ParseBuffer | replay/src/itch.rs:211-227 | The parsing loop appends the specified events, counts them and reports the specified error |
| ItchStream.EmitAddOrder | replay/src/itch.rs:234-254 | The emitter appends an Add Order message in wire layout |
| ItchStream.EmitOrderDelete | replay/src/itch.rs:257-266 | The emitter appends an Order Delete message |
| ItchStream.EmitTrade | replay/src/itch.rs:269-290 | The emitter appends a Trade message |
| FileReplay.FileItchReplay.Drive | replay/src/file_source.rs:104-169 | On success the batches are the file, cut greedily with the remainder last; on failure the parser fails alike, the cursor and error name the offending message, and the batches are exactly the closed ones of the good messages |
| FileReplay.CutConserves | replay/src/file_source.rs:158-166 | Closed batches and the open one concatenate to the messages, and the open one is short of the target |
| FileReplay.CutIsGreedy | replay/src/file_source.rs:158-161 | Each closed batch reaches the target and would not have without its last message |
| FileReplay.BatchSizes | replay/src/file_source.rs:115-166 | Batches of protocol messages take 65536 to 65585 bytes, and fewer than 65536 bytes wait |
| FileReplay.PassedParses | replay/src/file_source.rs:121-163 | Replay and parser stop at the same place for the same reason |
| FileReplay.NothingLostIff | replay/src/file_source.rs:121-166 | A failed replay has sent all good messages if and only if the fold of their lengths leaves no open batch |
| FileReplay.RetrySendsNothing | replay/src/file_source.rs:119-138 | A second attempt stops where the first did and sends nothing |
| FileReplay.LostDelete | replay/src/file_source.rs:121-138 | A delete message followed by a zero byte: the parser yields the delete, the replay fails and sends nothing |
| Pipeline.PartialFeedIsPrefix | replay/src/file_source.rs:251-297 | At any moment of any interleaving, what the consumer has read parses to a prefix of the events written |
| Pipeline.DrainedFeedBuildsBook | replay/src/file_source.rs:251-297 | Encode, pass through the ring, parse, apply: the hot book is the reference book of the messages wherever the books agree |
| Pipeline.DeliveredIsPrefix | replay/src/moldudp.rs:226-296 | In any arrival order, with repetition and loss, the tracker delivers the first so many payloads of the feed |
| Pipeline.WholeFeedIsDelivered | replay/src/moldudp.rs:226-296 | Once all have arrived and none was lost, it delivers all of them |
| Pipeline.MoldFeedBuildsBook | replay/src/moldudp.rs:226-296 | Parsed and applied, what was delivered builds the reference book of those messages wherever the books agree |
| Clustering.SortIsStable | chaos/src/clustering.rs:86-87 | The sort orders by start and keeps input order among equals |
| Clustering.StableSortUnique | chaos/src/clustering.rs:86-87 | Any stable sort gives the same sequence |
| Clustering.SummaryDescribes | chaos/src/clustering.rs:173-200 | Count, sum, mean, start, kind and initiator of an episode match its members |
| Clustering.SummaryExtremes | chaos/src/clustering.rs:192-200 | Latest end and worst severity are attained bounds of the members |
| Clustering.MembersRelated | chaos/src/clustering.rs:106-129 | An episode is one kind with one known initiator, or crash and ignition only |
| Clustering.NoWindowsNoMerges | chaos/src/clustering.rs:106-114 | With both windows off the episodes are the single events, in order |
| Clustering.ClusteringUnique | chaos/src/clustering.rs:81-104 | At most one partition into grown episodes has no episode able to absorb the first event of the next |
| Clustering.PassClusters | chaos/src/clustering.rs:81-104 | The greedy pass computes that partition |
| Episodes.MergesIff | chaos/src/clustering.rs:106-129 | An event continues an episode if and only if it starts within an open window of where some member ends, and is kin to the first member |
| Episodes.ClusteringIff | chaos/src/clustering.rs:81-129 | A clustering is exactly a partition in which every later member so follows those before it, and no episode's first event follows the episode before |
| Episodes.WiderStillOne | chaos/src/clustering.rs:106-114 | Wider windows never split an episode |
| Clustering.Cluster | chaos/src/clustering.rs:81-104 | The loop over mutable episodes returns it for the stably sorted input |

## Where code and documentation differ

The model follows the code.

- `core/src/hot_book.rs:267-277` promises lane equivalence for batches with modifies of live orders; the modify's cancel
  half is never run in lanes, and no batch with such a modify ends alike (`LaneModifies.ItchLanesIff`, `LaneModifies.ModifiedInBatch`).
- The snapshot writer documents that a saturating length makes an oversized book be refused; the reader takes the
  saturated length and cuts the book (`SnapshotFile.FrameRoundTripIff`).
- The equality of hot and reference books needs the depth limit and known sides and ids (`Agreement.AgreeIff`).
- `is_halted` can be false while every check blocks (`BreakerRuns.HaltedIff`, `BreakerRuns.ResetRacesHalt`).
- The position cap does not survive a session boundary with an open order larger than the cap
  (`BreakerLimits.CarriedOrderIff`, `BreakerLimits.BoundaryCrossesCap`).
- When a capture is malformed, the good messages read since the last full batch are not sent, by this or a second `drive`
  (`FileReplay.NothingLostIff`, `FileReplay.RetrySendsNothing`, `FileReplay.LostDelete`).
- `replay/src/file_source.rs:115` speaks of batches of up to 64 KiB; every batch but the last has at least that
  (`FileReplay.CutIsGreedy`).
- Levels hold more than their live orders after a modify that cancels only part of its order (`Surplus.StepConservesIff`,
  `Surplus.ModifyAbandons`).
- `gaps_closed` does not count closed gaps: a gap whose closing empties the buffer is not counted, and one that leaves
  something waiting is (`GapTracking.CountersMean`).
- The detector's order tracker takes a trade of quantity 0 for a full fill, the reference book for nothing
  (`DetectorShadow.TradeTracksIff`).

## Left out

- Level totals and counts are unbounded: u64 and u32 overflow is not modelled; `Bounds.RunStaysBounded` gives the condition under which it cannot happen.
- FlashCrash.RunCoherent: assumes that what rests and what arrives fit a u64 at each moment, as the source's plain `+=` and `sum` do.
- Breaker.CircuitBreaker.RecordFill: position and cash are unbounded integers; the 64-bit product and sums are not modelled, the cast of the price is.
- xxh3 and CRC-32 are arbitrary functions; no claim about collisions or about the checksum's strength is made.
- Floating point in the breaker, the severities and the ratio guard is real arithmetic without rounding.
- Clustering.SummaryDescribes: `composite_severity` is not modelled, because it uses a logarithm; event features are not either.
- Breaker.CircuitBreaker.GapsInWindow: the telemetry sample's other fields, among them the net position, are plain reads and not modelled.
- FlashCrash.FlashCrashDetector.Process: the snapshot ring, the aggression counters and the emitted flag are not modelled; the book, its caches and the depth read for the snapshot are.
- Breaker.CircuitBreaker.RecordGap: the clock is read at the lock; in the source a thread may read it just before. The latch writes reason and flag under one lock and is one step.
- BreakerRuns.OrdersBounded: assumes a clock that never steps back, and counts an order at the time it drew its token.
- Memory ordering, mmap and fsync: publication is one step, fsync moves the durable length.
- WalProtocol.RunRefines: a power loss or kill may cut the last segment, not lose or reorder whole files; directory syncing and I/O errors are not modelled.
- Ring.RingIsFifo: indices are unbounded; their wrap at 2^64 is not modelled.
- GapTracking.GapTracker.IngestFrame: requires well-formed frames, since on others the source does not return (`Mold.TerminatesIffWellFormed`).
- Sequence numbers do not wrap at 2^64.
- FileReplay.FileItchReplay.Drive: the batches are the output; their way through the ring is `Ring.DrainedRingDeliversAll`. Pacing and timing are not modelled.
- Book accessors other than the best price, stock directory parsing and the synthetic stream generator would only add easy members.
- Detection thresholds, refractory periods and the snapshot ring of the flash-crash detector; the other detectors.
- API, dashboard, engine, wire codecs, storm generators, benchmarks, the Zig parser.
