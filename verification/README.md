# A verified model of the MT76x0 driver's frame handling

This project models, in Dafny, the parts of the MT76x0 USB Wi-Fi driver where a mistake loses, repeats,
reorders or overwrites frames, and proves what they keep over every run. Each part has a layer of functions
on values, which the theorems are about, and, where the driver changes state in place, classes and methods
with loops that are proved equal to those functions.

* **Receive reordering** (`SequenceNumbers`, `Reorder*`, `PoolSizing`, `RecipientSessions`, `RxAdapter`): the
  buffer of section 9.21.7.6 of IEEE 802.11-2012, one list and `LastIndSeq` per Block Ack session, one pool of blocks shared by
  all of them. Events are arrivals with their five cases, the two timeout flushes, BlockAckReq, the idle
  timeout, set-up and teardown. A `Frame` carries the originator's uncut number `no` beside its 12-bit
  `Sequence`; the code reads only the latter, the order theorems speak of the former. The window invariant,
  order without duplicates, refinement to sort-and-dedup, bounded holding, conservation of packets and
  blocks, and the pool size that suffices are proved for all runs. `ReorderEvents` gives the exact effect of each
  event, `ReorderAmpdu` lifts sort-and-dedup to the whole receive function with all sessions running. `RecipientSessions` derives from the session
  table that frames only reach a session with a granted window; `ReorderingList` is the pointer layer below.
* **Block Ack session tables** (`RecipientTable`, `OriginatorTable`, `AddbaRetry`, `BaTables`): counters,
  cells, bitmaps and entries agree in every reachable state, allocation never hands out a busy entry, and a
  set-up causes at most seven ADDBA requests by timer.
* **USB TX ring** (`TxRing*`, `HtTxContext`): two-phase writers, with the lock dropped during the copy,
  against the bulk-out routine, in every interleaving. The byte buffer holds cells, so that a packet's TXINFO
  word can be told from its data; the theorems give the exact bytes of each transfer. `LOCAL_TXBUF_SIZE` is
  left open up to 3906; the driver's is 2048.
* **Bulk-in parser** (`BulkIn`) and **A-MSDU de-aggregation** (`Amsdu`, section 8.3.2.2 of IEEE 802.11-2012):
  round trips against encoders, and progress and bounds on arbitrary bytes.
* **TX dequeue and aggregation** (`TxDequeue`): order and conservation of the software queues whatever the
  surroundings do, and the shape of every batch.
* **Client-WDS proxy table** (`ClientWds*`): hash buckets over a fixed pool refine a bounded first-writer-wins
  map.
* **Beacon timer** (`BeaconTimer`) and **temperature compensation** (`TempComp`): the exact conditions under
  which a 64-bit remainder computed in 32 bits, and a six-bit field updated by differences, are right.

Properties that do not hold unconditionally are stated as "if and only if" with the condition a caller can
check, beside a concrete input that breaks them: `ReorderWindow.StepWindow` and `ReorderLimits.OrderExact` with
the examples of `ReorderLimits` (stranding fallback, fallback on a held number, BlockAckReq that names a held
number), `BulkIn.CommandOverruns`, `ClientWdsRefinement.InvalidDoubles`,
`BeaconTimer.DefaultPeriodFails`, `TempComp.ErrorStays`.

`dafny verify dfyconfig.toml` checks everything.

Surroundings are parameters: clock comparisons are flags (`dueAll`, `dueOne`, `ageout` with a time),
allocation outcomes, room tests, adapter flags, other threads' packets, EEPROM tables and register contents
are arguments, all of them arbitrary.

Where code and comments disagree the model follows the code:

* `CLI_WDS_ENTRY_AGEOUT` is commented as seconds but is divided by 1000 before use
  (include/client_wds_cmm.h:36, common/client_wds.c:187).
* The comments in `BeaconUpdateExec` multiply HighPart by 0xFFFFFFFF; the code's `BeaconRemain` is the
  remainder of 2^32 (common/cmm_mac_usb.c:1565, 1694-1699).
* A recipient or originator scan that runs off the end returns a pointer to the last, busy entry
  (common/ba_action.c:754-787); coherence is what makes this branch unreachable.
* A BlockAckReq in the reset state compares 0xFFFF with the start number and so acts only for starts up to
  2047 (common/ba_action.c:1462).

## Model

| member | source | states |
|---|---|---|
| `SequenceNumbers.SmallerIsCloser` | include/mlme.h:1017-1018 | seen from any origin, SEQ_SMALLER on numbers within half the space compares their distances modulo 4096 |
| `SequenceNumbers.StepOneIsNext` | include/mlme.h:1017-1018 | SEQ_STEPONE holds exactly for the number one further from the origin |
| `SequenceNumbers.MaskIsMod` | include/rtmp.h:112 | masking with MAXSEQ is the remainder modulo 4096, for negative differences too |
| `Reorder.LeCount` | common/ba_action.c:387-413 | the le_seq scan stops at the first MPDU that is neither equal to nor smaller than the number |
| `Reorder.RunCount` | common/ba_action.c:353-385 | the in-order scan stops at the first MPDU that is not one step after its predecessor |
| `Reorder.InsertPos` | common/ba_action.c:162-189 | the insertion point follows exactly the leading smaller numbers |
| `Reorder.GrantedWindow` | common/ba_action.c:676-685 | the granted window is the smaller of request and limit, both counted in 8 bits, or 64 if that is none |
| `ReorderWindow.LeCountSplits` | common/ba_action.c:387-413 | on a list sorted by distance, le_seq takes exactly the MPDUs at most as far as the number |
| `ReorderWindow.RunIsContiguous` | common/ba_action.c:353-385 | in-order delivery takes the MPDUs at distances 1, 2, .. k and leaves nothing nearer than k + 2 |
| `ReorderWindow.InsertPosSplits` | common/ba_action.c:162-189 | the sorted walk splits the list into nearer MPDUs and those at least as far |
| `ReorderWindow.ArriveByCase` | common/ba_action.c:1858-1921 | the comparison chain of an arrival selects five ranges of distance from LastIndSeq |
| `ReorderWindow.SlideSpread` | common/ba_action.c:1897-1912 | after a window overrun everything held lies strictly between the new LastIndSeq and the frame |
| `ReorderWindow.RefreshWindow` | common/ba_action.c:416-438 | a refresh leaves an empty list in the reset state |
| `ReorderWindow.FlushOneWindow` | common/ba_action.c:472-491 | a flush-one keeps the window invariant and delivers nothing at or below the number it skips to |
| `ReorderWindow.BlockAckReqWindow` | common/ba_action.c:1462-1467 | every BlockAckReq keeps the window invariant, in the reset state too |
| `ReorderWindow.ArriveWindow` | common/ba_action.c:1846-1921 | an arrival keeps the window invariant if and only if it does not take the fallback with its successor held |
| `ReorderWindow.StepWindow` | common/ba_action.c:353-494 | over all events, the window invariant (reset implies empty; otherwise sorted by distance, distances 2..BAWinSize, qlen the length) is kept if and only if the event is not a stranding fallback |
| `ReorderWindow.StepWin` | common/ba_action.c:659-751 | only set-up and teardown change the window size |
| `ReorderEvents.TimeoutExact` | common/ba_action.c:450-491 | a timeout that is not due, or that finds an empty list, changes nothing, nor does the long one alone on a single MPDU; the long one passes up everything of a longer list and resynchronises; the short one skips one number and passes up exactly the run behind it |
| `ReorderEvents.BlockAckReqExact` | common/ba_action.c:1462-1467 | a BlockAckReq 1..2048 ahead of LastIndSeq passes up exactly what is held up to its start and sets LastIndSeq just before it; any other changes nothing; in the reset state it acts for starts up to 2047 |
| `ReorderEvents.SlideExact` | common/ba_action.c:1897-1912 | an overrunning frame first passes up exactly what falls out of the window and sets LastIndSeq BAWinSize behind the frame |
| `ReorderEvents.ResetExact` | common/ba_action.c:416-438 | set-up, teardown and the idle timeout pass up everything held, resynchronise and set the window |
| `ReorderOrder.StepOrder` | common/ba_action.c:353-494 | every clean event keeps what was passed up strictly increasing in the originator's unwrapped numbers, never moves LastIndSeq backwards, and a flush-one moves it forwards |
| `ReorderOrder.EpochIncreasing` | common/ba_action.c:353-413 | neighbouring increase extends to any two packets between two resynchronisations |
| `ReorderOrder.RepeatsDuplicates` | common/ba_action.c:1672-1686 | converse: a fallback on a number that is still held passes that number up twice |
| `ReorderOrder.NamesHeldDuplicates` | common/ba_action.c:1462-1467 | converse: after a BlockAckReq that names a held number, a retransmission of it is passed up again |
| `ReorderRuns.InOrderNoDuplicates` | common/ba_action.c:1858-1921 | over every run and every interleaving with sessions sharing the pool, packets between two resets go up in strictly increasing order |
| `ReorderRuns.RunWindow` | common/ba_action.c:1858-1921 | the window invariant over whole runs without a stranding fallback |
| `ReorderRuns.FreshTracked` | common/ba_action.c:706-718 | a session set up on an empty list meets the order invariant, whatever number comes first |
| `ReorderRuns.HoldingStep` | common/ba_action.c:442-494 | a held MPDU's distance never grows, and a flush-one lowers it |
| `ReorderRuns.HoldingIsBounded` | common/ba_action.c:442-494 | an MPDU at distance d survives at most d - 2 flush-ones, whatever else happens |
| `ReorderLimits.StrandsDuplicates` | common/ba_action.c:1672-1686 | converse: after a stranding fallback, a retransmission of the stranded number and a flush pass it up twice |
| `ReorderLimits.OrderExact` | common/ba_action.c:1462-1467 | an admitted event leaves the order safe for every good continuation if and only if it is clean: no fallback that strands the successor or repeats a held number, no BlockAckReq that names a held number |
| `ReorderLimits.WaitingIsReached` | common/ba_action.c:1846-1895 | a concrete run to the state from which the excluded events do harm |
| `ReorderLimits.WindowCanBeLost` | common/ba_action.c:1672-1686 | a concrete stranding fallback loses the window invariant |
| `ReorderLimits.FallbackCanRepeat` | common/ba_action.c:1672-1686 | a concrete fallback on a held number breaks the order |
| `ReorderLimits.BlockAckReqCanRepeat` | common/ba_action.c:1462-1467 | a concrete BlockAckReq that names a held number breaks the order |
| `ReorderRefinement.ArrivalRefines` | common/ba_action.c:1858-1895 | one arrival in or behind the window that, if it has to be enqueued, finds a block, keeps: passed up is the contiguous run of the set of arrivals, held is the rest; in-sequence and old frames need no block and may be EAPOL |
| `ReorderRefinement.RunRefines` | common/ba_action.c:1858-1895 | the same over every sequence of arrivals without a fallback, duplicates included |
| `ReorderRefinement.SortAndDedup` | common/ba_action.c:1858-1895 | without timeout, BlockAckReq or fallback the delivered stream is exactly the longest contiguous run after the start contained in the arrivals, each number once and by its first frame, and the list holds exactly the rest ahead of it, sorted |
| `ReorderAmpdu.OutsideExact` | common/ba_action.c:1793-1830 | an oversized frame or one of an unknown station is only dropped, a frame without a session only passed up |
| `ReorderAmpdu.WithoutTimeout` | common/ba_action.c:1841-1921 | with no timeout due a frame meets its session as it was left |
| `ReorderAmpdu.SysSortAndDedup` | common/ba_action.c:1780-1922 | sort-and-dedup through Indicate_AMPDU_Packet with no timeout due, while all other sessions do anything over the same pool |
| `ReorderConservation.DeliverConserves` | common/ba_action.c:353-385 | delivery moves packets from list to upper layer and their blocks to the pool, none lost |
| `ReorderConservation.InsertConserves` | common/ba_action.c:1629-1670 | an insertion moves one block into the list; a duplicate releases its packet and returns the block |
| `ReorderConservation.StepConserves` | common/ba_action.c:416-438 | every event, fallback included, accounts for each packet exactly once and each block exactly once; a block is lost if and only if an EAPOL MPDU reaches enqueue with a non-empty pool; teardown empties the list |
| `ReorderSystem.SysStepConserves` | common/ba_action.c:1780-1845 | one call on one session conserves packets and blocks over all sessions, early exits included, and loses a block exactly when its EAPOL frame reaches enqueue with a non-empty pool |
| `ReorderSystem.RunConserves` | common/ba_action.c:195-222 | over any run of all sessions each packet handed in is passed up, released, refused or held exactly once, blocks free, held and lost are those created, and as many are lost as calls lost one |
| `PoolSizing.BlockToSpare` | common/ba_action.c:326-340 | with one block more than the sum of BAWinSize - 1 over live sessions, the pool is never empty |
| `PoolSizing.InsertAssertion` | common/ba_action.c:1638-1669 | the code's assertion 0 <= qlen <= BAWinSize holds after every insertion, window overrun included |
| `PoolSizing.SysStepRoomy` | common/ba_action.c:1897-1920 | each EAPOL-free event keeps the pool sufficient and finds a block |
| `PoolSizing.PoolSuffices` | common/ba_action.c:326-340 | allocation never fails in any EAPOL-free run whose sessions fit the pool |
| `PoolSizing.InitialRoomy` | common/ba_action.c:280-324 | the state after initialisation meets the sizing condition |
| `RecipientSessions.QlenKept` | common/ba_action.c:416-438 | no event separates qlen from the list length, only arrivals fill a list, set-up and teardown leave it empty in the reset state |
| `RecipientSessions.RxStepLinked` | common/ba_action.c:659-751 | each event that finds its session through BARecWcidArray keeps table and sessions linked; frames only reach sessions with a granted window of 1..255; the assertion qlen == 0 of a set-up holds |
| `RecipientSessions.RxStepActs` | common/ba_action.c:1408-1470 | each event reaches the session that the cell of its station and TID names |
| `RecipientSessions.AddShape` | common/ba_action.c:659-751 | an added session has exactly the granted window, in the peer's own entry or a free one, and nothing else changes; a refused one changes nothing |
| `RecipientSessions.TearDownShape` | common/ba_action.c:988-1073 | a teardown frees exactly the peer's entry, or changes nothing if the DELBA could not be allocated |
| `RecipientSessions.RxRunLinked` | common/ba_action.c:988-1073 | the same along every run of ADDBA, DELBA, data, BlockAckReq, flush and idle events, those for a TID without a session included |
| `RecipientSessions.InitLinked` | common/mlme.c:2502-2521 | the initial table and sessions are linked |
| `ReorderingList.LinkedList.constructor` | common/ba_action.c:280-324 | the empty list |
| `ReorderingList.LinkedList.Enqueue` | common/ba_action.c:195-200 | the chain of next pointers gets the block in front, in place |
| `ReorderingList.LinkedList.Dequeue` | common/ba_action.c:205-222 | the chain loses its first block, whose next pointer is cleared |
| `ReorderingList.LinkedList.InsertSorted` | common/ba_action.c:162-189 | the relinked chain is the old one with the block at its sorted place, without cycle or loss, or unchanged for a duplicate |
| `ReorderingList.LinkedList.Search` | common/ba_action.c:165-184 | the walk through the pointer to a pointer ends before the first block that is not smaller |
| `ReorderingList.LinkedList.Link` | common/ba_action.c:186-188 | the three assignments put the block into the chain |
| `RxAdapter.Adapter.constructor` | common/ba_action.c:280-324 | initialisation puts every created block on the free list |
| `RxAdapter.Adapter.DeliverOne` | common/ba_action.c:205-222 | dequeue, pass up and return of the block, in place |
| `RxAdapter.Adapter.IndicateInOrder` | common/ba_action.c:353-385 | the loop delivers the contiguous run and returns its last number, or 0xFFFF for none |
| `RxAdapter.Adapter.IndicateLeSeq` | common/ba_action.c:387-413 | the loop delivers exactly the MPDUs at or below the number |
| `RxAdapter.Adapter.RefreshList` | common/ba_action.c:416-438 | the loop driven by qlen delivers the whole list and resets LastIndSeq |
| `RxAdapter.Adapter.InsertMpdu` | common/ba_action.c:162-189 | the walk on the list's contents inserts at the sorted place or reports a duplicate; the pointers under it are those of ReorderingList |
| `RxAdapter.Adapter.EnqueuePacket` | common/ba_action.c:1629-1687 | allocation, insertion, duplicate release and both fallbacks, against the step on values |
| `RxAdapter.Adapter.CatchUp` | common/ba_action.c:1864-1868 | LastIndSeq follows an in-order delivery |
| `RxAdapter.Adapter.FlushTimedOut` | common/ba_action.c:442-494 | flush-all, flush-one or nothing, by qlen and the two timeouts |
| `RxAdapter.Adapter.OnBar` | common/ba_action.c:1462-1467 | the BlockAckReq step in place |
| `RxAdapter.Adapter.IndicateFrame` | common/ba_action.c:1858-1921 | the five arrival cases in place |
| `RxAdapter.Adapter.IndicateAmpdu` | common/ba_action.c:1780-1922 | the size and WCID tests, the session test, the timeout flush, then the arrival |
| `RxAdapter.Adapter.ResetSession` | common/ba_action.c:1055-1072 | flush and new window at set-up and teardown |
| `RecipientTable.AllocIsFree` | common/ba_action.c:754-787 | in a coherent table a non-NULL allocation is a free entry, and NULL means there is none |
| `RecipientTable.AddKeeps` | common/ba_action.c:659-751 | adding a session keeps the table coherent |
| `RecipientTable.TearDownKeeps` | common/ba_action.c:988-1073 | tearing down keeps the table coherent and frees the session's entry |
| `RecipientTable.StepCoherent` | common/ba_action.c:865-892 | every event keeps: the counter counts busy entries, cells and entries are mutual inverses, the bitmap marks accepted sessions, whose windows are 1..255 |
| `RecipientTable.RunCoherent` | common/ba_action.c:659-751 | coherence along every run, and no event is out of range |
| `RecipientTable.ReachableCoherent` | common/ba_action.c:659-751 | coherence in every state reachable from the initial table |
| `RecipientTable.InitCoherent` | common/mlme.c:2502-2517 | the recipient half of the initial table is coherent |
| `OriginatorTable.AllocOriIsFree` | common/ba_action.c:790-822 | in a coherent table a non-NULL allocation is a free entry, and NULL means there is none |
| `OriginatorTable.SetUpKeeps` | common/ba_action.c:501-580 | a set-up keeps coherence; it starts in the slot it was given with token 1, or changes nothing |
| `OriginatorTable.AddOriKeeps` | common/ba_action.c:582-622 | a successful response keeps coherence, numDoneOriginator and the bitmap included |
| `OriginatorTable.AddOriExact` | common/ba_action.c:604-622 | a response for a waiting session sets Originator_Done, counts it and sets the bit, and nothing else; any other response changes nothing |
| `OriginatorTable.FreeOriKeeps` | common/ba_action.c:825-862 | freeing keeps coherence and leaves the entry free |
| `OriginatorTable.FreeOriExact` | common/ba_action.c:825-862 | freeing clears exactly the entry, its cell and its bit and adjusts both counters |
| `OriginatorTable.TearDownOriExact` | common/ba_action.c:895-985 | a teardown frees exactly the peer's session unless it is done and the DELBA could not be allocated |
| `OriginatorTable.FireExact` | common/ba_action.c:1135-1170 | a firing is ignored, put off, counted as one more request, or frees exactly the session of the entry's peer, by the four cases of the code |
| `OriginatorTable.FireKeeps` | common/ba_action.c:1103-1171 | a timer firing, stale or not, keeps coherence |
| `OriginatorTable.StepCoherent` | common/ba_action.c:895-985 | every event names existing entries and keeps both counters, the mutual inverses and the bitmap |
| `OriginatorTable.InitCoherent` | common/mlme.c:2508-2521 | the originator half of the initial table is coherent |
| `AddbaRetry.RunCoherent` | common/ba_action.c:501-580 | coherence along every run of the originator table, and no event is out of range |
| `AddbaRetry.ReachableCoherent` | common/ba_action.c:501-580 | coherence in every state reachable from the initial originator table |
| `AddbaRetry.RetryStep` | common/ba_action.c:1135-1170 | one event changes the token of a waiting entry by one exactly when it sends a request |
| `AddbaRetry.RetryBound` | common/ba_action.c:1135-1170 | a waiting entry with token c sends at most 8 - c requests and stops waiting after 9 - c undeferred firings |
| `AddbaRetry.SevenRequests` | common/ba_action.c:559-579 | a set-up causes at most 7 requests by timer, and the eighth firing ends it; deferred firings use up nothing |
| `BaTables.SessionTables.constructor` | common/mlme.c:2502-2521 | both halves start coherent |
| `BaTables.SessionTables.AllocRecEntry` | common/ba_action.c:754-787 | the scan in place, with its run off the end |
| `BaTables.SessionTables.RecSessionAdd` | common/ba_action.c:659-751 | in place, keeps both tables coherent |
| `BaTables.SessionTables.RecSessionTearDown` | common/ba_action.c:988-1073 | in place, keeps both tables coherent |
| `BaTables.SessionTables.AllocOriEntry` | common/ba_action.c:790-822 | the scan in place, with its run off the end |
| `BaTables.SessionTables.OriSessionSetUp` | common/ba_action.c:501-580 | in place, keeps both tables coherent |
| `BaTables.SessionTables.OriSessionAdd` | common/ba_action.c:582-622 | in place, keeps both tables coherent; a waiting session is done afterwards with its bit set |
| `BaTables.SessionTables.FreeOriEntry` | common/ba_action.c:825-862 | in place, keeps both tables coherent |
| `BaTables.SessionTables.OriSessionTearDown` | common/ba_action.c:895-985 | in place, keeps both tables coherent |
| `BaTables.SessionTables.OnSetupTimer` | common/ba_action.c:1103-1171 | in place; says whether a request is sent |
| `TxRingSafety.BeginRange` | common/cmm_data_usb.c:301-350 | a permitted write and its padding lie inside the buffer, short of NextBulkOutPosition, off the transfer in progress and off every committed packet |
| `TxRingSafety.CanWriteExact` | common/cmm_data_usb.c:322-345 | a write is permitted exactly when no other is under way and the stated room is free, and so from the initial state |
| `TxRingSafety.BeginInv` | common/cmm_data_usb.c:586-649 | the first locked phase keeps the invariant |
| `TxRingSafety.CopyInv` | common/cmm_data_usb.c:651-682 | the unlocked copy keeps the invariant |
| `TxRingSafety.CommitInv` | common/cmm_data_usb.c:684-711 | the second locked phase appends the packet to the committed queue, wrapping to 8 after a last-round packet |
| `TxRingLayout.WalkPlain` | common/rtusb_bulk.c:355-573 | the header loop over committed packets ends after as many as allowed, or at the write position |
| `TxRingLayout.WalkMarked` | common/rtusb_bulk.c:551-573 | the header loop ends the round at the packet marked TxInfoSwLstRnd, and never finds a bad length |
| `TxRingBulkOut.SecondTestIdle` | common/rtusb_bulk.c:305-309 | of the two tests for nothing to send, the second never holds on its own |
| `TxRingBulkOut.IdleExact` | common/rtusb_bulk.c:302-330 | the routine has nothing to do exactly when a transfer is in progress or no committed packet waits |
| `TxRingBulkOut.BulkOutActs` | common/rtusb_bulk.c:333-675 | otherwise it starts a transfer of the first packets, at least one, where the last one ended |
| `TxRingBulkOut.BulkOutInv` | common/rtusb_bulk.c:333-675 | a bulk-out keeps the invariant: it takes a prefix of the committed queue, with SavedPad the saved bytes come back |
| `TxRingRuns.StepInv` | common/cmm_data_usb.c:580-711 | every step of writers and consumer keeps the invariant |
| `TxRingRuns.CompleteInv` | os/linux/rt_usb.c:192-194 | completion clears the pending flag and nothing else |
| `TxRingRuns.WritesAreSafe` | common/cmm_data_usb.c:586-682 | every byte put down, header or payload, lies in a safe range |
| `TxRingRuns.RingIsSafe` | common/rtusb_bulk.c:259-675 | in every interleaving, for every buffer size up to 3906, all accesses are inside the buffer, writes touch neither a committed packet nor the transfer in progress, at most one writer is between its phases, packets are sent first in first out, and each transfer carries exactly their bytes |
| `TxRingRuns.FreshInv` | common/cmm_mac_usb.c:421-432 | the initial ring meets the invariant |
| `HtTxContext.TxContext.constructor` | common/cmm_mac_usb.c:421-432 | the initial context |
| `HtTxContext.TxContext.Move` | common/cmm_data_usb.c:629-634 | a byte copy into the buffer changes exactly its range |
| `HtTxContext.TxContext.CanDoWrite` | common/cmm_data_usb.c:301-350 | the four refusals |
| `HtTxContext.TxContext.BeginWrite` | common/cmm_data_usb.c:586-649 | the first locked phase in place |
| `HtTxContext.TxContext.CopySome` | common/cmm_data_usb.c:651-682 | part of the unlocked copy in place |
| `HtTxContext.TxContext.CommitWrite` | common/cmm_data_usb.c:684-711 | the second locked phase in place |
| `HtTxContext.TxContext.WalkHeaders` | common/rtusb_bulk.c:355-573 | the loop over packet headers |
| `HtTxContext.TxContext.LaunchTransfer` | common/rtusb_bulk.c:551-605 | mark cleared, position moved, 8 bytes saved and zeroed, in place |
| `HtTxContext.TxContext.BulkOutData` | common/rtusb_bulk.c:259-675 | the routine in place, up to the USB request |
| `HtTxContext.TxContext.BulkOutComplete` | os/linux/rt_usb.c:192-194 | completion clears the pending flag |
| `BulkIn.ParseProgress` | common/cmm_data_usb.c:1170-1208 | on any bytes, from a position inside the bulk-in data no read leaves the buffer, and a returned packet lies inside the data and advances the read position by at least 12, not past BulkInOffset |
| `BulkIn.CommandProgress` | common/cmm_data_usb.c:1211-1228 | a command response keeps the read position inside the data exactly when the length in its trailer does |
| `BulkIn.CommandOverruns` | common/cmm_data_usb.c:1211-1228 | a concrete command response that moves the read position past the data |
| `BulkIn.DrainStays` | sta/rtmp_data.c:1449-1455 | with command responses on another ring the receive loop stays inside the data, whatever the bytes |
| `BulkIn.RoundTrip` | common/cmm_data_usb.c:1170-1278 | from any concatenation of encoded records, lengths little-endian up to 65535, the data records come back one by one with their two info words, command responses are stepped over, and the read position ends at BulkInOffset |
| `BulkIn.ParseRecord` | common/cmm_data_usb.c:1211-1278 | one encoded record is returned whole, stepped over as a command response, or refused for its MPDU count or for want of memory |
| `BulkIn.ParseRefuses` | common/cmm_data_usb.c:1186-1208 | a length that is zero, not a multiple of 4 or larger than what is left is refused |
| `BulkIn.OverrunReadsOn` | common/cmm_data_usb.c:1172-1228 | behind a command response that overruns the data the loop reads on: a concrete buffer |
| `BulkIn.RxRing.GetPacket` | common/cmm_data_usb.c:1149-1285 | one call, from a read position inside or past the data, where the unsigned difference wraps; a read outside the transfer buffer is reported |
| `BulkIn.RxRing.DrainAll` | sta/rtmp_data.c:1449-1455 | the receive loop returns the packets of the whole buffer in order, going on behind command responses even where they overrun the data |
| `Amsdu.TurnOf` | common/cmm_data.c:1383-1468 | one turn of the loop on arbitrary bytes depends only on the bytes from the subframe on |
| `Amsdu.RoundTrip` | common/cmm_data.c:1383-1468 | every list of MSDUs with 15..1514 payload bytes, encoded with 4-byte padding, last one padded or not, is announced exactly and in order: with an LLC/SNAP header, given byte by byte, as an 802.3 frame, otherwise as the payload |
| `Amsdu.SnapExact` | include/rtmp.h:472-490 | which eight bytes are removed as an LLC/SNAP header, byte by byte |
| `Amsdu.AnnouncedExact` | include/rtmp.h:467-498 | the announced bytes of a subframe of any size, position by position |
| `Amsdu.TestsExact` | common/cmm_data.c:1396-1450 | a subframe is accepted up to 1518 payload bytes inside the data, and the loop goes on behind payloads of 15..1514 bytes that leave something over |
| `Amsdu.ClonedAll` | common/cmm_data.c:1438-1446 | if every clone succeeds all offered packets are announced |
| `Amsdu.ClonedAt` | common/cmm_data.c:1438-1446 | an offered packet is announced, behind those before it, exactly if its own clone succeeds |
| `Amsdu.Advance` | common/cmm_data.c:1383-1468 | a turn rewrites only its own subframe, so packets announced before still show their bytes |
| `Amsdu.AnnounceOne` | include/rtmp.h:467-498 | LLC/SNAP removal in place: the announced view shows the converted frame and nothing outside 22 bytes changes |
| `Amsdu.TakeSubframe` | common/cmm_data.c:1383-1468 | one turn in place: announced or not, and how far to step |
| `Amsdu.AnnounceAll` | common/cmm_data.c:1364-1475 | on arbitrary bytes the loop ends, every offered packet lies inside the data, those that could be cloned are announced, and at the end each view of the shared buffer shows the specified bytes |
| `TxDequeue.Classify` | common/cmm_data.c:736-810 | multicast exactly for the multicast WCID; low-rate packets and those for a sleeping HT peer are never aggregated; none under a Block Ack session is fragmented |
| `TxDequeue.ClassifyExact` | common/cmm_data.c:736-810 | the exact condition for each frame type, in the flags of packet, peer and adapter |
| `TxDequeue.TakenIsGreedy` | common/cmm_data.c:1130-1178 | a batch is the longest prefix in which each packet may follow those before it |
| `TxDequeue.AggregateIsFilled` | common/cmm_data.c:953-998 | with room, an A-MSDU takes every packet that may follow while the total is at most 3740, and a Ralink aggregate takes a second packet |
| `TxDequeue.BatchIsWellBatched` | common/cmm_data.c:953-998 | a batch has the type of its first packet unless an aggregate of one becomes legacy; a Ralink batch has 2 packets, an A-MSDU 2..250, others 1; no aggregate has a multicast or low-rate packet; an A-MSDU totals at most RX_BUFFER_AGGRESIZE - 100 if and only if its first packet is shorter than 65536 bytes |
| `TxDequeue.ServeKeepsOrder` | common/cmm_data.c:1056-1197 | at every point of the loop, whatever the surroundings do, the batches handed to hard transmit, followed by what is left, are the original queue followed by what was queued meanwhile, put-backs included |
| `TxDequeue.ServeWellBatched` | common/cmm_data.c:1056-1197 | every batch handed to hard transmit is well formed |
| `TxDequeue.ServeStops` | common/cmm_data.c:1064-1123 | the loop ends at the first turn with a reason (flag, quota, empty queue, no room, put-back) and for exactly that reason, the quota being compared with the packets sent modulo 256 |
| `TxDequeue.ServeQuota` | common/cmm_data.c:1080-1081 | with a quota of at most 6 the count cannot wrap, the loop ends within quota + 1 turns and sends at most 249 packets more than the quota; every caller passes 4 |
| `TxDequeue.Scheduler.constructor` | common/cmm_mac_usb.c:406-406 | empty queues |
| `TxDequeue.Scheduler.TakeBatch` | common/cmm_data.c:1094-1178 | one turn in place: room test, removal, put-back, aggregation |
| `TxDequeue.Scheduler.Extend` | common/cmm_data.c:1152-1175 | the inner loop in place |
| `TxDequeue.Scheduler.ServeQueue` | common/cmm_data.c:1064-1194 | the loop over one queue in place, with packets arriving while it is unlocked |
| `TxDequeue.Scheduler.Dequeue` | common/cmm_data.c:1044-1197 | one queue or the four access categories; busy queues are skipped and an adapter flag ends the call with later queues untouched |
| `ClientWds.Find` | common/client_wds.c:119-145 | the bucket walk finds the first entry with the address |
| `ClientWds.PartitionSplits` | common/client_wds.c:90-117 | what the free list holds is in no bucket |
| `ClientWdsRefinement.LookupRefines` | common/client_wds.c:119-145 | a lookup answers from the map, refreshes its entry and changes nothing else |
| `ClientWdsRefinement.InsertUnique` | common/client_wds.c:158-170 | an insertion keeps addresses unique if and only if the address was absent |
| `ClientWdsRefinement.UpdateKeeps` | common/client_wds.c:147-172 | an update always keeps the partition of the pool and every entry in its hash bucket, and keeps addresses unique if and only if it does not meet its address with an invalid index and a free entry |
| `ClientWdsRefinement.UpdateRefines` | common/client_wds.c:147-172 | an update is first-writer-wins on a map of at most 128 addresses |
| `ClientWdsRefinement.MaintainRefines` | common/client_wds.c:174-197 | maintenance removes exactly the aged entries, by the wrapping comparison of RTMP_TIME_AFTER |
| `ClientWdsRefinement.AgedExact` | include/os/rt_linux.h:565-568 | with 32-bit tick counts an entry counts as aged if and only if more than the age-out and at most half the range more has passed since its last use |
| `ClientWdsRefinement.EmptyRefines` | common/client_wds.c:32-58 | the initial table is the empty map |
| `ClientWdsRefinement.ApplyRefines` | common/client_wds.c:119-197 | every operation with valid indices answers and acts as on the map |
| `ClientWdsRefinement.RunRefines` | common/client_wds.c:32-197 | over every run with valid indices the table answers as the bounded map and stays a partition with unique addresses in their buckets |
| `ClientWdsRefinement.InvalidDoubles` | common/client_wds.c:155-170 | with any invalid index the same address is inserted twice |
| `ClientWdsTable.ProxyTable.constructor` | common/client_wds.c:32-58 | all pool entries on the free list, buckets empty |
| `ClientWdsTable.ProxyTable.ProxyLookup` | common/client_wds.c:119-145 | the walk in place |
| `ClientWdsTable.ProxyTable.ProxyUpdate` | common/client_wds.c:147-172 | lookup, allocation and insertion in place |
| `ClientWdsTable.ProxyTable.ProxyMaintain` | common/client_wds.c:174-197 | the loop over the buckets in place |
| `ClientWdsTable.ProxyTable.AgeBucket` | common/client_wds.c:182-195 | the loop over one bucket in place |
| `BeaconTimer.ElapsedExact` | common/cmm_mac_usb.c:1725-1728 | for every TSF and period the 32-bit computation equals TSF mod period if and only if the words it drops, times BeaconRemain, are a multiple of the period |
| `BeaconTimer.DeltaReachesTbtt` | common/cmm_mac_usb.c:1725-1729 | without overflow the delta is positive, at most a period, and TSF plus delta is a multiple of the period |
| `BeaconTimer.DefaultPeriod` | common/cmm_mac_usb.c:1564-1565 | with period 100 the result is right for every TSF up to about 2^52 |
| `BeaconTimer.DefaultPeriodFails` | common/cmm_mac_usb.c:1725-1728 | with period 100 it is wrong at 2^52 |
| `BeaconTimer.Beacon.constructor` | common/cmm_mac_usb.c:1561-1568 | BeaconRemain at set-up |
| `BeaconTimer.Beacon.UntilTbtt` | common/cmm_mac_usb.c:1725-1729 | the 32-bit arithmetic |
| `BeaconTimer.Beacon.UpdateExec` | common/cmm_mac_usb.c:1725-1743 | a beacon update is due after the computed TBTT and at most 10 ms late; otherwise the timer expires more than 54 ms before it |
| `TempComp.LevelMonotone` | chips/mt76x0.c:5141-5179 | a higher temperature never gets a lower compensation, whatever the boundary tables |
| `TempComp.LevelCounts` | chips/mt76x0.c:5141-5179 | with sorted tables the compensation is the step times the boundaries crossed |
| `TempComp.GetLevel` | chips/mt76x0.c:5123-5187 | the two search loops |
| `TempComp.EncodeExact` | chips/mt76x0.c:5254-5255 | a value survives the six-bit encoding if and only if it is in -32..31 |
| `TempComp.CompensateTracks` | chips/mt76x0.c:5244-5262 | one compensation replaces the previous one if and only if the sum fits in the field, and never touches other bits |
| `TempComp.CompensationDoesNotAccumulate` | chips/mt76x0.c:5239-5262 | over every run the field is the starting value plus the latest compensation after each step if and only if every such sum fits |
| `TempComp.ErrorStays` | chips/mt76x0.c:5244-5262 | a concrete sum that does not fit leaves an error behind |
| `TempComp.Compensator.constructor` | chips/mt76x0.c:5462-5479 | the initial compensation state |
| `TempComp.Compensator.Adjust` | chips/mt76x0.c:5190-5262 | the tables of the channel's group give the level, the register is updated by it; without a report or with the band off nothing changes |

## Left out

- The `_Hdr_Trns` copies of the reordering functions: the same algorithm a second time.
- Reordering: the tests on length, WCID and TID at the head of `CntlEnqueueForRecv`, and the conversion of a packet when it is announced.
- The timestamps that decide the two reordering timeouts: their outcomes are the arbitrary flags of a timeout event, so only what a flush does, not when, is proved.
- Session tables: `Content[w].Aid == w` and TID below `NUM_OF_TID` are assumed; MAC table deletion, the ADDBA and DELBA frames themselves, PSMP and the programming of hardware session masks are not modelled.
- TX ring: `RtmpUSB_WriteSubTxResource`, `RtmpUSB_WriteFragTxResource` and `RtmpUSB_FinalWriteTxResource`, the `USB_BULK_BUF_ALIGMENT` branches, failed or cancelled USB requests, and liveness; the transfer-size limits of the bulk-out loop are one arbitrary bound that lets the first packet through.
- Bulk-in: reads of a ring buffer that is not readable, and the big-endian branches.
- Amsdu.AnnounceAll: does not model the copy of an EAPOL frame to the management task; the buffer is taken to extend 8 bytes past the data, which the LLC/SNAP test of a very short last payload reads.
- Amsdu.RoundTrip: payloads of 15 to 1514 bytes, the range in which the loop's own tests accept a subframe and go on behind it.
- TX dequeue: the kick of the bulk-out pipe after a refused room test, release of the blocked network interface, and what hard transmit does with a batch.
- Client-WDS: an allocation failure of the pool, destruction of the table, and the 8-bit list sizes nobody reads; its lists are sequences, not pointer chains.
- ClientWdsRefinement.RunRefines: indices are valid WCIDs, the exact condition being that of `UpdateKeeps`.
- Beacon timer: the two TSF registers are read separately by the driver, one consistent value is taken here.
- Temperature compensation: loading of the boundary tables from EEPROM and their shift to the reference temperature, and other writers of `TX_ALC_CFG_1`.
- `BuildIntolerantChannelRep`, fragment reassembly, beacon and probe parsing, DLS, ioctls, calibration and register programming.
