# A verified model of the NVMeVirt core

NVMeVirt is a kernel module that behaves like an NVMe drive.  This project models the parts of it
that keep state over a whole run, and proves what that state keeps and what the host may rely on.

| file | what it models |
|---|---|
| `Geometry.dfy`, `Traversal.dfy` | the sizes of `ssd_init_params`, page addresses, and the two orders in which a line is walked: by the write pointer and by garbage collection |
| `IdLists.dfy`, `Wrappers.dfy` | lists and sets of ids, and `Option`: shared by the others |
| `VictimQueue.dfy` | the indexed min-heap `pqueue` over the line table, with keys changed in place |
| `FtlState.dfy`, `FtlInvariant.dfy`, `FtlGc.dfy`, `FtlSpace.dfy` | one partition of the page-mapping FTL as a value: its primitive steps, the invariant over all its tables, what a garbage collection achieves, and why free lines never run out |
| `ConvFtl.dfy` | the same partition as a class that updates tables, counters, lists and heap in place; every method is proved against the value model |
| `ReadPath.dfy`, `Namespace.dfy` | striping over partitions, the shared write buffer, `conv_write` and `conv_read` |
| `Provisioning.dfy` | runs of a partition as a value: exactly how many spare lines they need, and how many pages their collections copy |
| `Capacity.dfy` | from configured capacity and over-provisioning to the room the FTL needs |
| `ChannelModel.dfy` | the channel credit ring against an unbounded table of time slots |
| `IoQueue.dfy` | the work queue of an I/O worker: dispatcher and worker steps on two index-linked lists |
| `Zns.dfy` | zones: states, write pointers, open and active counters |
| `ZnsLayout.dfy` | the die, channel and LUN of each page of a zone |
| `KvIndex.dfy` | the key index: chained and linearly probed slots against a plain map |

How the main results fit together:

* **Free lines never run out.**  `FtlSpace.Inv` is the invariant at every page boundary: all tables agree
  (`FtlState.Core`), and the writable pages exceed the write credits by two lines and two pages.
  `FtlSpace.UserWriteSpends`, `RefillWithoutCollection` and `RefillAfterCollection` carry it over a page write
  and both kinds of refill; `FtlGc.GcHasRoom` says that a collection in progress finds a free line whenever it
  needs one.  `ConvFtl.Ftl.WritePage` puts this on the imperative code and `ConvFtl.Run` on every run from
  `conv_init_ftl`.  The one condition is `FtlSpace.Provisioned`: at least five lines, and fewer host LPNs than
  all but four lines hold, L < (T - 4) * P for L LPNs and T lines of P pages.  `Capacity.OverProvisioned` derives
  it from the configuration, for sizes that are the least to hold the capacity (`Geometry.SizesAreLeast`).
* **That condition is exact.**  `Provisioning.WorksIffProvisioned`: every page write of every run can be carried
  out, and finds a victim when its collection is due, if and only if L < (T - 4) * P.  A host of (T - 4) * P LPNs
  that writes each of them once uses up its credits with two free lines, no invalid page and nothing to collect;
  the original ignores that failure and grants the old refill again.  The range check of `conv_write` lets all
  T * P LPNs through.  From (T - 2) * P of them on there is a run to a state in which no page can be written any
  more: no line is free, and `advance_write_pointer` follows a null pointer (`Provisioning.TooManyLpnsGetStuck`).
  Whether that failure can also happen between (T - 4) * P and (T - 2) * P is open.
* **Collections are invisible and bounded.**  During a collection the tables agree up to the pages already
  scanned (`hole` and `moved` in `FtlState.Core`, `FtlGc.Mid`).  At its end the host reads what it read before,
  the victim is empty, and the space has grown by the victim's invalid pages (`FtlGc.GcEnds`).  Over every
  run its collections copy at most V pages for P - V pages that the host writes, where V = L / (T - 4)
  (`Provisioning.CopiesAreBounded`, and of the imperative code `ConvFtl.Run`).
* **No assert fires.**  The asserts of the write and collection path appear as proved assertions or as
  conclusions of lemmas (`InvalidateAsserts`, `WriteAsserts`, `Geometry.PgIdxInRange`).
* **Striping.**  A write changes exactly the LPNs that hold a block of it (`Namespace.TouchedLpns`, and of the
  imperative code `Namespace.Namespace.ConvWrite`), so that over a run an LPN reads as the last accepted write with
  a block on it left it (`Namespace.LastWriteWins`).  A read issues, stripe by stripe, one read for each maximal
  run of mapped pages in one flash page (`ReadPath.JoinedAreRuns`, `ReadPath.ReadAll`).
* **The write buffer** balances exactly for requests on page boundaries and for no others
  (`Namespace.BufferBalance`).  Over a run all its bytes are accounted for if and only if every accepted write
  was such a request, and which writes are accepted is told by the buffer alone (`Namespace.Run`).
* **The channel ring** answers as an unbounded table would (`ChannelModel.Run`), by earliest fit
  (`ChannelModel.ServeIsEarliestFit`), and in the bare transfer time where nothing else is due
  (`ChannelModel.IdleRequest`).  A request that has to wait is late by 4000 ns for each slot by which its earliest
  fit lies beyond the slots that its credits alone take (`ChannelModel.ContendedRequest`).  The 32-bit slot
  offset breaks this after 2^32 idle slots exactly if slots that still matter were skipped
  (`ChannelModel.TruncatedGap`).
* **The work queue** keeps its lists over every interleaving and does exactly what each step should, so that
  every accepted request is in the log, in the order of acceptance (`IoQueue.Worker.Run`); one pass followed by
  one reclaim recycles all that was due (`IoQueue.Worker.Turn`).
* **Zones** are, over every run, what the commands make of each zone by itself, although all share two counters;
  what was accepted since the last reset tiles a zone up to its write pointer (`Zns.Run`).  In such a run a zone is
  explicitly opened if and only if an accepted Open of it has not been ended since (`Zns.ExplicitlyOpenedIff`).
  A command that finds no buffer space is tried again, and an append has by then been given the block at the
  write pointer: it stays in its zone if and only if that zone is not written up to its end
  (`Zns.RetryStaysInZone`); otherwise it goes to the next zone.
* **Zone layout.**  Every page of a zone has a place on the drive exactly if `dies_per_zone` divides `tt_luns`
  or all zones fit side by side (`ZnsLayout.PlacesExistIff`), which nothing checks; both shipped configurations
  satisfy it (`ZnsLayout.ShippedLayouts`).
* **The key index** answers as a map after every command of a history if and only if no deletion cuts off a key:
  wipes a slot by way of which another stored key is looked up (`KvIndex.HistoryIsMapIff`).  The first that does is
  the first after which a lookup is wrong (`KvIndex.HistoryAgrees`).  In a table that only grew these are the slots
  with a `next_slot` (`KvIndex.DeleteKeepsOthersIff`).  `KvIndex.Run` puts this on the imperative code, which goes
  on until a new key is stored in a full table and the probing never ends.

A content stamp per physical page stands for the data, which the original moves by logical block address
outside the FTL (`io.c:109`).  Clock readings, the hash function, value offsets and the answers of buffers not
modelled are parameters.

Source paths are relative to the root of the repository.

## Model

| member | source | states |
|---|---|---|
| VictimQueue.RootIsLeast | pqueue/pqueue.c:170-178 | in heap order the root carries a least key |
| VictimQueue.SubtreeAuditIsExact | pqueue/pqueue.c:225-242 | the recursive audit of a subtree fails exactly when an edge inside it is out of order |
| VictimQueue.AuditIsExact | pqueue/pqueue.c:244-247 | `pqueue_is_valid` is true exactly when the heap order holds |
| VictimQueue.PullDown | pqueue/pqueue.c:61-67 | one turn of `bubble_up` keeps slots and positions inverse and the order outside the hole |
| VictimQueue.PullUp | pqueue/pqueue.c:93-98 | one turn of `percolate_down` does the same towards the leaves |
| VictimQueue.RoomForOneMore | pqueue/pqueue.c:104-129 | with a slot for each line the heap never has to grow |
| VictimQueue.Pqueue.constructor | pqueue/pqueue.c:14-42 | an empty heap with a slot for each line |
| VictimQueue.Pqueue.BubbleUp | pqueue/pqueue.c:56-71 | restores the heap when one line may be smaller than its ancestors; only positions change |
| VictimQueue.Pqueue.MaxChild | pqueue/pqueue.c:73-85 | the child of least key, or 0 for a leaf |
| VictimQueue.Pqueue.PercolateDown | pqueue/pqueue.c:87-102 | restores the heap when one line may be larger than its descendants |
| VictimQueue.Pqueue.Insert | pqueue/pqueue.c:104-129 | the heap holds one line more, and is a heap |
| VictimQueue.Pqueue.ChangePriority | pqueue/pqueue.c:131-142 | a key changed in place, up or down, leaves a heap of the same lines |
| VictimQueue.Pqueue.Remove | pqueue/pqueue.c:144-154 | any queued line leaves by its position, also the last one |
| VictimQueue.Pqueue.Pop | pqueue/pqueue.c:156-168 | a line of least key leaves, also from a heap of one; none from an empty heap |
| VictimQueue.Pqueue.Peek | pqueue/pqueue.c:170-178 | a queued line of least key, or none exactly when the heap is empty |
| Geometry.TwoTilings | ssd.c:98-107 | flash pages tile a block exactly as one-shot pages do |
| Geometry.InitParamsIsSound | ssd.c:68-159 | every accepted configuration with one plane per LUN that fits the address fields gives sizes that multiply up |
| Geometry.SizesAreLeast | ssd.c:68-159 | the sizes are as configured, and where they follow from the capacity the least that hold it: the smallest or the fewest blocks, the fewest one-shot pages to a block; all channels are dealt out to the partitions |
| Geometry.LinesMakeUpTheDrive | ssd.c:140-158 | `tt_pgs` is `tt_lines` times `pgs_per_line` |
| Geometry.PgIdxInRange | conv_ftl.c:37-51 | the assert of `ppa2pgidx` holds on every valid address |
| Geometry.PgIdxInjective | conv_ftl.c:37-51 | no two pages share an index |
| Geometry.PgIdxOnto | conv_ftl.c:37-51 | every index below `tt_pgs` belongs to a valid address |
| Geometry.PgIdxInOrder | conv_ftl.c:37-51 | pages are numbered by channel, LUN, block and page, in that order |
| Traversal.LineSize | ssd.c:154-158 | a line really holds `pgs_per_line` pages |
| Traversal.NextPlaceIsSuccessor | conv_ftl.c:224-248 | one advance goes to the successor in the order one-shot row, LUN, channel, page |
| Traversal.NextWpWalks | conv_ftl.c:224-248 | the pointer arithmetic follows that order and ends exactly at its last place |
| Traversal.VisitsEveryPageOnce | conv_ftl.c:215-281 | after `k` advances exactly `k` different pages are passed, and after `pgs_per_line` advances all of the line |
| Traversal.PageNumber | conv_ftl.c:215-281 | which page comes when: number `k` is ((row * LUNs + lun) * channels + ch) * pgs_per_oneshotpg + page, for every page of the line |
| Traversal.ScanCoversLine | conv_ftl.c:772-807 | the loops of `do_gc` scan every page of the victim |
| Traversal.BlockScannedBeforeErase | conv_ftl.c:785-790 | a block is erased only after all of its pages have been scanned |
| FtlState.TallyStep | conv_ftl.c:488-556 | one page changing status keeps line and block counters equal to the page counts |
| FtlState.LineSplits | conv_ftl.c:558-577 | free, invalid and valid pages make up a line |
| FtlInvariant.PageUnderPointer | conv_ftl.c:283-298 | the page under a write pointer is valid as an address, free, and outside the line being collected |
| FtlInvariant.FullLineIsListed | conv_ftl.c:513-531 | a line all of whose pages are valid is in the full list and has no invalid page |
| FtlInvariant.InvalidateAsserts | conv_ftl.c:488-533 | the asserts of `mark_page_invalid` hold |
| FtlInvariant.InvalidateKeepsCore | conv_ftl.c:976-984 | after the old copy is invalidated all tables agree, were the LPN unmapped |
| FtlInvariant.WriteKeepsCore | conv_ftl.c:986-998 | programming the page under the pointer and advancing it keeps all tables in agreement, also in the middle of a collection |
| FtlGc.WriteAsserts | conv_ftl.c:535-556 | the asserts of `mark_page_valid` and of the line turnover hold |
| FtlGc.ProgramTakesOnePage | conv_ftl.c:215-281 | a page write takes exactly one page of the writable space, whether or not the line turns over |
| FtlGc.VictimIsClosed | conv_ftl.c:645-666 | a victim is a closed line with no free and at least one invalid page |
| FtlGc.UnscannedIsMapped | conv_ftl.c:598-611 | during a collection an unscanned valid page is mapped both ways, although scanned ones need not be |
| FtlGc.GcHasRoom | conv_ftl.c:598-643 | a collection never needs a free line that is not there |
| FtlGc.GcCopies | conv_ftl.c:598-643 | copying one valid page leaves the host's view and the user's pointer as they were and uses one page of room |
| FtlGc.GcErases | conv_ftl.c:558-577 | erasing a scanned block of the victim keeps the collection's invariant |
| FtlGc.GcEnds | conv_ftl.c:742-751 | the host sees no change, the victim is free with zero counts and the last in the free list, before it is the rest of the old list, and the space has grown by the invalid pages of the victim |
| FtlGc.GcAchieves | conv_ftl.c:753-813 | the same for the collection as a whole, with a least-valid victim and exactly its valid pages copied, and no page of the victim mapped |
| FtlSpace.LivePagesAreMappedLpns | conv_ftl.c:26-66 | there are as many live pages as mapped LPNs |
| FtlSpace.CountersAddUp | conv_ftl.c:488-556 | the `vpc` of all lines add up to the number of mapped LPNs |
| FtlSpace.ClosedLines | conv_ftl.c:110-146 | free lines, closed lines and the two lines being written make up the drive |
| FtlSpace.EmptiestClosedLine | conv_ftl.c:645-666 | the emptiest closed line holds at most an even share of the mapped pages |
| FtlSpace.ReserveHoldsFreeLine | conv_ftl.c:168-182 | the reserve implies a free line whenever a pointer may need one |
| FtlSpace.CollectionIsPossible | conv_ftl.c:815-822 | with the credits used up and few free lines, a victim can be collected |
| FtlSpace.CollectionPaysOff | conv_ftl.c:645-666 | that victim has at most V = L / (T - 4) valid pages, and an invalid one |
| FtlSpace.WorthCollecting | conv_ftl.c:645-656 | a collection that is not forced takes place exactly if at most an eighth of the emptiest queued line is valid, a forced one whenever a line is queued |
| FtlSpace.MaxCopiesIsShare | conv_ftl.c:645-666 | that V is the even share, rounded down |
| FtlSpace.UserWriteKeepsCore | conv_ftl.c:971-998 | the LPN reads as the new data, every other LPN as before, and the tables agree |
| FtlSpace.UserWriteSpends | conv_ftl.c:971-1011 | a page write spends one credit and keeps the reserve |
| FtlSpace.RefillWithoutCollection | conv_ftl.c:100-108 | with three free lines the refill granted before is still backed by pages |
| FtlSpace.RefillAfterCollection | conv_ftl.c:753-813 | a collection pays for the refill it grants |
| FtlSpace.FreshIsSound | conv_ftl.c:332-358 | the state after `conv_init_ftl` satisfies the whole invariant and reads as empty |
| ConvFtl.Ftl.constructor | conv_ftl.c:332-358 | `conv_init_ftl` builds that state |
| ConvFtl.Ftl.InitLines | conv_ftl.c:110-146 | every line is free, in the order of the ids, and the heap is empty |
| ConvFtl.Ftl.GetNextFreeLine | conv_ftl.c:168-182 | the head of the free list, or none exactly when it is empty |
| ConvFtl.Ftl.MarkPageValid | conv_ftl.c:535-556 | page status, block and line counters as in the value model |
| ConvFtl.Ftl.MarkPageInvalid | conv_ftl.c:488-533 | as in the value model, with the key of a queued line changed inside the heap and a full line moved into it |
| ConvFtl.Ftl.AdvanceWritePointer | conv_ftl.c:215-281 | the next place, or the used-up line filed and the first free line taken |
| ConvFtl.Ftl.ProgramPage | conv_ftl.c:986-998 | mapping, status and pointer after a page write, shared by host writes and copies |
| ConvFtl.Ftl.SelectVictimLine | conv_ftl.c:645-666 | a line with the fewest valid pages; none if nothing is queued, or if not forced and it is more than an eighth valid |
| ConvFtl.Ftl.MarkBlockFree | conv_ftl.c:558-577 | all pages of the block are free and its counters zero |
| ConvFtl.Ftl.MarkLineFree | conv_ftl.c:742-751 | the counters of the line are zero and it is the last of the free list |
| ConvFtl.Ftl.GcWritePage | conv_ftl.c:598-643 | one page of the victim copied; the collection's invariant is kept |
| ConvFtl.Ftl.CleanOneFlashpg | conv_ftl.c:693-740 | the valid pages of one flash page of the victim copied, and no others |
| ConvFtl.Ftl.CleanLine | conv_ftl.c:772-807 | every valid page of the victim copied and every block of it erased |
| ConvFtl.Ftl.DoGc | conv_ftl.c:753-813 | none exactly if there is nothing worth collecting; else `Collected`: view unchanged, victim least valid and free, space grown, refill set to its invalid pages |
| ConvFtl.Ftl.ForegroundGc | conv_ftl.c:815-822 | with the credits used up a needed victim is always found, collected exactly if two free lines or fewer are left, its valid pages are what is copied, and the coming refill is backed by pages |
| ConvFtl.Ftl.CheckAndRefillWriteCredit | conv_ftl.c:100-108 | credits are positive again and the invariant holds |
| ConvFtl.Ftl.WritePage | conv_ftl.c:971-1013 | one iteration of the write loop: the LPN reads as the new content, all others as before, the invariant holds again, the new state is one that `Provisioning.Turn` allows, and the copy counter grows by the copies of that turn |
| ConvFtl.Ftl.WriteCostIsBounded | conv_ftl.c:753-822 | at any time the copy counter that `WritePage` keeps is within the bound for the pages written so far |
| ConvFtl.Run | conv_ftl.c:925-1025 | every run of page writes from a fresh drive: no step fails, each LPN reads as last written, the states form a run in the sense of `Provisioning.IsRun`, and the pages copied are those of its collections and within the bound |
| ReadPath.GroupFits | conv_ftl.c:824-831 | different pages of one flash page are at most `pgs_per_flashpg`; this is where an injective `maptbl` matters |
| ReadPath.FlashPageIsWhole | conv_ftl.c:824-831 | the pages that share a flash page with a given one are as many as a flash page holds, itself among them |
| ReadPath.JoinedAreRuns | conv_ftl.c:893-908 | the reads for a list of pages are its maximal runs in one flash page: each begins with the first page of its run, is as large as the run, and the next is in another flash page |
| ReadPath.StripeInOrder | conv_ftl.c:879 | the loop visits the LPNs of the stripe in order, each `nr_parts` above the one before |
| ReadPath.PagesOfSplits | conv_ftl.c:879-891 | the pages of two pieces of a stripe are those of one followed by those of the other |
| ReadPath.PagesOfOne | conv_ftl.c:883-891 | an LPN has its page if it is mapped, and is passed over otherwise |
| ReadPath.StripePagesAre | conv_ftl.c:879-891 | the pages of a stripe, each once, are those of its mapped LPNs |
| ReadPath.ReadsOfStripe | conv_ftl.c:879-917 | the reads of a stripe take one page for each mapped LPN, each at most a flash page, and cover them all |
| ReadPath.ReadStripe | conv_ftl.c:873-917 | the issued reads are those of the runs of the mapped pages of the stripe, in order; their bytes are one page for each mapped LPN, and none is more than a flash page |
| ReadPath.StripeIsResidue | conv_ftl.c:873-883 | a stripe is exactly the LPNs of one remainder, all in one partition |
| ReadPath.VisitedOnce | conv_ftl.c:873-909 | when the stripes run out every LPN of the request has been on one of them, and on no other |
| ReadPath.StripesCover | conv_ftl.c:873-909 | so no mapped LPN of the request is missed |
| ReadPath.ReadAll | conv_ftl.c:873-918 | one list of reads for each stripe, and these are the runs of its mapped pages; the bytes are one page for each mapped LPN of the request, and each of these pages is read |
| Namespace.AccountStep | conv_ftl.c:1000-1009 | a page write moves one page from waiting to waiting or pending, or a whole one-shot page to pending |
| Namespace.WholePages | conv_ftl.c:936-937 | the blocks of a request are those of its pages exactly if it starts and ends on page boundaries |
| Namespace.TouchedLpns | conv_ftl.c:936-937 | the LPNs from the first to the last are exactly those that hold a block of the request |
| Namespace.InDriveIff | conv_ftl.c:950-955 | the guard lets a request through if and only if all LPNs with a block of it exist |
| Namespace.OverwriteRewrites | conv_ftl.c:971-998 | overwriting from the first LPN on changes the LPNs with a block of the request and no other |
| Namespace.BufferBalance | conv_ftl.c:961-1007 | the buffer balances if and only if the request starts and ends on page boundaries; otherwise more is given back than taken |
| Namespace.OneBlockDrift | conv_ftl.c:961-1007 | a write of one 512-byte block gives 3584 bytes too many back |
| Namespace.Namespace.constructor | conv_ftl.c:376-420 | fresh partitions, nothing mapped, the buffer accounted for |
| Namespace.Namespace.BufferAllocate | ssd.c:21-37 | all or nothing |
| Namespace.Namespace.BufferRelease | ssd.c:39-47 | a pending release comes back and the total is unchanged |
| Namespace.Namespace.WriteStriped | conv_ftl.c:971-998 | LPN `l` is local LPN `l / nr_parts` of partition `l % nr_parts`; no other LPN changes, there or in another partition |
| Namespace.Namespace.WriteLpn | conv_ftl.c:971-1012 | the same with the buffer: one page more accounted for |
| Namespace.Namespace.ConvWrite | conv_ftl.c:925-1025 | accepted exactly if in range and with room; then each LPN that holds a block of the request reads as written and no other LPN changes; else nothing at all changes; the buffer accounts for the touched pages |
| Namespace.Namespace.Perform | conv_ftl.c:925-1025 | a write command or a release: taken exactly if the range and the free bytes allow it; the buffer's bytes stay accounted for if and only if an accepted write is of whole pages, and are never fewer |
| Namespace.Run | conv_ftl.c:925-1025 | every run of write commands and releases: which are accepted follows from the buffer arithmetic alone, the namespace reads as the accepted writes left it, and the bytes of the buffer are all accounted for if and only if every accepted write is of whole pages |
| Namespace.LastWriteWins | conv_ftl.c:971-998 | an LPN reads as the last accepted write with a block on it left it |
| Namespace.NeverWritten | conv_ftl.c:971-998 | an LPN on which no accepted write has a block is not mapped |
| Namespace.Namespace.TablesSayWhatIsMapped | conv_ftl.c:873-885 | the stripes over the mapping tables are the mapped LPNs of the namespace |
| Namespace.Namespace.ConvRead | conv_ftl.c:833-923 | refused exactly past the drive; else each mapped LPN with a block of the request has its page read, one page of bytes each, in one read for each run of pages of a stripe in one flash page |
| Provisioning.ProvisionedWorks | conv_ftl.c:971-1011 | under the invariant the next page write can be carried out and a collection due after it has a victim |
| Provisioning.TurnKeepsInv | conv_ftl.c:971-1013 | one turn of the write loop keeps the invariant, however its collection places the pages it copies |
| Provisioning.TurnIsFifo | conv_ftl.c:168-182 | lines are used in the order in which they became free: after a turn the free list is the rest of the old one, with at most the collected line behind it |
| Provisioning.NothingInvalid | conv_ftl.c:645-666 | where no page is invalid there is nothing to collect |
| Provisioning.FillStep | conv_ftl.c:971-1013 | writing the next LPN for the first time is a turn without a collection and leaves one page less |
| Provisioning.FillingStarves | conv_ftl.c:100-108 | at LPN number (T - 4) * P of that run the credits are used up, two lines are free, and nothing can be collected |
| Provisioning.WorksIffProvisioned | conv_ftl.c:753-822 | every page write of every run works, with a victim for each collection due, if and only if the LPNs fill less than the lines but four |
| Provisioning.PackStep | conv_ftl.c:971-1013 | with no line free a rewrite of LPN 0 takes a page of the user's line and a credit |
| Provisioning.TooManyLpnsGetStuck | conv_ftl.c:168-281 | a host of as many LPNs as all lines but two hold can reach a state in which no page can be written any more |
| Provisioning.CopiesAreTheVictims | conv_ftl.c:753-813 | the copies that a turn is charged are the valid pages of a least valid victim |
| Provisioning.TurnIsBalanced | conv_ftl.c:971-1013 | one turn keeps the account of writes, credits, refills and copies |
| Provisioning.CopiesAreBounded | conv_ftl.c:753-822 | over every run copies * (P - V) <= V * pages written, the copies summed over its collections |
| Capacity.NotEveryGuardedLpnFits | conv_ftl.c:950-955 | at most `tt_pgs` - 2 LPNs can be mapped at a time, although the check lets `tt_pgs` through |
| Capacity.PagesHoldTheCapacity | ssd.c:68-143 | the rounded-up sizes hold the capacity of a partition |
| Capacity.PagesExceedLittle | ssd.c:68-143 | and exceed it by less than a one-shot page for each block, and where the block size is configured by less than a block more for each die |
| Capacity.NamespaceInLpns | conv_ftl.c:367-420 | the namespace is the largest that leaves `pba_pcent` percent of it as physical space; each of its pages is a local LPN below the number counted, and a smaller number would not do |
| Capacity.OverProvisioned | conv_ftl.c:367-420 | a bound on `pba_pcent` under which the FTL has its four spare lines |
| Capacity.SevenPercentSuffice | ssd_config.h:73-103 | the SAMSUNG_970PRO configuration meets it for every capacity |
| Capacity.Samsung970ProWorks | ssd_config.h:73-103 | with 64 GiB that configuration gives sizes, spare lines and a fresh drive that meet every assumption made here |
| ChannelModel.DrainShape | channel_model.c:86-106 | slots before the last are emptied, later ones untouched, none gives more than it has |
| ChannelModel.DrainIsEarliestFit | channel_model.c:86-106 | the last slot is the first by which the slots hold enough, or the row holds too little |
| ChannelModel.EarliestFitIsUnique | channel_model.c:86-106 | and it is the only such slot |
| ChannelModel.RefillIsShift | channel_model.c:46-55 | refilling in two parts at the wrap is moving the window |
| ChannelModel.ShiftAgrees | channel_model.c:42-57 | the moved window agrees with the table |
| ChannelModel.TruncatedGap | channel_model.c:43-44 | where the 32-bit offset is truncated, the ring is right if and only if the slots not passed were full |
| ChannelModel.TruncatedGapExample | channel_model.c:43-44 | 2^32 idle slots after one used slot, it is wrong |
| ChannelModel.DrainIsServe | channel_model.c:79-106 | taking credits from the window is taking them from the table |
| ChannelModel.ServeIsEarliestFit | channel_model.c:79-106 | earliest fit and conservation in the unbounded table |
| ChannelModel.HorizonDoesNotMatter | channel_model.c:94-102 | a request that is met does not depend on the size of the ring |
| ChannelModel.ServeKeepsBound | channel_model.c:86-91 | no slot ever holds more than `max_credits` |
| ChannelModel.IdleHasNoExtraDelay | channel_model.c:83-119 | in a row that is full from the request on no extra delay is found |
| ChannelModel.IdleRequest | channel_model.c:31-120 | a request whose slot and all later ones are untouched is done after the transfer time of its units, up to the truncation of that product |
| ChannelModel.ContendedRequest | channel_model.c:79-120 | a request that is met ends 4000 ns later than its transfer time for each slot by which the first slot to hold enough lies beyond those that its credits alone would take |
| ChannelModel.UnmetRequest | channel_model.c:94-120 | one that is not met is delayed as if by the last slot of the ring |
| ChannelModel.WaitsForSlots | channel_model.c:79-120 | behind `k` used-up slots a request of less than a slot ends `k` slots later than on an idle channel |
| ChannelModel.SecondRequestWaits | channel_model.c:31-120 | at 800 MiB/s 3328 bytes use up a slot, and 128 bytes asked for at the same time end after 4152 ns |
| ChannelModel.UnitsCover | channel_model.c:39 | the units cover the length with less than one to spare, below the 32-bit limit |
| ChannelModel.TxTimeFits | channel_model.h:40 | the transfer time of a unit is the time it takes at that bandwidth, rounded down |
| ChannelModel.MaxCredits | channel_model.h:41-42 | the whole units that pass in one slot at that bandwidth |
| ChannelModel.Channel.constructor | channel_model.c:16-29 | credits and transfer time of the bandwidth; the ring stands for the full table, if `max_credits` fits its bytes |
| ChannelModel.Channel.MoveHead | channel_model.c:42-57 | the window after the move, and the valid length |
| ChannelModel.Channel.TakeCredits | channel_model.c:79-112 | the window after taking credits, the delay, and the valid length |
| ChannelModel.Channel.Request | channel_model.c:31-120 | one request is served, and answered, as the table would |
| ChannelModel.Run | channel_model.c:31-120 | so is every sequence of requests from `chmodel_init`, with the credits and the transfer time of the bandwidth |
| IoQueue.InsertKeepsSorted | io.c:264-274 | inserting behind what is due already or earlier keeps the order by max(target, latest) |
| IoQueue.LinkEntry | io.c:276-290 | relinking keeps `prev` and `next` inverse along the list and the two lists a partition of the array |
| IoQueue.TakeFree | io.c:294-315 | the test for the last free entry is exact |
| IoQueue.SpliceKeepsLists | io.c:416-432 | moving a prefix to the free list keeps both lists |
| IoQueue.ListedEntry | io.c:406-413 | for a listed entry the three tests before reclaiming come down to `is_completed` |
| IoQueue.AdvanceStaysOn | io.c:622-630 | following `next`, even off an entry recycled under the worker, leads to a listed or a completed entry |
| IoQueue.ProgressIsTransitive | io.c:622-693 | what cannot be undone by one step cannot be undone by many |
| IoQueue.SortedIsDueFirst | io.c:264-274 | in the sorted list what is due at a time stands before what is not |
| IoQueue.TurnRecycles | io.c:403-432 | no request due when the pass began is left |
| IoQueue.Worker.constructor | io.c:744-761 | all entries free, chained in order |
| IoQueue.Worker.AllocateWorkQueueEntry | io.c:294-315 | the head of the free list; the last entry stays |
| IoQueue.Worker.FindPlace | io.c:262-274 | the place behind the last entry due already or not later |
| IoQueue.EqualTargetsInTurn | io.c:262-274 | of requests due at the same time the one accepted first stands first |
| IoQueue.Worker.LinkBehind | io.c:276-290 | head, tail and middle insertion relink exactly the neighbours |
| IoQueue.Worker.InsertReqSorted | io.c:248-292 | the entry is in the list behind all that is due already or not later, and both lists are intact |
| IoQueue.Worker.Enqueue | io.c:317-386 | accepted exactly if two entries are free, listed at its place and logged as neither completed nor recycled; a refused request changes nothing |
| IoQueue.Worker.Reclaim | io.c:388-437 | exactly the completed prefix, up to the first entry that is not completed, is recycled, in order |
| IoQueue.Worker.Visit | io.c:622-693 | copied now if it was not, completed exactly if not completed before and due; one completion posted for it |
| IoQueue.Worker.Advance | io.c:628-693 | the worker goes to `next` and stays on a listed or completed entry |
| IoQueue.Worker.Pass | io.c:619-694 | a whole pass copies every listed request and completes all that were due when it began |
| IoQueue.Worker.Turn | io.c:388-437 | a pass and a reclaim recycle every accepted request due when the pass began |
| IoQueue.StepInWords | io.c:317-736 | a step adds the accepted request to the log and the time of a visit to the clock, and takes nothing back |
| IoQueue.RequestChanges | io.c:388-693 | a request changes only by a visit, which copies it and, if it is due, completes it at the time of the visit, or by being recycled |
| IoQueue.Worker.Perform | io.c:317-736 | one step of dispatcher or worker does exactly what it should to lists, log, clock and completions |
| IoQueue.Worker.Run | io.c:598-736 | over every interleaving each step is exact, the log grows by the accepted requests in their order and the clock by the visits made; each request is completed at most once, after its copy, not before its target, and recycled only then |
| Zns.UsersUpdate | zns_ftl.h:63-87 | a zone changing state changes the number of holders by what it held and holds |
| Zns.HeldIsCounted | zns_ftl.h:73-78 | the assert of `release_zone_resource`, which the build leaves out, would hold: no counter underflows |
| Zns.NeverShort | zns_ftl.c:64-82 | with totals of `nr_zones` no resource is ever short |
| Zns.TilesCover | zns_read_write.c:17-39 | the accepted pieces cover each block below the write pointer once, and no other |
| Zns.BoundaryIsEnd | zns_read_write.c:12-15 | the boundary check says that the write stays below the end of the zone, so the error branch of `__increase_write_ptr` is dead |
| Zns.WriteReasons | zns_read_write.c:107-168 | each error code of a write has its own reason: length or start, the end of the zone, a zone that takes no writes |
| Zns.ManagedKeeps | zns_mgmt_send.c:7-175 | an accepted action takes a transition the zone state machine allows and keeps counters, pointer and pieces |
| Zns.ActionsInWords | zns_mgmt_send.c:7-175 | state by state where each action takes a zone, with closing a closed zone and opening an opened one among the successes, and where it is refused |
| Zns.AllOpened | zns_mgmt_send.c:272-278 | select-all open leaves every empty, opened or closed zone explicitly opened and the others as they were |
| Zns.AllGivenBack | zns_mgmt_send.c:272-274 | select-all reset or finish gives all resources back, select-all close all open ones |
| Zns.ZnsFtl.constructor | zns_ftl.c:10-82 | every zone empty with its pointer at its start, the counters zero |
| Zns.ZnsFtl.ReleaseZoneResource | zns_ftl.h:73-78 | one less acquired, the total unchanged |
| Zns.ZnsFtl.AcquireZoneResource | zns_ftl.h:63-71 | one more acquired exactly if one is available |
| Zns.ZnsFtl.SendCloseZone | zns_mgmt_send.c:7-29 | succeeds exactly on opened and closed zones, which are closed then; an opened zone gives back the open resource |
| Zns.ZnsFtl.SendFinishZone | zns_mgmt_send.c:31-64 | full from every state but read-only and offline; an opened zone gives back both resources, a closed one the active one |
| Zns.ZnsFtl.SendOpenZone | zns_mgmt_send.c:66-106 | explicitly opened if the missing resources are available; refused in full, read-only and offline zones, or for want of one named resource; then nothing changes |
| Zns.ZnsFtl.SendResetZone | zns_mgmt_send.c:108-156 | empty with the pointer at the start; an opened zone gives back both resources, a closed one the active one |
| Zns.ZnsFtl.SendOfflineZone | zns_mgmt_send.c:158-175 | offline, and only from read-only and offline |
| Zns.ZnsFtl.SendToZone | zns_mgmt_send.c:230-258 | the same with the invariant and the accepted pieces |
| Zns.ZnsFtl.SendToAll | zns_mgmt_send.c:272-278 | each zone is managed or left alone by its own state when nothing is short, and loses its accepted pieces exactly by a reset that applies |
| Zns.ZnsFtl.Send | zns_mgmt_send.c:260-285 | the zone of the block reaches the state of the action if it succeeds, or each zone is sent it; the accepted pieces change only where a reset applies, and there to none |
| Zns.ZnsFtl.OpenForWrite | zns_read_write.c:126-168 | the zone is open afterwards exactly if it can be; else the reason is given and nothing changes |
| Zns.ZnsFtl.IncreaseWritePtr | zns_read_write.c:17-39 | the pointer moves on; at the end the zone is full and gives both resources back |
| Zns.ZnsFtl.Write | zns_read_write.c:64-170 | without buffer space it is to be retried, an append at the write pointer; else accepted exactly if aligned, at the write pointer, inside the zone and affordable, and then the piece joins the accepted ones; else nothing changes and the status tells the reason |
| Zns.ZnsFtl.Perform | zns_read_write.c:64-170 | with totals of `nr_zones` every zone, its pieces and the answer are those of the zone by itself |
| Zns.Run | zns_read_write.c:64-170 | over every run of writes, appends and commands each zone and each answer is what the zone by itself would give; the pieces accepted since the last reset tile the zone up to the write pointer; no zone becomes read-only or offline, and no command fails for want of a resource |
| Zns.OpeningStep | zns_mgmt_send.c:66-106 | by one command a zone becomes explicitly opened exactly by an accepted Open, implicitly exactly by a write while empty or closed, and stops being opened exactly by a close, finish, reset or filling |
| Zns.ExplicitlyOpenedIff | zns_mgmt_send.c:66-106 | in a run a zone is explicitly opened if and only if an accepted Open of it has not been followed by a close, finish, reset or filling |
| Zns.ImplicitlyOpenedBy | zns_read_write.c:126-152 | a zone implicitly opened was so by an accepted write while empty or closed, and nothing opened or ended it since |
| Zns.StateStep | zns_read_write.c:17-39 | by one command a zone becomes empty, closed or full, and its pointer moves, exactly by the commands that say so |
| Zns.RetryStaysInZone | zns_read_write.c:87-105 | a command tried again for want of buffer space addresses the same zone if and only if it is no append or the zone is not written up to its end |
| Zns.RetriedAppendMovesOn | zns_read_write.c:87-105 | an append to a zone written up to its end is refused, but accepted by the next zone if it had to wait first |
| ZnsLayout.LpnIsPageOfZone | zns_read_write.c:41-62 | `__lpn_to_ppa` places an LPN as a page of its zone |
| ZnsLayout.FirstDie | zns_read_write.c:48 | if the dies divide evenly a zone starts on a multiple of `dies_per_zone` and fits |
| ZnsLayout.NextZone | zns_read_write.c:48 | then a zone begins on the die behind the last one of the zone before it, or again on the first |
| ZnsLayout.NextDie | zns_read_write.c:51-52 | consecutive dies lie on consecutive channels, and behind the last channel on the next LUN of the first |
| ZnsLayout.OneshotPagesInTurn | zns_read_write.c:48-60 | a one-shot page lies on one die, and the next on the next die of the zone, going round |
| ZnsLayout.PlacesExistIff | zns_read_write.c:48-52 | all pages of all zones have an existing LUN if and only if `dies_per_zone` divides `tt_luns` or the zones fit side by side |
| ZnsLayout.ShippedLayouts | ssd_config.h:107-202 | in both shipped zoned configurations every page of every zone has a place |
| ZnsLayout.ZonesShareNoDie | zns_read_write.c:48-52 | then zones that start on different dies share none |
| KvIndex.InsertKeepsLinks | kv_ftl.c:200-232 | filling a slot and linking it keeps the chains free of cycles |
| KvIndex.InsertKeepsOthers | kv_ftl.c:164-232 | other keys are found where they were |
| KvIndex.InsertIsFound | kv_ftl.c:164-232 | the new key is found from its hash slot |
| KvIndex.InsertAgrees | kv_ftl.c:200-266 | after inserting an absent key lookups agree with the extended map, for present and absent keys |
| KvIndex.DeleteLosesPassing | kv_ftl.c:480-483 | a deletion loses exactly the keys whose lookup comes past the slot |
| KvIndex.DeleteAgreesIff | kv_ftl.c:438-492 | after a deletion lookups agree with the smaller map if and only if no other stored key is looked up by way of the slot |
| KvIndex.DeleteAtEndAgrees | kv_ftl.c:438-492 | at the end of a chain that is so |
| KvIndex.DeleteKeepsOthersIff | kv_ftl.c:480-483 | in a table that only grew, the others stay reachable if and only if the slot has no `next_slot` |
| KvIndex.DeleteLosesAKey | kv_ftl.c:480-483 | a two-slot table where a deletion loses another key |
| KvIndex.FreeSlotIff | kv_ftl.c:180-185 | a slot is free, so that probing ends, if and only if the map has fewer keys than the table has slots |
| KvIndex.RoomLeft | kv_ftl.c:180-185 | so it is with fewer insertions than slots, whatever was deleted |
| KvIndex.KvFtl.constructor | kv_ftl.c:1049-1056 | every slot free, the map empty |
| KvIndex.KvFtl.GetMappingEntry | kv_ftl.c:320-436 | the entry of the key, or an unused one exactly for a key not in the map |
| KvIndex.KvFtl.FindNextSlot | kv_ftl.c:164-198 | the tail of the chain and the first free slot behind it, going round |
| KvIndex.KvFtl.NewMappingEntry | kv_ftl.c:200-266 | the new entry in slot `hash(key) % slots` if that is free, else in the first free slot behind the tail of its chain and linked from it; lookups agree with the extended map |
| KvIndex.KvFtl.UpdateMappingEntry | kv_ftl.c:268-318 | only the length of that key changes; fails exactly for an absent key |
| KvIndex.KvFtl.DeleteMappingEntry | kv_ftl.c:438-492 | the slot is wiped, link and all; lookups agree with the smaller map if and only if no other stored key is looked up by way of it, in particular if it ended its chain |
| KvIndex.KvFtl.Store | kv_ftl.c:505-540 | insert if absent, else a new length only between small values, also in a full table and in one that lost keys |
| KvIndex.KvFtl.Perform | kv_ftl.c:488-640 | store, retrieve, exist and delete do exactly `Stepped`; while lookups agree with the map they reply as it, and go on agreeing unless a deletion cuts off another key |
| KvIndex.StepAgrees | kv_ftl.c:488-640 | an index that stands for a map replies as it, and stands for the next one if and only if the command cuts off no key |
| KvIndex.HistoryAgrees | kv_ftl.c:488-640 | up to and including the first command that cuts off a key a history is answered as by a plain map; after it some lookup is wrong |
| KvIndex.HistoryIsMapIff | kv_ftl.c:488-640 | after every command of a history all lookups answer as a plain map, if and only if no command cuts off a key |
| KvIndex.KvFtl.Serve | kv_ftl.c:164-640 | a command, unless it stores a new key in a full table, where the probing would not end |
| KvIndex.Run | kv_ftl.c:488-640 | with the given hash and number of slots, any commands form a history that goes on until a new key meets a full table; if none cuts off a key, the replies are those of a plain map, which then has a key for each slot |

## Left out

- ConvFtl.Run: assumes that the host keeps to its LPNs (`Provisioned`); the capacity a host sees implies it, the check in `conv_write` does not. `Provisioning` says exactly when a due collection can fail to find a victim, for drives of five lines or more; from which number of LPNs on a starved drive can also run out of lines is known only to lie between (T - 4) * P and (T - 2) * P.
- ConvFtl.Ftl.MarkBlockFree: does not model `erase_cnt`, which nothing reads.
- ConvFtl.Ftl.constructor: the nested NAND arrays are maps from page and block addresses, and the intrusive lists of lines are sequences of line ids; aliasing between list nodes is not captured.
- ConvFtl.Ftl.DoGc: the NAND commands it issues only produce times and are left out; so are the LUN's `gc_endtime` and the verbose messages.
- Namespace.Namespace.ConvWrite: completion times are left out; the worker queue is assumed to take every release (a full queue drops it, `io.c:362-364`, and those bytes are lost).
- Namespace.Namespace.ConvRead: the times and the firmware latencies are left out; the sizes and addresses of the issued reads are kept.
- VictimQueue.RoomForOneMore: growing the array (`pqueue/pqueue.c:112-120`) is left out, because it cannot happen with one slot for each line.
- ChannelModel.Channel.Request: when a 32-bit slot offset is truncated only `TruncatedGap` says what happens; a clock that goes back is excluded by `requires`.
- IoQueue.Worker.Enqueue: one enqueue is one step; the worker seeing a half-linked entry is below this grain, as is the choice of the worker. Command identifiers, status and time statistics are left out.
- Zns.ZnsFtl.Perform: assumes totals of `nr_zones`, which `zns_ftl.c:64-82` sets; what happens with fewer is said by `Send` and `Write`.
- IoQueue.Worker.Run: clock readings do not go back; completion order between requests is not claimed, because a pass reads the clock per entry.
- Zns.ZnsFtl.Write: assumes a block inside the namespace (the original indexes `zone_descs` unchecked), takes the buffer's answer as a parameter and stops before the NAND model; the buffer of a refused write is not given back by the original and not modelled.
- Zns.ZnsFtl.SendOpenZone: without the random write area (ZRWA), whose counter is not given back when `__increase_write_ptr` fills a zone; `__zns_write_zrwa` and the explicit flush are left out with it.
- KvIndex.KvFtl.Store: keys of one length (the original compares only the length of the query), values and their allocator left out; iterators and batches too.
- KvIndex.KvFtl.NewMappingEntry: requires a free slot, without which the original probes for ever.
- `clean_one_block` and `should_gc` (`conv_ftl.c:16-19`, `conv_ftl.c:669-690`) are not called.
- NAND, PCIe and firmware latencies (`ssd.c:336-454`): the FTL state does not depend on them.
- 32-bit counters of the FTL: `Geometry.Sound` keeps page counts below 2^31, so they do not wrap.
- Administration, PCI, interrupts, DMA, PRP walking and procfs: plumbing around the modelled core.
- `simple_ftl.c`, `append_only.c`, `bitmap.c`, `zns_mgmt_recv.c`: only small properties.
