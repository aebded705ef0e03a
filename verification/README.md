# ShieldStore: a verified model

ShieldStore keeps an encrypted, authenticated hash table outside an enclave and serves it with a
dispatcher and several workers. It carries its own copy of tcmalloc and of tools around it. This
project models five parts of the code in Dafny and proves what they keep in every run.

1. **The store.** `Bytes`, `KeyHash`, `Crypto`, `Requests` hold the data formats. `Table` is the table
   as a value: chains, MAC buffers, roots, and the reconstruction of the aggregate from before an
   update. `TableProofs` shows that each operation refines a map from keys to values and keeps the
   roots right. `ShieldStore` has the operations in place, on arrays. `Workers` and `WorkersProofs`
   take all interleavings of dispatcher and workers, with no table lock; `AppendSlip` is one run of
   theirs; `Partition` holds the arithmetic this rests on.
2. **The HotCalls handshake**, any number of requesters and one responder: `HotCalls`.
3. **The allocator.** `SpanLayout`, `PageCount`, `CommitLedger` and `PageHeap` are the page heap;
   `PageMap3` the radix map; `CentralList`, `CentralCache` and `CentralProofs` the central free lists
   with the transfer cache, over all interleavings of threads and classes; `SpanLists` and
   `ObjectLists` the linked lists below both.
4. **The leak checker.** `AddressMap` is the address index with the search for interior pointers,
   `LeakFlood` the mark phase.
5. **Two buffers.** `ProfileData` is the profile collector, `FreeRing` the ring of blocks to be freed.

`Collections` holds what several of them share.

A protocol between threads is a machine: a state, the steps each thread may take, and the
invariant all of them keep. A section under a lock is one step. Components called history in the
comments record what happened; no step depends on them. An object that the source updates in place
is a class whose methods are proved against functions on values.

Where the code and what it seems to promise differ, the code is modelled as it is:

- APPEND under `mac_opt` writes the MAC slot with the chain's index instead of the mirrored one.
  `AppendSlip.RunFails` gives a run in which the root check then fails; `AppendMirrorsIff`,
  `AppendReconstructsIff` and `AppendCheckIff` in `TableProofs` give the exact condition under which
  the code does right. Replies and the contents of the table are right in any case, root checks are
  proved to pass in groups where no such APPEND has happened, and `WorkersProofs.EveryRunChecks`
  says exactly when one fails in any group.
- In aggressive mode the ledger loses bytes in two ways. A merge whose release is refused loses those
  of decommitted neighbours: `PageHeap.RefusedReleaseLosesBytes` is such a heap, and
  `PageHeap.Heap.FreeSpan` and `CommitLedger.MergeBalancedIff` say exactly when. Releasing the last
  normal span of a list decommits it twice if both tries work, and takes its bytes off twice:
  `PageHeap.SecondReleaseLosesBytes` is such a heap, and `PageHeap.Heap.ReleaseLastNormalSpan` says
  exactly when.
- A request accepted before the responder is stopped and not yet picked up waits for ever:
  `HotCalls.Stranded`. `HotCalls.StrandingRun` is such a run, and `HotCalls.ReturnsIff` says
  exactly which waiting requests can still return.
- Partition arithmetic is right only under divisibility: `Partition.OwnerInRangeIff` and
  `Partition.GroupsStayTogetherIff` are exact.

Nothing here was executed; every claim is one that the verifier checks. `dafny verify dfyconfig.toml`
checks the whole project.

## Model

| member | source | states |
|---|---|---|
| `WorkersProofs.EveryRunCorrect` | Enclave/Enclave.cpp:296-437 | In every state of every interleaving of dispatcher and workers from the empty table: each worker's answers are, in order, a prefix of those of running the whole dispatch log on one plain map; a stopped worker has answered exactly what was queued before its quit; every root group that is not between a write and its rebuild, whatever happened to it, has sealed entries whose MACs recompute, no key twice, and reads as the map of the log cut to what its worker has completed; no root check has failed in a group without a misaligned APPEND (so none at all with `mac_opt` off), and such a group is authenticated by its root. |
| `WorkersProofs.EveryRunChecks` | Enclave/core.cpp:264-293 | In every run the rebuild after a write reports failure if and only if the root was not right in the table its worker had searched, taken as the rebuild takes it (a MAC slot that an overwrite replaces counts as true, an APPEND as undone); a GET reports failure if and only if the root is not right in the table it reads. |
| `WorkersProofs.WorkersNeverStuck` | Enclave/Enclave.cpp:296-365 | In every reachable state a worker with a job queued or in the middle of one can take a step; after a search it can if and only if the request fits, that is, unless it is a SET of a new key into a full MAC buffer or a GET of a value longer than a reply. |
| `WorkersProofs.QuitReachesAll` | Enclave/Enclave.cpp:387-406 | Once the dispatcher, having begun to send quits, takes requests again, every worker has a quit in its queue or has stopped. |
| `WorkersProofs.EveryRunInBounds` | Enclave/core.cpp:145-278 | In every reachable state the rebuild that follows a write is in bounds, and a write that follows a search is blocked by nothing but a full MAC buffer. |
| `WorkersProofs.FootprintsDisjoint` | Enclave/Enclave.cpp:371-437 | Requests routed to different workers share no bucket, MAC buffer or root, which is what replaces a table lock. |
| `WorkersProofs.LocalAnswersAgree` | Enclave/Enclave.cpp:296-365 | The answers of one worker running only its own requests are its part of the answers of running all requests on one map. |
| `WorkersProofs.StepKeeps` | Enclave/Enclave.cpp:296-437 | Each of the twelve kinds of step keeps the invariant over all workers and all root groups. |
| `Partition.OwnerInRangeIff` | Enclave/Enclave.cpp:371-437 | The division that picks a worker stays in range for every bucket if and only if the number of workers divides the table size. |
| `Partition.GroupsStayTogetherIff` | Enclave/core.cpp:72-139 | No root is shared by two workers if and only if the group size divides a worker's share of the table. |
| `Partition.Owner` | Enclave/Enclave.cpp:428 | When the division is exact, each worker has one stretch of consecutive buckets, all stretches equally long. |
| `TableProofs.SetCorrect` | Enclave/Enclave.cpp:53-144 | A SET changes one bucket, maps the key to the value and no other key differently, keeps chains free of duplicates and hints right, and on an intact group passes the root check and leaves the group intact, in both layouts. |
| `TableProofs.GetCorrect` | Enclave/Enclave.cpp:149-199 | A GET hits exactly the keys of the map, decrypts to key, value and terminators, the entry's MAC recomputes, and on an intact group the root check passes. |
| `TableProofs.AppendCorrect` | Enclave/Enclave.cpp:204-291 | An APPEND to a present key concatenates; the group stays intact when `mac_opt` is off or the position is its own mirror. |
| `TableProofs.SetAtRebuilds` | Enclave/core.cpp:145-278 | After an overwrite or an insert, in both layouts and whether or not the stored root was right, the rebuild reconstructs the aggregate from before it: it accepts if and only if that root was right, then stores the root of the new table, and otherwise changes nothing. |
| `TableProofs.SetCheckIff` | Enclave/core.cpp:248-278 | The same on any table whose MAC buffer has the right length, even if the overwritten MAC slot held something else: the rebuild after a SET accepts if and only if the root was right for the table with that slot made true. |
| `TableProofs.AppendDecides` | Enclave/core.cpp:248-278 | The rebuild after an APPEND accepts if and only if the stored root is that of the table with the APPEND undone as the rebuild undoes it; then it stores the root of the new table, and otherwise it changes nothing. |
| `TableProofs.SetKeepsIntact` | Enclave/core.cpp:145-278 | The rebuild after a SET on an intact group accepts the stored root and writes the new one. |
| `TableProofs.PreviousAfterOverwrite` | Enclave/core.cpp:248-262 | Putting the previous MAC back at the touched index of the new aggregate gives the old aggregate. |
| `TableProofs.PreviousAfterInsert` | Enclave/core.cpp:224-247 | Dropping the touched index of the new aggregate gives the old aggregate. |
| `TableProofs.AggSplit` | Enclave/core.cpp:72-139 | A group's aggregate is the concatenation of what comes before a bucket, the bucket's MACs and what comes after. |
| `TableProofs.SetKeepsMirror` | Enclave/ht.cpp:136-176 | A SET keeps a bucket's MAC buffer the exact reversal of the chain's MACs. |
| `TableProofs.AppendMirrorsIff` | Enclave/ht.cpp:181-204 | Under `mac_opt` an APPEND keeps the reversal if and only if the position is its own mirror or the MACs involved coincide. |
| `TableProofs.AppendReconstructsIff` | Enclave/ht.cpp:181-204 | The rebuild after an APPEND under `mac_opt` reconstructs the old aggregate if and only if the position is its own mirror or the overwritten slot held the new MAC. |
| `TableProofs.AppendCheckIff` | Enclave/core.cpp:248-278 | On an intact group and short of a MAC collision, the root check after an APPEND under `mac_opt` passes if and only if the position is its own mirror or the overwritten slot held the new MAC. |
| `AppendSlip.RunFails` | Enclave/core.cpp:264-270 | From any empty table of one bucket under `mac_opt`, a run of dispatcher and worker fed SET a, SET b and APPEND b, whose last step is a rebuild that finds the root wrong. |
| `Table.HintSearchAgrees` | Enclave/ht.cpp:32-99 | The search by key hint finds the same position as the search that decrypts every entry. |
| `Table.MatchesIff` | Enclave/core.cpp:12-36 | A sealed entry matches a key if and only if it is the sealing of that key. |
| `Table.SealOpens` | Enclave/core.cpp:298-330 | Opening a sealed entry gives back its key and value. |
| `Table.SealedVerifies` | Enclave/core.cpp:335-364 | A sealed entry's MAC recomputes from its stored fields, and the counter block of a search that hit is the entry's, advanced over its length. |
| `Crypto.MacInputInjective` | Enclave/core.cpp:298-364 | The authenticated byte string determines cipher text, counter block, hint and both lengths. |
| `KeyHash.HtHash` | Enclave/ht.cpp:18-29 | The hash loop computes the bucket of the key, within the table. |
| `KeyHash.KeyHashFunc` | Enclave/ht.cpp:3-14 | The hash loop computes the key's one-byte hint. |
| `KeyHash.HashesArePolynomials` | Enclave/ht.cpp:3-29 | Unless the accumulator saturates, bucket and hint are the polynomials of the key in 61 and in 11 with leading coefficient 7, modulo the word, then modulo the table size and 256. |
| `KeyHash.SaturatedPrefixCollides` | Enclave/ht.cpp:18-29 | A prefix at which the accumulator saturates fixes the bucket of every extension. |
| `KeyHash.SaturatingKeyCollides` | Enclave/ht.cpp:18-29 | An eleven-character key that saturates the accumulator: all its extensions share one bucket, in a table of any size. |
| `Requests.ParseFormat` | Enclave/Enclave.cpp:75-84 | Parsing a formatted request gives back operation, key and value, and the line sent back on a miss is the request with the blank after the key overwritten by NUL. |
| `Requests.ParseLayout` | Enclave/Enclave.cpp:75-84 | Of any buffer made of a tag, any number of blanks, a key, optionally a blank and a value, a terminator and anything behind: key and value are read off, and the buffer left behind differs from it in one byte, the blank after the key, if there is one. |
| `Requests.WellFormedLayout` | Enclave/Enclave.cpp:75-84 | Every well-formed buffer has this layout, with the key and value that parsing finds. |
| `Requests.TagRead` | Enclave/Enclave.cpp:330-338 | A buffer is read as an operation if and only if it starts with the tag of it, in upper or in lower case. |
| `Requests.KeyFits` | Enclave/Enclave.cpp:75-84 | The key of a well-formed request is a C string that fits a reply. |
| `ShieldStore.PlainSearch` | Enclave/ht.cpp:74-97 | The decrypting search loop returns the first position that holds the key, or the chain length. |
| `ShieldStore.HintSearch` | Enclave/ht.cpp:46-71 | The search loop that compares hints before decrypting returns the position of the specification. |
| `ShieldStore.Shield.HtGet` | Enclave/ht.cpp:32-99 | Position, hit, plain text and updated counter block of a search; the position is the chain length on a miss. |
| `ShieldStore.Shield.HtSet` | Enclave/ht.cpp:124-178 | Entry overwritten in place or put at the chain's head, and its MAC slot written, as the specification says. |
| `ShieldStore.Shield.HtAppend` | Enclave/ht.cpp:181-204 | Entry overwritten and MAC slot `kv_pos` written, as the code does. |
| `ShieldStore.Shield.CountGroup` | Enclave/core.cpp:165-205 | The counting loops give the aggregate's length, the number of MACs before the bucket and the bucket's own number. |
| `ShieldStore.Shield.FillGroup` | Enclave/core.cpp:178-221 | The filling loops write exactly the group's aggregate. |
| `ShieldStore.Shield.VerifyTreeRoot` | Enclave/core.cpp:283-293 | True exactly when the root is the MAC of the aggregate. |
| `ShieldStore.Shield.RebuildTreeRoot` | Enclave/core.cpp:145-278 | Result and new root are those of the specification's rebuild, about which `TableProofs.SetCheckIff` and `TableProofs.AppendDecides` say when it accepts. |
| `ShieldStore.PreviousMacs` | Enclave/core.cpp:223-262 | The buffer of the previous aggregate, by replacing or leaving out one MAC. |
| `ShieldStore.Shield.EnclaveSet` | Enclave/Enclave.cpp:53-144 | The whole table reads as the map with the SET applied and the reply is the specified one; the check passes if and only if the root was right before, as the rebuild takes that table; if it passes the group's root is right, if not all roots are as before; an intact table stays intact. |
| `ShieldStore.Shield.EnclaveGet` | Enclave/Enclave.cpp:149-199 | The reply is the value of the map or the echoed request; on a hit the check passes if and only if the root is the MAC of the aggregate, and nothing changes. |
| `ShieldStore.Shield.EnclaveAppend` | Enclave/Enclave.cpp:204-291 | The whole table reads as the map with the APPEND applied, and a miss changes nothing; the check passes if and only if the root was right for the table with the APPEND undone; if it passes the group's root is right, if not all roots are as before; an aligned APPEND keeps an intact table intact. |
| `HotCalls.ExactlyOnce` | Common/hot_calls.h:81-178 | From the state in which it returned and in every later state of every run: a request that returned a retry count has had its callback run exactly once with its own callID and data, or not at all if the table has no such entry; one that returned -1 has not run. |
| `HotCalls.CodeIsRetries` | Common/hot_calls.h:81-125 | Every result returned in any run: the request began at some step; if it returned -1 it has tried eleven times since and found the record busy each time; otherwise it tried once more than the number it returned, and only the last try found the record free. |
| `HotCalls.BusyIffOneWaits` | Common/hot_calls.h:81-125 | In every state of every run the record is busy exactly when a requester waits, and never two wait. |
| `HotCalls.NeverExitsMidCall` | Common/hot_calls.h:127-171 | When the responder has exited, a waiting request has either been run completely or not at all. |
| `HotCalls.Stranded` | Common/hot_calls.h:127-178 | A request accepted, not done and not picked up, when the responder has exited or been told to stop before it looks again, stays waiting in every later state and never runs. |
| `HotCalls.ReturnsIff` | Common/hot_calls.h:81-178 | In every state of every run, a waiting request can still return, in some continuation of the run, unless it is lost in this sense, and if it is lost it cannot. |
| `HotCalls.StrandingRun` | Common/hot_calls.h:81-178 | A run of four steps from any initial state that leaves a request waiting, not done, with the responder gone. |
| `HotCalls.StepKeeps` | Common/hot_calls.h:81-178 | Every step of requesters, responder and StopResponder keeps the protocol invariant. |
| `PageHeap.Heap.New` | Enclave/gperftools/gperftools-2.5/src/page_heap.cc:117-170 | Returns an in-use span of exactly n pages and leaves every other span in use untouched. The span is taken from the front of the one the search picks: the first normal one of its length, the first returned one only if there is no normal one, the address-ordered best fit among the large ones. With no limit, and a free span that is long enough, it succeeds without asking the system and takes the shortest; if no span is but neighbouring free pages are, and memory is scattered as the code judges it, it merges them instead of asking, unless a release is refused. It fails only on a request too large for an address, when the system refused memory during this call, or when the limit cannot hold n pages more or the system refused a release. |
| `PageHeap.Heap.Delete` | Enclave/gperftools/gperftools-2.5/src/page_heap.cc:307-322 | The span's pages become free and are merged with free neighbours; every other span in use is untouched and all invariants hold; the ledger keeps its bytes if and only if the mode is not aggressive, or the release works or meets no decommitted neighbour and the scavenging decommits nothing twice. |
| `PageHeap.Heap.FreeSpan` | Enclave/gperftools/gperftools-2.5/src/page_heap.cc:307-320 | Freeing up to the scavenging: the bytes lost from the ledger are exactly those of decommitted neighbours when an aggressive release is refused, and none otherwise. |
| `PageHeap.Heap.Split` | Enclave/gperftools/gperftools-2.5/src/page_heap.cc:230-246 | Cuts an in-use span into two in-use spans of the requested lengths. |
| `PageHeap.Heap.Carve` | Enclave/gperftools/gperftools-2.5/src/page_heap.cc:264-305 | Takes the front of a free span and relists the leftover, without coalescing it, and keeps all invariants. |
| `PageHeap.Heap.MergeIntoFreeList` | Enclave/gperftools/gperftools-2.5/src/page_heap.cc:331-409 | Merges with both neighbours, keeps spans in use, and moves the four counters exactly as the ledger function says for the outcome the system gave. |
| `PageHeap.Heap.GrowHeap` | Enclave/gperftools/gperftools-2.5/src/page_heap.cc:598-652 | Adds a fresh region as a free span of at least n pages; fails only if n is too large for an address, the system refused memory during this call, or the limit leaves no room even after releasing. Without a limit it succeeds if and only if n is not too large and the system gives the first piece, of at least 256 pages, or refuses it and gives a smaller one, and the page map gets its memory; the first piece, if given, is a free span of that length. |
| `PageHeap.Heap.AllocLarge` | Enclave/gperftools/gperftools-2.5/src/page_heap.cc:172-228 | Takes the address-ordered best fit among all free spans of 256 pages and more, as they are at the attempt that takes it, with at most one retry under a limit; a best fit that is normal is taken at once whatever the limit; without a limit, or if the limit is met at the start, the lists are those at the start; failure under a limit means that n pages do not fit it or no large span left is long enough. |
| `PageHeap.Heap.BestFit` | Enclave/gperftools/gperftools-2.5/src/page_heap.cc:172-210 | The result is the address-ordered best fit over both large lists, and the flag says whether it is normal. |
| `PageHeap.ScanList` | Enclave/gperftools/gperftools-2.5/src/page_heap.cc:180-208 | Scanning one list keeps the best fit of everything seen so far. |
| `PageHeap.Heap.SearchFreeAndLargeLists` | Enclave/gperftools/gperftools-2.5/src/page_heap.cc:82-113 | A span of n pages, cut from the front of the first normal span of the length chosen, or of the first returned one only if there is no normal one, or of the best fit among the large ones, in the heap at the attempt that takes it; without a limit that is the heap at the start and the shortest length that fits; a normal span of the first length that has any is taken at once whatever the limit; fails only if no free span is long enough, the limit cannot hold n pages more, or the system refused a release. |
| `PageHeap.ReturnedLast` | Enclave/gperftools/gperftools-2.5/src/page_heap.cc:82-113 | If the span picked is a returned one of fewer than 256 pages, no normal span of its length was free. |
| `PageHeap.Heap.RegisterSizeClass` | Enclave/gperftools/gperftools-2.5/src/page_heap.cc:526-536 | Records the class and maps every interior page of the span. |
| `PageHeap.Heap.ReleaseLastNormalSpan` | Enclave/gperftools/gperftools-2.5/src/page_heap.cc:464-477 | Moves the last span of a list to the returned lists, merged, and reports its length; reports 0 if and only if the system refused that very release. The ledger loses exactly the bytes of the span if, in aggressive mode, this try and the next both work, and nothing otherwise; so a balanced ledger stays balanced if and only if they do not both work. |
| `PageHeap.Heap.ReleaseAtLeastNPages` | Enclave/gperftools/gperftools-2.5/src/page_heap.cc:479-500 | Terminates; releases at least the request unless nothing normal is left or the system refused a release during this call, and reports exactly what moved from free to unmapped; the ledger loses bytes if and only if some span was decommitted twice. |
| `PageHeap.Heap.EnsureLimit` | Enclave/gperftools/gperftools-2.5/src/page_heap.cc:502-524 | True exactly when n more pages keep the heap within its limit; when release is allowed and it still fails, nothing normal is left or the system refused a release; a limit already met changes nothing; the ledger loses bytes if and only if some span was decommitted twice. |
| `PageHeap.Heap.IncrementalScavenge` | Enclave/gperftools/gperftools-2.5/src/page_heap.cc:433-462 | It releases if and only if the pages freed have used up the wait and releasing is enabled; then it releases a span unless none is left or the system refuses, and the next wait is that of `Delay` for what was released. Spans in use and all invariants are kept; the ledger loses bytes if and only if some span was decommitted twice. |
| `PageHeap.Heap.Delay` | Enclave/gperftools/gperftools-2.5/src/page_heap.cc:449-461 | The wait is 1000 pages for each page released divided by the rate, rounded down and at most 2^20, and 2^18 if nothing was released. |
| `PageHeap.Heap.NoStretchNow` | Enclave/gperftools/gperftools-2.5/src/page_heap.cc:142-160 | When everything free has been released and no span is long enough, no n neighbouring pages are free at all, so merging cannot help any more. |
| `PageHeap.Heap.MaximallyCoalesced` | Enclave/gperftools/gperftools-2.5/src/page_heap.cc:324-409 | In every valid state no two neighbouring free spans may be merged under the mode. |
| `PageHeap.Heap.DescriptorsRight` | Enclave/gperftools/gperftools-2.5/src/page_heap.h:136-140 | The page map gives the span at both ends of every live span and at every page of a registered one, stale entries notwithstanding. |
| `PageHeap.Heap.CountersAreTrue` | Enclave/gperftools/gperftools-2.5/src/page_heap.cc:411-431 | `free_bytes` and `unmapped_bytes` are the bytes of the recorded pages in normal and returned spans, no counter is above `system_bytes`, and none is negative as long as no bytes are lost. |
| `PageHeap.Heap.LedgerExact` | Enclave/gperftools/gperftools-2.5/src/page_heap.cc:331-409 | In every valid state `unmapped + committed` falls short of `system` by exactly the lost bytes, so the ledger balances if and only if none are lost, as is the case outside aggressive mode or if every release so far had the same outcome. |
| `PageCount.TotalIsPageCount` | Enclave/gperftools/gperftools-2.5/src/page_heap.cc:411-431 | The pages on the lists of one kind are the recorded pages whose span is of that kind. |
| `CommitLedger.MergeDeficit` | Enclave/gperftools/gperftools-2.5/src/page_heap.cc:331-409 | How far a merge moves `unmapped + committed` from `system`, for every mode, release outcome and kind of span; the heap adds exactly this to its lost bytes. |
| `CommitLedger.MergeBalancedIff` | Enclave/gperftools/gperftools-2.5/src/page_heap.cc:331-409 | Freeing a span keeps the ledger balanced if and only if no decommitted neighbour meets a refused aggressive release. |
| `PageHeap.RefusedReleaseLosesBytes` | Enclave/gperftools/gperftools-2.5/src/page_heap.cc:331-409 | A heap in aggressive mode that, after an allocation, a split and two frees the second of which meets a refusal, has lost a page from its ledger. |
| `PageHeap.SecondReleaseLosesBytes` | Enclave/gperftools/gperftools-2.5/src/page_heap.cc:464-500 | A heap in aggressive mode that, once the first release is refused and all later ones work, has lost bytes because a span was decommitted twice. |
| `SpanLayout.SpansDisjoint` | Enclave/gperftools/gperftools-2.5/src/page_heap.cc:331-409 | Spans of a tiling share no page. |
| `SpanLayout.JoinOk` | Enclave/gperftools/gperftools-2.5/src/page_heap.cc:340-398 | Joining two neighbours keeps tiling, page map and lists right. |
| `SpanLayout.CarveOk` | Enclave/gperftools/gperftools-2.5/src/page_heap.cc:264-305 | Cutting a span and leaving the rest keeps tiling, page map, lists and coalescing. |
| `SpanLayout.CarveCoalesced` | Enclave/gperftools/gperftools-2.5/src/page_heap.cc:280-292 | The leftover of a carve needs no merging, because the span it came from had none left. |
| `SpanLayout.FillInterior` | Enclave/gperftools/gperftools-2.5/src/page_heap.cc:526-536 | The loop maps every interior page and no other. |
| `SpanLists.Remove` | Enclave/gperftools/gperftools-2.5/src/span.cc:79-84 | Rewriting four links takes the span out of the circular list and keeps the order of the rest. |
| `Collections.WithoutAt` | Enclave/gperftools/gperftools-2.5/src/span.cc:79-84 | Removal from the lists of the page heap and of the central free list takes out the same place as the rewriting of links in `SpanLists.Remove`. |
| `SpanLists.IsEmpty` | Enclave/gperftools/gperftools-2.5/src/span.h:91-93 | True exactly when no span is on the list. |
| `SpanLists.Prepend` | Enclave/gperftools/gperftools-2.5/src/span.cc:94-101 | Rewriting four links puts the span first. |
| `SpanLists.Length` | Enclave/gperftools/gperftools-2.5/src/span.cc:86-92 | The walk counts the spans of the list. |
| `ObjectLists.Words.PopRange` | Enclave/gperftools/gperftools-2.5/src/linked_list.h:68-85 | The first n objects become a list of their own, the rest stays a list, and one word changes. |
| `ObjectLists.Words.PushRange` | Enclave/gperftools/gperftools-2.5/src/linked_list.h:87-91 | The range goes in front, in order, and one word changes. |
| `ObjectLists.Words.Size` | Enclave/gperftools/gperftools-2.5/src/linked_list.h:93-100 | The walk counts the objects. |
| `CentralProofs.EveryRun` | Enclave/gperftools/gperftools-2.5/src/central_freelist.cc:83-371 | In every state of every interleaving of threads over all classes the whole invariant holds, and the slots of all classes plus those on the way between classes never exceed the initial number. |
| `CentralProofs.RemoveReturns` | Enclave/gperftools/gperftools-2.5/src/central_freelist.cc:247-290 | In every run, what RemoveRange returns: distinct objects of the class, at most n; fewer only if no span of the class has a free object left; none only after the page heap was asked and refused; and if the transfer cache had a batch of n when it looked, exactly that batch. |
| `CentralProofs.AsksWhenDry` | Enclave/gperftools/gperftools-2.5/src/central_freelist.cc:247-290 | In every run RemoveRange asks the page heap only if it found neither a batch in the cache nor a free object. |
| `CentralProofs.SlotRoundTrip` | Enclave/gperftools/gperftools-2.5/src/central_freelist.cc:232-259 | A batch put into the transfer cache by InsertRange is what the next RemoveRange of that size takes out, and the class is then as before. |
| `CentralProofs.ReleasedOnlyAfterTrying` | Enclave/gperftools/gperftools-2.5/src/central_freelist.cc:168-245 | In every run InsertRange hands a batch of full size back to the spans only if it found its class at its limit, or tried to evict from another class both without and with force. |
| `CentralProofs.VictimGives` | Enclave/gperftools/gperftools-2.5/src/central_freelist.cc:204-229 | A class asked for a slot gives it up if and only if one is unused, or it has any and force is on; with all in use its latest batch goes back to the spans, and otherwise nothing does. |
| `CentralProofs.StepLocal` | Enclave/gperftools/gperftools-2.5/src/central_freelist.cc:83-371 | A step of one thread moves no other thread and changes no class but one whose lock it has. |
| `CentralProofs.SlotsWithinLimits` | Enclave/gperftools/gperftools-2.5/src/central_freelist.cc:152-245 | In every reachable state `used_slots_ <= cache_size_ <= max_cache_size_ <= 64`. |
| `CentralProofs.NeverTwoLocks` | Enclave/gperftools/gperftools-2.5/src/central_freelist.cc:187-229 | In every reachable state no thread has two class locks. |
| `CentralProofs.NoDeadlock` | Enclave/gperftools/gperftools-2.5/src/central_freelist.cc:205-225 | In every state of every run a thread in the middle of a call can take a step, or waits for a single lock, holding none, and the thread that has it can take a step. |
| `CentralProofs.HolderFinishes` | Enclave/gperftools/gperftools-2.5/src/central_freelist.cc:92-345 | Every step of a thread that has a class lock drops it or comes closer to dropping it, by a well-founded measure. |
| `CentralProofs.CapacityStep` | Enclave/gperftools/gperftools-2.5/src/central_freelist.cc:152-245 | A step changes the number of slots by nothing, except that one is given up when a class has reached its limit while its thread was evicting. |
| `CentralProofs.OnePlace` | Enclave/gperftools/gperftools-2.5/src/central_freelist.cc:83-371 | In every reachable state an object is at one place at most, and one handed out is nowhere else. |
| `CentralProofs.SpanConserved` | Enclave/gperftools/gperftools-2.5/src/central_freelist.cc:105-150 | In every reachable state `refcount` is the number of the span's objects that are not free, each of these is in a slot, with a thread or handed out, and with the lock free it is not zero. |
| `CentralProofs.CountersRight` | Enclave/gperftools/gperftools-2.5/src/central_freelist.cc:105-150 | In every reachable state a class's counters, free lists and both span lists agree with each other. |
| `CentralProofs.StepKeeps` | Enclave/gperftools/gperftools-2.5/src/central_freelist.cc:83-371 | Each of the fifteen kinds of step keeps the invariant. |
| `CentralList.FetchAllOk` | Enclave/gperftools/gperftools-2.5/src/central_freelist.cc:247-280 | Drawing on span after span removes exactly the objects returned, keeps the class consistent, and falls short only when nothing is free. |
| `CentralList.FetchOneOk` | Enclave/gperftools/gperftools-2.5/src/central_freelist.cc:291-318 | One fetch hands out between one and n objects of the first span and keeps the class consistent. |
| `CentralList.ReleaseEffect` | Enclave/gperftools/gperftools-2.5/src/central_freelist.cc:105-150 | A release makes exactly this object free, or takes out a span all of whose other objects were free. |
| `CentralList.AddSpanEffect` | Enclave/gperftools/gperftools-2.5/src/central_freelist.cc:324-371 | A new span adds exactly its objects, all free. |
| `CentralList.OneOut` | Enclave/gperftools/gperftools-2.5/src/central_freelist.cc:105-150 | A span with an object out has a positive count; with one out all others are free. |
| `CentralList.Cut` | Enclave/gperftools/gperftools-2.5/src/central_freelist.cc:347-361 | The loop cuts the pages into as many pieces as fit, all inside and no two overlapping. |
| `CentralList.CentralFreeList.FetchFromOneSpans` | Enclave/gperftools/gperftools-2.5/src/central_freelist.cc:291-318 | The walk and the updates are those of the specification. |
| `CentralList.CentralFreeList.FetchRange` | Enclave/gperftools/gperftools-2.5/src/central_freelist.cc:260-280 | The loop returns what the specification of a whole fetch says. |
| `CentralList.CentralFreeList.ReleaseToSpans` | Enclave/gperftools/gperftools-2.5/src/central_freelist.cc:105-150 | The updates are those of the specification, and the result says whether the span goes to the page heap. |
| `CentralCache.SlotLimit` | Enclave/gperftools/gperftools-2.5/src/central_freelist.cc:48-81 | The limit Init gives a class is the largest number of batches, up to 64, that together fit a megabyte, or one if none does. |
| `PageMap3.PageMap.Fetch` | Enclave/gperftools/gperftools-2.5/src/pagemap.h:248-257 | The value of the flat map, NULL for every key out of range, for every key width. |
| `PageMap3.PageMap.Set` | Enclave/gperftools/gperftools-2.5/src/pagemap.h:259-265 | Changes one key of the flat map. |
| `PageMap3.PageMap.Ensure` | Enclave/gperftools/gperftools-2.5/src/pagemap.h:267-295 | Changes no value; on success every key from the start to the last has a leaf and is in range; it fails only for a key out of range or lack of memory, with the wrap-around of `start + n - 1` as in the code. |
| `PageMap3.PageMap.Next` | Enclave/gperftools/gperftools-2.5/src/pagemap.h:300-321 | The value at the smallest key at or above k that has one, or NULL if there is none; it terminates. |
| `PageMap3.ShapeCovers` | Enclave/gperftools/gperftools-2.5/src/pagemap.h:211-217 | The three levels cover exactly the keys of the width. |
| `PageMap3.IndicesDetermine` | Enclave/gperftools/gperftools-2.5/src/pagemap.h:248-252 | The three indices determine the key. |
| `AddressMap.AddressIndex.Find` | Enclave/gperftools/gperftools-2.5/src/addressmap-inl.h:290-306 | The value the map has for the key. |
| `AddressMap.AddressIndex.Insert` | Enclave/gperftools/gperftools-2.5/src/addressmap-inl.h:308-338 | The map with the key set, other keys unchanged. |
| `AddressMap.AddressIndex.FindAndRemove` | Enclave/gperftools/gperftools-2.5/src/addressmap-inl.h:340-357 | The map without the key, and the value it had. |
| `AddressMap.AddressIndex.FindInside` | Enclave/gperftools/gperftools-2.5/src/addressmap-inl.h:359-403 | Over non-overlapping ranges: a result contains the address, and there is none only if no range that starts within reach contains it; the walk over blocks and clusters terminates. |
| `AddressMap.AddressIndex.FindCluster` | Enclave/gperftools/gperftools-2.5/src/addressmap-inl.h:214-234 | The chain search finds the cluster of an address if there is one. |
| `AddressMap.CreateKeepsBlocks` | Enclave/gperftools/gperftools-2.5/src/addressmap-inl.h:214-234 | Creating a cluster changes the contents of no block. |
| `AddressMap.PutGets` | Enclave/gperftools/gperftools-2.5/src/addressmap-inl.h:308-338 | Replacing or adding an entry of a block changes one key. |
| `AddressMap.DropGets` | Enclave/gperftools/gperftools-2.5/src/addressmap-inl.h:340-357 | Unlinking an entry of a block removes one key. |
| `LeakFlood.Checker.Flood` | Enclave/gperftools/gperftools-2.5/src/heap-checker.cc:1392-1507 | The worklist empties; the live set is closed, is contained in every closed set that holds the earlier live objects and the roots, and the two totals count exactly the objects newly live and their bytes. |
| `LeakFlood.FloodIsReachability` | Enclave/gperftools/gperftools-2.5/src/heap-checker.cc:1392-1507 | An object is live afterwards if and only if it was before or a chain of aligned words leads from a root to it. |
| `LeakFlood.FloodsAddUp` | Enclave/gperftools/gperftools-2.5/src/heap-checker.cc:1259-1354 | If live objects pointed only into live objects before a flood, they do after it. |
| `LeakFlood.Checker.ScanRegion` | Enclave/gperftools/gperftools-2.5/src/heap-checker.cc:1408-1499 | Every aligned word of the region is looked up; exactly the objects newly reached are marked and queued. |
| `LeakFlood.Checker.FirstWord` | Enclave/gperftools/gperftools-2.5/src/heap-checker.cc:1412-1422 | The first aligned address and the bytes left from there; no aligned word is skipped. |
| `LeakFlood.Checker.Lookup` | Enclave/gperftools/gperftools-2.5/src/heap-checker.cc:2365-2377 | Behind the range check, the object the address leads to, or none if there is none. |
| `LeakFlood.FilterSound` | Enclave/gperftools/gperftools-2.5/src/heap-checker.cc:1453-1465 | An address outside the bounds leads to no object, so the check never changes the result. |
| `LeakFlood.Checker.NewHook` | Enclave/gperftools/gperftools-2.5/src/heap-checker.cc:567-590 | Recording an allocation keeps the bounds around every object. |
| `LeakFlood.Checker.MarkAsLive` | Enclave/gperftools/gperftools-2.5/src/heap-profile-table.cc:263-270 | Marks an object that exists and is not live, and says so. |
| `LeakFlood.BoundNeverMatters` | Enclave/gperftools/gperftools-2.5/src/heap-checker.cc:1270-1279 | If no object is longer than the reach of the search, the reach does not matter. |
| `ProfileData.Collector.Stop` | Enclave/gperftools/gperftools-2.5/src/profiledata.cc:165-197 | The file decodes to its period, its samples and whatever is written after it, and for every trace the counts in it add up to the samples since Start. |
| `ProfileData.Collector.Add` | Enclave/gperftools/gperftools-2.5/src/profiledata.cc:261-320 | One sample more of the trace cut to 64 frames is counted, in the table or by throwing out the least hit entry of its bucket; nothing happens when not collecting. |
| `ProfileData.Collector.FlushTable` | Enclave/gperftools/gperftools-2.5/src/profiledata.cc:240-259 | Everything counted is in the file and collecting goes on; for every trace the file's counts add up to the samples. |
| `ProfileData.Collector.Evict` | Enclave/gperftools/gperftools-2.5/src/profiledata.cc:66-78 | One encoded entry is added to the stream, flushing first if the buffer has no room; the buffer is never overrun. |
| `ProfileData.Collector.Start` | Enclave/gperftools/gperftools-2.5/src/profiledata.cc:92-133 | Refuses when collecting or when the file does not open; otherwise an empty table and a stream that is the header, with the period in its place. |
| `ProfileData.Period` | Enclave/gperftools/gperftools-2.5/src/profiledata.cc:123-125 | The period written is a million divided by the frequency, rounded down; for a negative frequency the quotient truncated toward zero, as a word. |
| `ProfileData.Collector.FlushEvicted` | Enclave/gperftools/gperftools-2.5/src/profiledata.cc:324-332 | The buffer goes to the file in order. |
| `ProfileData.DecodeBack` | Enclave/gperftools/gperftools-2.5/src/profiledata.cc:66-189 | A stream of header, samples, end marker and anything behind decodes to these. |
| `ProfileData.AddConserves` | Enclave/gperftools/gperftools-2.5/src/profiledata.cc:261-320 | Table and thrown-out entry together have one hit more, of this trace. |
| `ProfileData.EvictsLeastHit` | Enclave/gperftools/gperftools-2.5/src/profiledata.cc:300-312 | The entry thrown out is one of the least hit of its bucket, and the trace was not in the bucket. |
| `FreeRing.EveryRun` | Enclave/gperftools/gperftools-2.5/src/debugallocation.cc:581-626 | In every state of every interleaving no check of the routine fails, the ring has room whenever the lock is free, and the recorded size is the sum over the ring. |
| `FreeRing.ChecksNeverFail` | Enclave/gperftools/gperftools-2.5/src/debugallocation.cc:581-626 | No push into a full ring, no pop from an empty one, no batch of more than four. |
| `FreeRing.FirstInFirstOut` | Enclave/gperftools/gperftools-2.5/src/debugallocation.cc:581-626 | The ring always holds the latest pushes in order. |
| `FreeRing.ReleasedOnce` | Enclave/gperftools/gperftools-2.5/src/debugallocation.cc:581-626 | No block is released twice, nor while queued or in a batch. |
| `FreeRing.NothingDropped` | Enclave/gperftools/gperftools-2.5/src/debugallocation.cc:581-626 | In every state of every run as many blocks have entered as pushes have been made, and each of them is in the ring, in the batch of one thread or released. |
| `FreeRing.QuietConservation` | Enclave/gperftools/gperftools-2.5/src/debugallocation.cc:581-626 | When no call is in progress, the blocks in the ring and those released add up to the pushes made. |
| `FreeRing.NeverEarly` | Enclave/gperftools/gperftools-2.5/src/debugallocation.cc:601-606 | In every run a block leaves the ring only if the queued bytes exceed the limit of the call, read as an unsigned word, or the ring is full. |
| `FreeRing.DropsLockWhen` | Enclave/gperftools/gperftools-2.5/src/debugallocation.cc:601-626 | A call gives up the lock exactly with a batch of four, to come back, or when the ring is within its limit. |
| `FreeRing.NoDeadlock` | Enclave/gperftools/gperftools-2.5/src/debugallocation.cc:581-626 | In every state of every run a thread in the middle of a call can take a step, or waits for the lock, and the thread that has it can take a step. |
| `FreeRing.QuietRunWithinLimit` | Enclave/gperftools/gperftools-2.5/src/debugallocation.cc:581-626 | In every state of every run with the lock free, the queued bytes are within the largest limit any call has passed, and the ring is not full, unless a thread that released a full batch has yet to look again. |
| `FreeRing.FreeQueue.Push` | Enclave/gperftools/gperftools-2.5/src/debugallocation.cc:176-179 | Appends to the contents. |
| `FreeRing.FreeQueue.Pop` | Enclave/gperftools/gperftools-2.5/src/debugallocation.cc:181-186 | Takes the oldest of the contents. |
| `FreeRing.FreeQueue.Full` | Enclave/gperftools/gperftools-2.5/src/debugallocation.cc:172-174 | True exactly at 1023 entries. |
| `FreeRing.FreeQueue.Size` | Enclave/gperftools/gperftools-2.5/src/debugallocation.cc:188-190 | The number of entries. |

## Left out

- AES-CTR and CMAC are arbitrary functions with the law that decryption undoes encryption; no claim of confidentiality or resistance to tampering.
- Chains are sequences in an array, without `next` pointers and without allocation of entries; MACs are copied as whole blocks.
- `assert(kv_pos == 0)` at Enclave/core.cpp:225 is taken as compiled out, since it fits only inserts into an empty bucket.
- WorkersProofs.EveryRunCorrect: runs stay within the buffers, with at most 30 entries a chain under `mac_opt` and values that fit a reply, and both divisions of the table are exact; requests are well formed GET, SET, APPEND or quit, and workers are initialised.
- TableProofs.AppendCorrect: promises an intact group under `mac_opt` only for a position that is its own mirror; `AppendReconstructsIff` shows why.
- Sockets, enclave transitions, spinlocks, mutexes and condition variables: a critical section is one step.
- HotCalls: that a request can return is proved, not that the scheduler lets it; the number of entries of the callback table is fixed.
- PageHeap.Heap.IncrementalScavenge: the wait is computed over real numbers, without the rounding of floating-point arithmetic; the release rate is fixed for a run.
- PageHeap: the decommit mode and the heap limit are fixed for a run; what the system answers to requests for memory and to releases is arbitrary, call by call; the other statistics, `GetNextRange` and the consistency checks are not modelled.
- Span identifiers stand for span pointers; the page heap holds its lists as sequences and its page map as a map, whose linked and radix forms are `SpanLists` and `PageMap3`.
- CentralCache: objects are named by span and position instead of address; reads of a class's fields without its lock may return anything; the page heap answers with any span it has not handed out.
- CentralList.CentralFreeList.FetchRange: covers RemoveRange where the lock is not dropped; the steps with the lock dropped are steps of `CentralCache`.
- PageMap3: nodes are values, so sharing of nodes is not captured; the key width is below that of a machine word; the two-level map is left out.
- AddressMap: entries and clusters are values; the pool of free entries is left out.
- LeakFlood.Checker.Flood: roots that must be on the heap come with the size of their object, as the source demands; stack depths, buckets of call stacks and the ignore bit are left out.
- ProfileData: counts are unbounded, and writes to the file do not fail; the memory map written after the end marker is arbitrary.
- FreeRing: the recorded size is unbounded; the check for dangling writes is left out.
- Size classes, thread caches, samplers, hooks, stack traces, the region map, the rest of the leak checker and of the debug allocator: fixed tables or platform code that would add easy members only.
