# Verified models of the searchable-encryption schemes

The repository implements several dynamic searchable-encryption schemes: two
log-structured static indexes (SDa, SDd), the tree-colouring scheme QOS, the
ORAM-based scheme Horus, and the oblivious map (an AVL tree over a Path ORAM)
that the schemes keep their counters in. With encryption taken away each of
them is a state machine over dictionaries that owes its caller something very
simple: the ids of a keyword that are currently stored, or the value last
written under a key. This project models those state machines and proves that
they pay what they owe, for every run.

`dafny verify dfyconfig.toml` checks the whole project.

## What is modelled

Ciphertexts, PRF outputs and key tags are treated as injective, so a server
dictionary is a map keyed by a tuple (a `Label`, a `Tag`, a `Bid`) and a record
is a keyword, an id and an operation. Everything the source updates in place
stays in place: each scheme is a class whose methods carry the loops of the
source, each method is tied to a pure function or predicate on its state, and
what the scheme promises is proved about those.

| part | files | main result |
|---|---|---|
| SDd, the de-amortized index | `DeAmortizedSchedule`, `DeAmortized`, `BasStore`, with `Records`, `Requests`, `RecordSets` | every search of every run within capacity returns the ids written more often as inserted than as deleted, counted in the run itself; conservation and occupancy from the binary expansion of the update counter; for any number of updates, nothing is lost exactly while within capacity |
| SDa, the amortized index | `AmortizedSchedule`, `Amortized`, `AmortizedShadow` | the same for first searches of a keyword; exactly when an update loses records, and exactly which of n insertions after a search are gone; moves at most n(floor(log2 n) + 1) |
| QOS | `QosColouring`, `QosVisit`, `QosCover`, `QosState`, `QosServer`, `QosClient`, `QosRun`, `QosCounter`, `QosCounterRun` | every search of every run returns, in order, the ids of exactly the inserts not removed, told from their places in the run, with at most floor(log2 n) + 1 + 2 * live * height calls at the server |
| Path ORAM of Horus | `OramState`, `OramCopies`, `OramSetup`, `Bids`, `PrfOram` | a map for every sequence of calls, exhausted write budget and colliding ids included; exactly when a batch answers for the wrong id, and exactly when an old copy survives |
| Horus | `HorusProbe`, `HorusState`, `Horus`, `HorusRun` | every run goes on to the first operation whose boxes exceed the write budget, and every search up to there returns each id inserted and not removed since once, within ceil(log2 n) + 4 batch reads of the store after n updates of the keyword |
| the oblivious map | `AvlTree`, `AvlStore`, `NodeOram`, `AvlOram`, `AvlSetup`, `AvlReach`, `AvlExposed`, `Omap` | every find of every run returns the value of the last insertion before it; relinking keeps every link and position exact; the exact number of keys that keeps the tree within the height relinking covers, and above it, before any leaf is drawn, exactly which operations may lose the tree |
| base64 | `Base64` | decode undoes encode for every byte string, and every character of the encoding by its digit |

`Powers`, `HeapTree` and `Collections` hold the arithmetic of powers of two,
the array layout of complete binary trees and ordered iteration.

## Results that contradict the source's expectations

- **SDa loses records after a search.** `search` reads `data[i][keyword]`
  with `operator[]` (src/static/Amortized.cpp:83), which leaves an empty entry
  behind; the non-overwriting `insert` at line 67 then skips that keyword.
  `Amortized.SearchFirstLoses` is a run of three calls in which an inserted id
  is not found; `Amortized.LostExactly` says of every update, before it is made,
  whether it loses records of a keyword: exactly when the target level has an
  entry for the keyword and something of the keyword is about to be merged.
  `AmortizedShadow.SearchThenInserts`: after a search for a keyword on a new index
  and n insertions of it, the first 2^floor(log2 n) of them are gone while n < 1024,
  and the first 512 from then on, when the target is no longer a client level.
- **SDa runs past its levels at its last update.** With N a power of two of at
  least 1024 the N-th update addresses level log2 N, which does not exist.
  `Amortized.CapacityExact` gives the condition in both directions.
- **SDd loses a whole set when the top level overflows.** The code never checks
  for a free slot. `DeAmortized.Index.ConservedExactly` shows of l >= 2 levels and
  any number u of updates that nothing is lost if and only if u + 2 < 6 * 2^(l-1)
  (a single level, built for at most two updates, loses nothing if and only if no two
  updates from the third on share a keyword). From the update that reaches the bound
  on, at least 2^(l-1) records are out of reach for good: an update adds at most one
  record to what search can reach. `DeAmortized.OverflowRun` is, for every N from 3 on,
  a run to that bound whose search then misses exactly 2^(l-1) ids.
  `DeAmortizedSchedule.CapacityCoversN` shows that N updates never get there.
- **The oblivious map can outgrow its own height bound.** The comment at
  src/mitra/ORAM.cpp:307-311 takes it that a map within its capacity stays
  within `maxHeightOfAVLTree`. `Omap.CapacityFits` shows that this holds
  exactly when the capacity, in keys, is below the size of the sparsest AVL tree
  one level higher; it fails for a capacity of 64, where 54 keys suffice
  (`Omap.CapacityOf64`). `AvlStore.RelinkSurely` says, before any leaf is drawn, when
  finilize is sure to keep the tree: if and only if no node above the bound has a
  touched child that is not above it (or there is one leaf only). Inserting a new key
  breaks this in every tree that is then above the bound (`AvlExposed.NewKeyExposes`),
  so every run of insertions that outgrows the bound comes to an insertion after which
  the tree may be lost (`AvlExposed.OutgrownIsExposed`, `Omap.ExposedOf64`); a search
  breaks it exactly when it reads a node that is not above the bound
  (`AvlExposed.SearchExposes`). `AvlExposed.SparsestIsLost` lays out the tree of 54
  keys and gives positions after which it is not reached. Trees built in bulk do fit:
  `AvlSetup.BstFits`.
- **QOS miscounts positions when its counters are in the oblivious map.**
  `incrementAwCnt` continues below the root as `incrementSrcCnt`
  (src/qos/AVLTree.cpp:324 and 326). `QosCounter.IncrementAwExactly`: the position
  is counted if and only if the keyword is at the root of the tree or new;
  `QosCounter.SecondInsertMiscounts` is the smallest tree that goes wrong, and
  `QosCounterRun.Miscounted` a run of three inserts and a search that finds none of the
  two ids it owes.
- **PRFORAM batch operations look up a position as an id** (src/horus/PRFORAM.cpp:283
  and 320). `PrfOram.Oram.BatchRead` states which id every query is answered for,
  as a function of the buckets, the stash and the batch, and that the answer is
  right if and only if the position, taken as an id, is not stashed at that turn
  (or happens to have the same value); `PrfOram.MistakenRead` is a batch that answers
  with the value of another id. `PrfOram.Oram.BatchWrite` is right for all ids: a
  block written without fetching its path leaves an old copy behind, but always
  below the current one, where no read reaches it first (`OramCopies`). Its
  contract says exactly when such a copy survives.

## Model

| member | source | states |
|---|---|---|
| Records.NetAnswer | src/static/DeAmortized.cpp:224-234 | summing 2*op-1 per id and keeping the negative sums yields, in ascending order and each once, exactly the ids of which more INS than DEL records were found |
| Records.AnswerUnique | src/static/DeAmortized.cpp:224-234 | the specification of search leaves one possible answer |
| RecordSets.ProbeAll | src/static/DeAmortizedBASServer.cpp:22-38 | the do-while loop returns the values under consecutive labels from the start up to the first absent one |
| RecordSets.ProbeIsFilter | src/static/DeAmortized.cpp:199-214 | when a set labels each keyword's records consecutively, probing finds all records of the keyword, in order |
| RecordSets.ListingPermutes | src/static/DeAmortized.cpp:56-63 | stepping an iterator through a set, in whatever fixed order it enumerates, meets each stored record exactly once |
| DeAmortizedSchedule.Occupancy | src/static/DeAmortized.cpp:55-162 | after u updates a level has 0, floor((u+2)/2^i)-2 or 2 + bit i of (u+2) full sets, never more than three |
| DeAmortizedSchedule.ScheduleStep | src/static/DeAmortized.cpp:56-124 | a merge is idle, one record further or complete; it completes only when all three sets below are full, so OLD is never empty when it is shifted |
| DeAmortizedSchedule.CycleNumber | src/static/DeAmortized.cpp:65-65 | the ceil expression for upCnt equals ceil((u+2)/2^i) - 2, that is floor(t/2^i) - 1 |
| DeAmortizedSchedule.CycleStable | src/static/DeAmortized.cpp:65-87 | upCnt stays the same through one merge cycle and is new in the next |
| DeAmortizedSchedule.CapacityCoversN | src/static/DeAmortized.cpp:11-14 | the levels built for N updates have room for N updates |
| DeAmortizedSchedule.LevelsExact | src/static/DeAmortized.cpp:11-14 | the number of levels for N is the least l >= 1 with N <= 2^l, and their capacity 3 * 2^l |
| DeAmortizedSchedule.TopFits | src/static/DeAmortized.cpp:124-154 | the top level has a free slot exactly while u + 2 < 6 * 2^(l-1) |
| DeAmortized.CopyOne | src/static/DeAmortized.cpp:57-93 | one copy takes the next record of OLDEST followed by OLDER into NEW; while the merge is one of full sets, NEW stays their first cnt records under consecutive labels |
| DeAmortized.Retire | src/static/DeAmortized.cpp:106-123 | the two merged sets are dropped and OLD becomes OLDEST, which is then occupied if three slices were there |
| DeAmortized.Place | src/static/DeAmortized.cpp:124-154 | a completed NEW goes to the first free slot, and nothing else of the level changes; with none free it stays |
| DeAmortized.MergeStep | src/static/DeAmortized.cpp:55-162 | one turn of the level loop keeps every slot of both levels standing for its slice of the history, and never adds to the number of searchable records |
| DeAmortized.StoreNew | src/static/DeAmortized.cpp:164-181 | the new record goes to level 0 under label 1 |
| DeAmortized.RecentPart | src/static/DeAmortized.cpp:199-222 | the lowest n levels hold exactly the most recent part of the history |
| DeAmortized.Conservation | src/static/DeAmortized.cpp:55-222 | within capacity OLDEST, OLDER and OLD over all levels hold the history as a multiset, whatever merge is under way |
| DeAmortized.OverflowLoses | src/static/DeAmortized.cpp:124-154 | the update that reaches the capacity makes exactly one slice of 2^(l-1) records unreachable |
| DeAmortized.Index.ConservedExactly | src/static/DeAmortized.cpp:45-188 | after any number u of updates the searchable sets equal the history if and only if u + 2 < 6 * 2^(l-1); with a single level, if and only if the updates from the third on have different keywords |
| DeAmortized.OverflowRun | src/static/DeAmortized.cpp:45-240 | for every N from 3 on, a run to the capacity whose search misses exactly 2^(l-1) of the live ids |
| DeAmortized.Index.Update | src/static/DeAmortized.cpp:45-188 | any update appends to the history and keeps the invariant: the whole history while within capacity, at least 2^(l-1) records out of reach ever after; search reaches at most one record more than before |
| DeAmortized.Index.Search | src/static/DeAmortized.cpp:190-240 | the live ids, in ascending order, of what the probes meet: part of what the sets hold, all of it up to the update that reaches the capacity, and the whole history while within |
| DeAmortized.Run | src/static/DeAmortized.cpp:45-240 | in every run, every search made while u + 2 < 6 * 2^(l-1) returns, in ascending order, the ids that more of the operations before it write as inserted than as deleted |
| BasStore.HandOverKeeps | src/static/DeAmortizedBASServer.cpp:53-60 | delete, share and renew leaves no slot dangling and no set shared, and moves exactly one set |
| BasStore.Server.Add | src/static/DeAmortizedBASServer.cpp:74-76 | only the addressed slot changes |
| BasStore.Server.Get | src/static/DeAmortizedBASServer.cpp:66-72 | the record at a position of the enumeration |
| BasStore.Server.Search | src/static/DeAmortizedBASServer.cpp:22-38 | the records under labels 1, 2, ... up to the first absent one |
| BasStore.Client.HandOver | src/static/DeAmortizedBASClient.cpp:74-91 | copy followed by destry of the origin moves the set, and exist keeps saying which sets hold anything |
| BasStore.Client.Shift | src/static/DeAmortized.cpp:116-119 | OLDEST and OLDER are emptied and OLD moves to OLDEST, all other slots unchanged |
| BasStore.Client.Place | src/static/DeAmortized.cpp:124-154 | NEW moves to the first slot that holds nothing, decided by the exist flags; with none it stays |
| AmortizedSchedule.IncrementBits | src/static/Amortized.cpp:28-29 | the lowest zero bit of the counter separates the levels that are emptied, filled and left alone |
| AmortizedSchedule.SliceStep | src/static/Amortized.cpp:33-73 | an update merges the slices below its level with the new record into that level, empties the lower ones and leaves the others |
| AmortizedSchedule.SlicesAreHistory | src/static/Amortized.cpp:25-74 | the slices of all levels together are the history, each record once |
| AmortizedSchedule.MovesBounded | src/static/Amortized.cpp:25-74 | n updates fill at most n(floor(log2 n) + 1) places |
| Amortized.MergeLocal | src/static/Amortized.cpp:33-41 | a local level is appended to the merged dictionary, group by group |
| Amortized.MergeRemote | src/static/Amortized.cpp:42-50 | a remote level, in the server's enumeration order, adds to each group exactly its records |
| Amortized.Encrypt | src/static/AmortizedBASClient.cpp:15-29 | after setup, probing a keyword at the level returns its group |
| Amortized.StoreCiphers | src/static/AmortizedBASServer.cpp:15-17 | labels already present keep their value |
| Amortized.UpdateKeeps | src/static/Amortized.cpp:25-74 | after every update, nothing is repeated or invented, and nothing of a keyword never searched is lost |
| Amortized.NothingLost | src/static/Amortized.cpp:25-74 | the levels hold every record of an unsearched keyword exactly as often as the history |
| Amortized.LevelHolds | src/static/Amortized.cpp:25-74 | before any search, the records of level i are exactly its slice of the history: 2^i records if bit i of the counter is set and none otherwise |
| Amortized.LostExactly | src/static/Amortized.cpp:66-67 | an update keeps all records of a keyword, the new one included, if and only if the target level has no entry for it or nothing of it is merged |
| Amortized.CapacityExact | src/static/Amortized.cpp:11-16 | among the first N updates there is one for a level past the last if and only if N = 2^k for some k >= 10 |
| Amortized.SearchKeeps | src/static/Amortized.cpp:81-86 | a search changes no group, only which keywords have entries |
| Amortized.Index.Update | src/static/Amortized.cpp:25-74 | the new levels keyword by keyword; exactly the records merged for the target level, at most 2^r, are counted as moved |
| Amortized.Index.Search | src/static/Amortized.cpp:76-107 | the live ids of what the levels hold, and of the whole history if the keyword was not searched before |
| Amortized.Run | src/static/Amortized.cpp:25-107 | every first search of a keyword in every run returns, in ascending order, the ids that more of the operations before it write as inserted than as deleted; the index has moved at most n(floor(log2 n) + 1) records |
| Amortized.SearchFirstLoses | src/static/Amortized.cpp:76-86 | search, insert, search: the inserted id is not returned |
| AmortizedShadow.ShadeStep | src/static/Amortized.cpp:33-67 | below level 10, exactly the levels filled at most once since the search still have its entry |
| AmortizedShadow.TotalStep | src/static/Amortized.cpp:33-67 | an insertion that fills a level below 10 for the first time leaves nothing of the keyword; any other adds its record |
| AmortizedShadow.SearchThenInserts | src/static/Amortized.cpp:25-107 | search, n insertions of the keyword, search: all but the first 2^floor(log2 n) ids for n < 1024, all but the first 512 from 1024 on |
| HeapTree.GetNodeOnPath | src/qos/Client.cpp:342-349 | the loop reaches the ancestor of the leaf at the given depth |
| QosColouring.RemoveKeepsSound | src/qos/Client.cpp:168-206 | after a remove, a marked node still has all its leaves deleted |
| QosColouring.RemoveKeepsComplete | src/qos/Client.cpp:168-206 | after marking only the topmost new all-deleted node, every fully deleted subtree still has its root or an ancestor marked |
| QosColouring.RemoveKeepsMirror | src/qos/Client.cpp:177-206 | the server's marks stay within the client's and include its topmost ones |
| QosVisit.FoundIsLive | src/qos/Server.cpp:53-72 | the recursion returns exactly the live leaves of the subtree, from left to right |
| QosVisit.CallsBounded | src/qos/Server.cpp:53-72 | a visit makes at most 1 + 2 * live * height calls |
| QosVisit.HitsTopmost | src/qos/Server.cpp:68-71 | every topmost mark of the subtree is reported in deletes |
| QosCover.CoverIsRow | src/qos/Server.cpp:74-86 | the cover consists of aligned subtrees whose leaves are, one after the other, exactly the positions 0..a_w |
| QosCover.RowDisjoint | src/qos/Server.cpp:74-86 | the subtrees of the cover are pairwise disjoint |
| QosCover.CoverContains | src/qos/Server.cpp:74-86 | every aligned subtree inside 0..a_w lies in one subtree of the cover, so no mark sits above the cover |
| QosCover.CoverShort | src/qos/Server.cpp:74-86 | the cover has at most floor(log2(a_w + 1)) + 1 subtrees |
| QosServer.Server.FindCoveringSet | src/qos/Server.cpp:74-95 | the loop ends and returns the cover |
| QosServer.Server.RecursiveSearch | src/qos/Server.cpp:53-72 | results and deletes of the pruned visit, the marks it erases, and its number of calls as the server counts them |
| QosServer.Server.InsertBatch | src/qos/Server.cpp:18-25 | every pair is stored, every mark added, nothing else changed |
| QosServer.Server.Search | src/qos/Server.cpp:31-51 | entries found and erased, marks met and erased, and how many leaves had no entry left |
| QosState.InsertKeeps | src/qos/Client.cpp:36-89 | an insert keeps the agreement between client, server and specification |
| QosState.RemoveKeeps | src/qos/Client.cpp:108-212 | so does a remove, repeated ones included |
| QosState.SearchFinds | src/qos/Server.cpp:31-51 | over the cover the search finds exactly the live positions, within the call bound, and hands back marks that still mirror the client's |
| QosState.SearchKeeps | src/qos/Client.cpp:265-305 | rebuilding under the next counter keeps the agreement |
| QosState.AnswerIsLiveIds | src/qos/Client.cpp:252-259 | the answer read off the found leaves is the ids at positions not removed, in position order |
| QosClient.Client.Insert | src/qos/Client.cpp:25-96 | the id is stored under the next position of its keyword, at the leaf of that position, and nothing else at the server changes |
| QosClient.Client.ChooseMark | src/qos/Client.cpp:134-206 | the loops pick the topmost unmarked node of the run of all-deleted nodes, or none |
| QosClient.Client.Remove | src/qos/Client.cpp:98-219 | the position last stored for the id is deleted; fails only for an unknown keyword or id |
| QosClient.Client.Search | src/qos/Client.cpp:221-311 | exactly the ids at positions not removed, in position order; "already removed" is never reached; the call bound |
| QosRun.Run | src/qos/Client.cpp:25-311 | every search of every run with at most 2^(height-1) inserts per keyword returns, in order, the ids of exactly those inserts that no later remove of the id hit before it was inserted again; "already removed" never reached; at most floor(log2 n) + 1 + 2 * live * (height - 1) calls, which are all the server has seen |
| QosRun.LastIsRemoved | src/qos/Client.cpp:98-127 | a remove hits exactly the last insert of its id before it |
| QosCounter.IncrementSrcMap | src/qos/AVLTree.cpp:299-317 | the search counter of the key grows by one and nothing else changes |
| QosCounter.IncrementAwMap | src/qos/AVLTree.cpp:319-337 | at the root the position grows by one, below it the search counter does |
| QosCounter.IncrementAwExactly | src/qos/AVLTree.cpp:319-337 | the position is counted if and only if the key is at the root or not stored |
| QosCounter.SecondInsertMiscounts | src/qos/AVLTree.cpp:319-337 | with two keywords, the second insert of the lower one raises its search counter and not its position |
| QosCounterRun.Insert | src/qos/Client.cpp:25-96 | with the counters in the tree, an insert stores its entry at the leaf that the counters name |
| QosCounterRun.Search | src/qos/Client.cpp:221-311 | with the counters in the tree, how many ids a search finds and how many leaves it reports missing |
| QosCounterRun.Miscounted | src/qos/Client.cpp:25-311 | insert(a,1), insert(b,2), insert(b,3), search(b) finds nothing and reports one entry missing, where [2, 3] is owed |
| QosCounterRun.AloneCounts | src/qos/AVLTree.cpp:327-334 | n inserts of a keyword that is alone in the tree leave its last position at n - 1 |
| QosCounterRun.RootInserts | src/qos/Client.cpp:25-96 | their ids are stored at the first n leaves, in order |
| OramState.FetchKeeps | src/horus/PRFORAM.cpp:113-126 | reading a bucket into the stash keeps one copy of every id |
| OramState.EvictKeeps | src/horus/PRFORAM.cpp:149-177 | writing stash blocks into a fetched bucket keeps one copy of every id, on its own path, at most Z per bucket |
| OramState.StashDecides | src/horus/PRFORAM.cpp:190-204 | with its path fetched, an id is in the stash with its last value, or stored nowhere |
| OramState.SetKeeps | src/mitra/ORAM.cpp:194-213 | a stashed or unknown id may get any value and any position |
| OramCopies.GatheredShown | src/horus/PRFORAM.cpp:115-126 | read from the root down, a bucket adds to the stash its current blocks and none of its old copies |
| OramCopies.EvictCovers | src/horus/PRFORAM.cpp:149-177 | a block written back lands above every old copy of it |
| OramCopies.OverwriteKeeps | src/horus/PRFORAM.cpp:181-188 | writing a block in the stash, wherever its previous copy is, changes the map at its id only |
| OramCopies.OverwriteCovers | src/horus/PRFORAM.cpp:181-188 | the previous copy is then below the current one |
| OramCopies.AbandonKeeps | src/horus/PRFORAM.cpp:181-188 | an exception after a path was fetched leaves the map as it was |
| OramCopies.AbandonCovers | src/horus/PRFORAM.cpp:181-188 | and what the fetched buckets still hold is below the stash |
| OramSetup.PlaceAll | src/horus/PRFORAM.cpp:354-443 | bulk placement ends with every record in exactly one place, a bucket on its path or the stash, no bucket over Z, whatever cannotInsert was left by an earlier position |
| PrfOram.Oram.FetchPath | src/horus/PRFORAM.cpp:103-128 | every bucket of the path is fetched, those of a batch once |
| PrfOram.Oram.GetIntersectingBlocks | src/horus/PRFORAM.cpp:132-145 | at most Z stashed ids whose path meets the bucket, and all of them if fewer than Z |
| PrfOram.Oram.WritePath | src/horus/PRFORAM.cpp:149-177 | the bucket is rewritten once; after the root is written the stash is empty or the root is full |
| PrfOram.Oram.EvictAll | src/horus/PRFORAM.cpp:302-307 | every fetched bucket is rewritten, so no stale copy survives |
| PrfOram.Oram.ReadBox | src/horus/PRFORAM.cpp:199-238 | the value last written, or nothing; fails exactly on a null id; ids stored once stay stored once |
| PrfOram.Oram.WriteBox | src/horus/PRFORAM.cpp:181-250 | the map gets the new value; fails exactly on a null id or an exhausted budget, and then the map is as before |
| PrfOram.Oram.BatchRead | src/horus/PRFORAM.cpp:278-309 | every query is answered with the value of the id it is taken for, which is its own if and only if its position is not stashed as an id at that turn; one more batch read is counted |
| PrfOram.Oram.BatchWrite | src/horus/PRFORAM.cpp:311-339 | the map gets the values of as many items as the budget allows, for all ids; an old copy survives if and only if a written id was stored off the fetched paths |
| PrfOram.MistakenRead | src/horus/PRFORAM.cpp:282-300 | a batch of two queries that answers an id never written with the value of another |
| PrfOram.NoBareOnPaths | src/horus/PRFORAM.cpp:311-339 | without ids that are bare integers every written id has its path fetched, so each id keeps exactly one copy |
| PrfOram.Oram.SetupInsert | src/horus/PRFORAM.cpp:341-443 | an empty store holds exactly the given records afterwards |
| HorusProbe.FirstStepOk | src/horus/Horus.cpp:257-266 | the first answer of a slot starts its binary search at 1 or at the '@' target |
| HorusProbe.NextStepOk | src/horus/Horus.cpp:268-306 | every further answer keeps the largest existing access counter in range and shortens the search; when it ends it has found that counter |
| HorusState.InsertKeeps | src/horus/Horus.cpp:39-89 | slot and id entries stay mutually inverse, UpdtCnt stays at most latestUpdatedCounter, and each slot's boxes stay one contiguous range |
| HorusState.RemoveKeeps | src/horus/Horus.cpp:129-167 | the same after swapping the last id into the freed slot |
| HorusState.DeadEntry | src/horus/Horus.cpp:40-44 | the id entry tells apart ids never seen, live and removed |
| HorusState.SearchKeeps | src/horus/Horus.cpp:312-314 | the same after the boxes are reissued under the next search counter |
| HorusState.PutCounts | src/horus/Horus.cpp:44-88 | the boxes an insert writes and the counters it leaves, from the slots and latestUpdatedCounter alone: none for a live id, two where a slot used before is opened again, else one |
| HorusState.DropCounts | src/horus/Horus.cpp:129-167 | a remove writes one box exactly when the id is live and not in the last slot |
| HorusState.UpdateCosts | src/horus/Horus.cpp:44-82 | 0, 1 or 2 boxes for an insert and 0 or 1 for a remove, by when each occurs |
| HorusState.SearchCosts | src/horus/Horus.cpp:250-306 | a search writes one box for each live id and one more for each slot with an access counter above 1 |
| Horus.Scheme.Insert | src/horus/Horus.cpp:30-93 | completes if and only if its exact number of boxes is within the write budget; then the id is live, or nothing changed if it was |
| Horus.Scheme.Remove | src/horus/Horus.cpp:120-171 | fails only for ids never inserted; otherwise completes if and only if its exact number of boxes is within the write budget, and then the id is no longer live |
| Horus.Scheme.LockStep | src/horus/Horus.cpp:237-311 | the lock-step search returns the id of every slot once, and its rounds, at most ceil(log2 Access) + 4, are the batch reads that the store has seen |
| Horus.Scheme.Search | src/horus/Horus.cpp:212-320 | completes if and only if its exact number of boxes is within the write budget; then each live id of the keyword once; its rounds, at most ceil(log2 Access) + 4, are the batch reads that the store has seen |
| HorusRun.Run | src/horus/Horus.cpp:30-320 | every run goes on to the first operation whose boxes exceed the budget, counted exactly; every search up to there returns, each once, the ids with an insert that no later remove undid, within ceil(log2 n) + 4 batch reads after n updates of the keyword; these are all the batch reads that the store has seen |
| HorusRun.AccessBounded | src/horus/Horus.cpp:52-70 | no access counter of a keyword exceeds the number of its inserts and removes |
| AvlTree.InsertMap | src/mitra/AVLTree.cpp:110-177 | an insertion keeps the key order and changes the represented map at its key only |
| AvlTree.InsertBalanced | src/mitra/AVLTree.cpp:129-176 | an insertion keeps the balance within one and grows the tree by at most a level, and by none for a known key |
| AvlStore.RelinkStep | src/mitra/ORAM.cpp:320-335 | relinking one node of height i disturbs no node already relinked |
| AvlStore.RelinkExactly | src/mitra/ORAM.cpp:320-337 | after relinking up to the bound the same tree is reached, every link naming its child's position, if and only if no child of a higher node has moved |
| AvlStore.RelinkSurely | src/mitra/ORAM.cpp:306-337 | before any leaf is drawn: the tree is reached for all outcomes of relinking if and only if no node above the bound has a touched child that is not, or there is one leaf |
| NodeOram.Store.FetchPath | src/mitra/ORAM.cpp:106-132 | every bucket of the path is in the cache, and no current version of a node changed |
| NodeOram.Store.ReadNode | src/mitra/ORAM.cpp:200-254 | a node is always found under the id and position its parent holds |
| NodeOram.Store.WriteNode | src/mitra/ORAM.cpp:215-268 | a new node enters the cache with its path fetched; a cached one is only marked |
| NodeOram.Store.WritePath | src/mitra/ORAM.cpp:154-181 | each fetched bucket is rewritten once from the cache |
| NodeOram.Store.Relink | src/mitra/ORAM.cpp:320-335 | the loops over heights and cache relink every cached node up to the bound and no higher one |
| NodeOram.Store.Finalize | src/mitra/ORAM.cpp:284-351 | fake reads up to 1.45 or 4.35 paths per level and no further; every fetched bucket rewritten and nothing left marked, for every tree; some outcome of relinking, with the root found at the new position if at all; sure to be found if and only if no node above the bound has a touched child that is not, or there is one leaf |
| NodeOram.Store.SetupInsert | src/mitra/ORAM.cpp:365-449 | an empty store holds exactly the given nodes afterwards |
| AvlOram.Handler.RightRotate | src/mitra/AVLTree.cpp:49-72 | the linked nodes stand for the rotated tree with exact heights; no other node changed; no needed node was missing from the cache |
| AvlOram.Handler.LeftRotate | src/mitra/AVLTree.cpp:77-100 | the mirror image |
| AvlOram.Handler.Rotate | src/mitra/AVLTree.cpp:132-176 | the four cases leave the rebalanced tree |
| AvlOram.Handler.Insert | src/mitra/AVLTree.cpp:110-177 | the subtree stands for the tree with the key inserted, nothing outside it changed, exactly the nodes of its path and the rotations were touched, and "not found in the cache" is never reached |
| AvlOram.Handler.Search | src/mitra/AVLTree.cpp:182-192 | the value stored under the key, or none; no node changed, and exactly the nodes on the path are touched |
| AvlOram.Handler.BatchSearch | src/mitra/AVLTree.cpp:197-223 | as a multiset, what single searches for each of the keys would find; exactly the nodes on their paths are touched |
| AvlSetup.BstShape | src/mitra/AVLTree.cpp:275-297 | the tree over n sorted nodes is balanced and has height floor(log2 n) + 1 |
| AvlSetup.BstContents | src/mitra/AVLTree.cpp:275-297 | the tree stands for the given pairs |
| AvlSetup.BstFits | src/mitra/ORAM.cpp:21-22 | at most as many keys as the store has slots stay within maxHeightOfAVLTree |
| AvlSetup.SortedArrayToBst | src/mitra/AVLTree.cpp:275-297 | the recursion writes links, heights and positions of that tree into the node array |
| AvlReach.AvlReachable | src/mitra/AVLTree.cpp:110-177 | every balanced search tree is the result of as many insertions, of different keys, as it has nodes |
| AvlReach.RunsFit | src/mitra/ORAM.cpp:306-335 | all runs of insertions of at most n different keys stay within a height if and only if n is below the size of the sparsest higher tree |
| AvlExposed.SearchExposes | src/mitra/AVLTree.cpp:182-192 | a search touches a child within the bound of a node above it if and only if the tree is above the bound and the last node read is not |
| AvlExposed.NewKeyPath | src/mitra/AVLTree.cpp:110-177 | an insertion of a new key touches every node on the key's path in the new tree and both children of each |
| AvlExposed.NewKeyExposes | src/mitra/AVLTree.cpp:110-177 | an insertion of a new key touches a child within the bound of a node above it if and only if the new tree is above the bound |
| AvlExposed.OutgrownIsExposed | src/mitra/ORAM.cpp:306-337 | every run of insertions that outgrows the bound has an insertion after which relinking can lose the tree |
| AvlExposed.TooHighIsLost | src/mitra/ORAM.cpp:306-337 | for every balanced tree one above the bound with its root and higher child read, positions after which the tree is not reached |
| AvlExposed.SparsestIsLost | src/mitra/ORAM.cpp:306-337 | such positions for a tree of 54 keys on 16 leaves with bound 7 |
| Omap.HeightBound | src/mitra/ORAM.cpp:18-22 | maxHeightOfAVLTree is the depth of the bucket tree plus three |
| Omap.Map.Find | src/mitra/OMAP.cpp:13-29 | the value stored under the key, or the empty string; the map is sure to stay valid if and only if its tree is within the bound, or the search reads no node within it, or there is one leaf |
| Omap.Map.Insert | src/mitra/OMAP.cpp:31-39 | the map changes at the key only; which nodes were touched, and that the map is sure to stay valid if and only if these are safe, for a new key if and only if the tree is within the bound or there is one leaf |
| Omap.Map.BatchSearch | src/mitra/OMAP.cpp:73-93 | as a multiset, the values of the keys that are stored; the map is sure to stay valid if and only if the nodes on the paths of the keys are safe |
| Omap.Map.SetupInsert | src/mitra/AVLTree.cpp:264-273 | an empty map holds exactly the given pairs afterwards; with at most one pair per slot the tree is within the bound |
| Omap.Run | src/mitra/OMAP.cpp:13-39 | every find of every run returns the value of the last insertion under its key before it, or the empty string, for any number of calls that insert fewer keys than the sparsest over-high tree has |
| Omap.CapacityFits | src/mitra/ORAM.cpp:306-320 | exactly when a map with as many keys as its capacity stays within the height that is relinked |
| Omap.CapacityOf64 | src/mitra/ORAM.cpp:306-320 | it does not for a capacity of 64: a run of 54 keys reaches height 8, one above the bound |
| Omap.ExposedOf64 | src/mitra/ORAM.cpp:306-337 | among these 54 insertions there is one after which relinking can lose the tree |
| Base64.GroupRoundTrip | src/utils/Utilities.cpp:62-65 | four sextets determine the three bytes they were cut from |
| Base64.EncodedLetter | src/utils/Utilities.cpp:41-70 | the four characters of every full group are the letters of the digits, to base 64, of the number that its three bytes make |
| Base64.EncodedOneMore | src/utils/Utilities.cpp:73-89 | one byte left over: the two letters of 16 times the byte, and "==" |
| Base64.EncodedTwoMore | src/utils/Utilities.cpp:73-89 | two bytes left over: the three letters of 4 times their number, and "=" |
| Base64.DecodedStops | src/utils/Utilities.cpp:94-134 | decoding stops at the first character outside the alphabet and yields floor(3n / 4) bytes for the n before it |
| Base64.DecodedFilled | src/utils/Utilities.cpp:119-131 | the bytes of a short last group are the first bytes of the group filled up with 'A' |
| Base64.RoundTrip | src/utils/Utilities.cpp:52-134 | decode(encode(x)) = x for every byte string, and the encoded length is 4 * ceil(n / 3) |
| Base64.Encode | src/utils/Utilities.cpp:52-92 | the loops and the padded tail compute the encoding |
| Base64.Decode | src/utils/Utilities.cpp:94-134 | the loops compute the decoding, ignoring everything from the first character outside the alphabet |

## Left out

- AES, the PRF, IVs, keys and byte packing: ciphertexts and labels are tuples, keywords and ids never overlap in a record, and no two labels collide.
- Communication counters, timers, printing and the RocksDB variants: no behaviour depends on them.
- Probability claims (stash size, obliviousness, leakage): a random path is any leaf.
- DeAmortized.Index.Update: one storage tier for all levels; that the remote tier with its exist flags does the same as the local one is in BasStore. The OMAP counters and their expiry by setDummy are a map per merge cycle, and the setup variant is not modelled. After the capacity is reached the two tiers differ in what NEW of the top level holds, because the remote one takes fresh keys; the bound on what search reaches is the same for both, and what it finds is then stated only as a part of what the sets hold.
- DeAmortized.Index.constructor: with N = 1 the model has the one level that the local tables provide.
- BasStore.Client.HandOver: leaves the replaced set in the heap, as the source does; memory that is never freed is not otherwise modelled.
- Amortized.Index.Update: the update that would address a level past the last one, which is undefined behaviour in the source, is excluded by the precondition; Amortized.CapacityExact says when it occurs.
- QosClient.Client.Insert: more inserts of one keyword than the tree has leaves are excluded by Room; the source does not check for them.
- QosClient.Client.Search: Ocnt, Odel and Ostate are the dictionaries of the localStorage branches. With the counters in the oblivious map the result does not hold: QosCounterRun.Miscounted is a run.
- PrfOram.Oram.WriteBox: src/horus/PRFORAM.cpp:219 reads the position from a box that line 164 may have freed; the model takes the position that was passed in.
- PrfOram.Oram.BatchWrite: null ids, which the source takes here without a check and then drops as dummy blocks, are excluded.
- PrfOram.Oram.SetupInsert: takes the nodes in any order, so the sort by position is not modelled.
- Horus.Scheme.Insert: box values are nothing, an id or '@' with a counter, instead of strings; the two OMAP stores are maps, as Omap.Run justifies, and the box store is the verified PRFORAM. Of an operation that runs out of write budget, after which the tables and the boxes disagree, it says only that it fails and that the box store stays sound, here and in Remove and Search. The setup path, which never stores latestUpdatedCounter, is not modelled.
- NodeOram.Store.ReadNode: nodes are values in the cache map and a change through a pointer is an assignment to the map, so aliasing between node pointers is not captured. An id that is not linked at the given position is excluded.
- Omap.Map.Insert: keys are integers and 0 is the null key; keys whose first four bytes are zero, which the source takes for null, are excluded. Values are strings without zero bytes.
- Omap.Map.SetupInsert: for pairs in key order, as an ordered dictionary yields them.
- Omap.Map.BatchSearch: values come without their zero padding, which the source cuts in find (src/mitra/OMAP.cpp:24-25) but keeps here (src/mitra/OMAP.cpp:85-86).
- incrementFileCnt and the other counter updates inside the tree, batchInsert with batchWrite on, and the copies of ORAM and AVL tree in the other scheme directories.
- Mitra's client and server: the same net-count search over a single counter, and easier.
- QosCounterRun.Search: ends with the answer; the write-back, which comes after it, is modelled in QosClient.Client.Search.
