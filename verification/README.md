# Weakforced: a verified model

This project models the parts of weakforced that hold its state and move it between
nodes, and proves what they promise for every input, every run and every interleaving:

- **Netmask tries** (`Words`, `Addresses`, `NetmaskTree`, `NetmaskRuns`): the mask
  arithmetic, and the binary trie with its nodes, parent links, payload set and pruning.
- **Black and white lists** (`BlackWhiteList`, `ListRuns`): the multi-index list of IP entries
  kept coherent with its trie, expiry, replication of its changes, and what is on the list
  after any run.
- **Time-windowed statistics** (`Rings`, `Restores`, `WindowSums`, `SumConditions`,
  `StatsEntry`): the ring of windows with its lazy cleaning, exactly when its sums are right,
  how stale a read can be, and exactly which restored dumps keep that bound.
- **Sketches** (`CountMin`, `HyperLogLog`, `SketchMerges`): counters, registers, hashing and
  merging.
- **The statistics database** (`StatsDB`, `Sharding`, `Members`, `StringReads`, `FieldSums`,
  `SketchSums`, `LastChanges`): the key list, expiry by last write, shards, the three kinds
  of members, reads that change them, and what a field's sums mean.
- **Replication** (`Replication`, `Calls`, `ThrowingCalls`, `Convergence`, `OwnStarts`,
  `Divergence`, `FullSync`, `SyncCodec`, `SyncRuns`): calls and messages and their effect,
  calls that throw, convergence of nodes, and full synchronisation of every reachable
  database down to the bytes.
- **Forwarding** (`Forwarding`, `ForwardingRuns`, `ForwardingWorkers`, `ForwardingSystem`,
  `ForwardingProgress`): replication between sites as a message-passing state machine, the
  processes with bounded queues that refine it, and their termination.
- **Support** (`Base64`, `Nonces`, `StateHolder`): the key codec, the control channel's
  nonces, and the shared-state holder under all interleavings of its threads.

Code that only computes is modelled by functions.  Code that updates things in place is
modelled by methods with loops, and by classes with `modifies` clauses, each proved
against a function of the old state; the properties are then lemmas about those functions
and about runs of operations.  The clock, hash functions, printed forms, random hash
coefficients, encryption and the network are arguments of the members that need them.
The C++ heap of the trie is an explicit memory: a map from pointers to nodes.

`dafny verify dfyconfig.toml` checks everything.

## What turned out to be conditional

- When every write meets `WindowSums.Guard`, a read of an integer field is right if and only
  if it meets the guard too or the changes of the window that must leave cancel out
  (`ReadRightIff`).  The slots hold exactly their windows' writes if and only if every
  operation meets the guard (`CleanExact`, `RunExact`).  `UnguardedSumIsWrong` is a run of
  three operations where the lazy cleaning makes the sum wrong in both directions.
- A read between two writes does no harm by itself, but its scan may leave the second write
  unguarded: two nodes that are told the same then answer differently
  (`ReadMakesNodesDiffer`).  While all writes are
  guarded, two reads after the same changes agree if and only if both meet the guard or
  neither does (`ReadsAgreeIff`, `DatabasesConverge`).  Estimates of a count-min field are
  never below what the slots hold, guarded or not (`NeverBelowHeld`).
- The staleness bound grows by as much as restored stamps are ahead of the local clock
  (`StalenessBound`, `StampAheadIsStale`).  A restore keeps a given bound, whatever follows,
  if and only if every slot it leaves is empty if unstamped, expired, or stamped no more than
  the skew and a second after the clock and each of its writes (`RestoreNeverStaleIff`).
- Self-assignment of a trie empties it (`NetmaskTree.Assign`).
- A replicated blacklist entry expires when the local one does if and only if its lifetime
  fits 32 unsigned bits (`ReplicaAddAgrees`).
- Merging into a HyperLogLog register gives the maximum if and only if the register is not
  the smaller one or its bits are among the other's (`MergeIsMaxIff`).  When sum() merges all
  slots, every merge gives the maximum so far if and only if that holds at every step
  (`MergesAreMaxIff`), and the result is the maximum if and only if what comes before the
  first largest register merges to bits of that register (`SumIsMaxIff`).  Otherwise it
  depends on the order of the slots (`ItemsDependOnOrder`).
- Asking a HyperLogLog field about a string changes it unless its sketch covers the string
  (`GetStringIff`, `GetWindowsStringIff`).  The staleness bound survives such a read if and
  only if the slots it asks are stamped (`ReadKeepsBoundIff`).
- A call that throws is not replicated, although it may have made its key and its entry.  The
  replica keeps the caller's contents if and only if the entry was there and not due for
  cleaning (`ReplicaSurvivesThrowIff`, `AddingAbcDiverges`).
- A count-min estimate is exact if and only if in some row nothing else was counted in the
  item's column (`EstimateExactIff`).
- A HyperLogLog takes register and rank from the lower bits of the hash and ignores the top
  ones (`TopBitsIgnored`).
- Nodes draw their own count-min coefficients.  Totals converge all the same; counters agree
  for all updates if and only if every item has the same columns (`CellsAgreeIff`).
- Nodes take the start of their windows from their own construction.  Their sums agree if and
  only if what has left the windows of the one weighs what has left those of the other
  (`DatabaseSumsAgreeIff`, `SumsDiffer`).  Windows with the same changes are in slots that
  agree (`WindowsAgree`).  Registers of HyperLogLog sums can differ although nothing has left
  (`SketchSumsDiffer`); while nothing has, and the slots of one node merge cleanly, they agree
  if and only if those of the other do (`SketchSumsAgree`).
- The shards of one node have start times of their own, too: a key is answered as by one
  database that was made when the key's shard was (`ShardAnswersAsItsOwn`).
- A destination of a forwarder whose key equals the forwarder's own is sent empty packets,
  so it receives nothing (`ForwardLink`).
- An access to the shared state returns a version that the shared pointer had during the
  access if and only if it had to load, or no writer was between its two stores when the
  access began (`AccessReturnsPointerIff`, `OldVersionReturned`).
- The Base64 decoder accepts characters outside the alphabet; `Encode1Decode1` says which,
  and which are read as themselves.
- Both directions of a control channel use a common nonce if and only if the exchanged
  nonces agree after their counters (`DirectionsCollide`).
- `TWStatsEntry::sum` has a cache that no code ever marks valid, so it is not modelled.
- `ReplicationOperation::unserialize` reports success, with no operation, for a message it
  cannot parse; such messages have no effect and are not modelled.

## Model

| member | source | states |
|---|---|---|
| `Addresses.MakeNetmask` | common/iputils.hh:322-339 | a length up to the family's width is kept, a longer one clamped to it |
| `Addresses.Match` | common/iputils.hh:364-408 | the v4 word form and the v6 byte loop both decide equality of the leading bits, for every length |
| `Addresses.GetMaskedNetwork` | common/iputils.hh:451-473 | the result is the address with all bits after the prefix cleared |
| `Addresses.BuildNetwork` | common/iputils.hh:420-445 | the network that is printed is the same masked address |
| `Addresses.ComboAddress.Truncate` | common/iputils.cc:232-259 | truncating in place clears exactly the bits after the prefix, across byte boundaries |
| `Addresses.MaskFormsAgree` | common/iputils.hh:364-473 | an address matches iff its masked form equals the masked network |
| `NetmaskTrees.MatchIsPrefix` | common/iputils.hh:364-408 | a netmask matches iff its path in the trie is a prefix of the address |
| `NetmaskTrees.DeepestIsScan` | common/iputils.hh:681-735 | the deepest stored node on an address's path is the longest match of a linear scan |
| `NetmaskTrees.ScanIsUnique` | common/iputils.hh:681-735 | the linear scan determines the answer |
| `NetmaskTrees.InsertIs` | common/iputils.hh:605-656 | insert changes one entry: its netmask becomes the key, its value stays, and a new one is false |
| `NetmaskTrees.AttachKeepsShape` | common/iputils.hh:605-658 | hanging a new node below another keeps every link, parent, depth and payload consistent |
| `NetmaskTrees.DetachKeepsShape` | common/iputils.hh:737-753 | unlinking a bare leaf keeps them consistent and loses no payload |
| `NetmaskTrees.Search` | common/iputils.hh:681-735 | the descent ends with the deepest stored prefix of at most max_bits on the path |
| `NetmaskTrees.CleanupTree` | common/iputils.hh:737-753 | pruning upwards ends, changes no payload and leaves no dead leaf |
| `NetmaskTrees.InsertIn` | common/iputils.hh:605-658 | the prefix is stored under this key, an existing value is kept, and every other prefix of both families is unchanged |
| `NetmaskTrees.EraseIn` | common/iputils.hh:756-802 | exactly the prefix is removed, and with cleanup every leaf but the root holds a value |
| `NetmaskTrees.LookupIn` | common/iputils.hh:681-735 | the answer is that of the linear scan over the stored prefixes |
| `NetmaskTrees.InsertAllIn` | common/iputils.hh:579-592 | copying gives the same table, whatever order the payload set is walked in |
| `NetmaskTrees.FilingSize` | common/iputils.hh:814-816 | there are as many payloads as stored prefixes |
| `NetmaskTrees.NetmaskTree.Insert` | common/iputils.hh:605-658 | insertion returns the payload of the key, new or existing |
| `NetmaskTrees.NetmaskTree.InsertOrAssign` | common/iputils.hh:661-667 | the key's value is set, all others stay |
| `NetmaskTrees.NetmaskTree.Lookup` | common/iputils.hh:681-735 | longest match by linear scan, or null if nothing matches |
| `NetmaskTrees.NetmaskTree.HasKey` | common/iputils.hh:670-673 | true iff this very key is stored |
| `NetmaskTrees.NetmaskTree.Erase` | common/iputils.hh:756-802 | exactly the key's prefix is removed |
| `NetmaskTrees.NetmaskTree.Clear` | common/iputils.hh:828-831 | the table is empty |
| `NetmaskTrees.NetmaskTree.Size` | common/iputils.hh:814-816 | the number of stored prefixes |
| `NetmaskTrees.NetmaskTree.Copy` | common/iputils.hh:579-584 | the copy has the same table |
| `NetmaskTrees.NetmaskTree.Assign` | common/iputils.hh:586-592 | assignment copies the table, except that self-assignment empties it |
| `NetmaskRuns.Run` | common/iputils.hh:579-831 | in every run of inserts, erases, clears, copies and lookups, every lookup answers as the scan over the table so far |
| `NetmaskRuns.AnswersAreUnique` | common/iputils.hh:737-802 | hence trees with and without cleanup, copied or not, answer alike |
| `BlackWhiteLists.KeyRoundTrip` | wforce/blackwhitelist.cc:51-65 | the key string of a netmask denotes the masked network with the same length |
| `BlackWhiteLists.EraseKeyKeeps` | wforce/blackwhitelist.hh:163-174 | erasing a key keeps the time and sequence indices over the same entries |
| `BlackWhiteLists.AddToKeeps` | wforce/blackwhitelist.hh:163-174 | so does adding one |
| `BlackWhiteLists.ScanIsLongest` | wforce/blackwhitelist.cc:183-229 | the entry of the trie's answer is the longest matching entry of the list |
| `BlackWhiteLists.ReplicaAddAgrees` | wforce/replication_bl.cc:30-74 | a replica adds the same entry iff the lifetime fits the message's 32 unsigned bits |
| `BlackWhiteLists.ReplicaDeleteAgrees` | wforce/replication_bl.cc:67-69 | a received delete leaves exactly the entries of other keys, as the local call does |
| `BlackWhiteLists.PurgeIn` | wforce/blackwhitelist.cc:473-507 | the loop ends and removes exactly the entries with expiration up to now, keeping the others' order and the trie coherent |
| `BlackWhiteLists.CheckIn` | wforce/blackwhitelist.cc:183-187 | true iff some entry's mask matches |
| `BlackWhiteLists.GetIn` | wforce/blackwhitelist.cc:221-229 | the matching entry with the longest prefix, or none |
| `BlackWhiteLists.CheckAgreesWithGet` | wforce/blackwhitelist.cc:183-229 | checkEntry succeeds iff getEntry does, and the longest entry is unique |
| `BlackWhiteLists.BlackWhiteListDB.AddEntryInternal` | wforce/blackwhitelist.cc:95-181 | the entry replaces one with its key; list and trie stay coherent; one message iff asked |
| `BlackWhiteLists.BlackWhiteListDB.DeleteEntryInternal` | wforce/blackwhitelist.cc:304-386 | exactly the key's entry goes from list and trie |
| `BlackWhiteLists.BlackWhiteListDB.ApplyOperation` | wforce/replication_bl.cc:59-74 | a received add replaces its key's entry, a received delete removes it, and nothing is sent |
| `BlackWhiteLists.BlackWhiteListDB.PurgeEntries` | wforce/blackwhitelist.cc:473-507 | exactly the unexpired entries remain, in order |
| `BlackWhiteLists.Run` | wforce/blackwhitelist.cc:95-507 | in every run, every check and get answers by the entries so far |
| `ListRuns.ListIs` | wforce/blackwhitelist.cc:95-507 | after any run of local and received operations the list holds exactly the entries that some operation put on it and none has since replaced, deleted or purged when expired |
| `ListRuns.ListOrder` | wforce/blackwhitelist.cc:168-181 | in every run the list is in the order in which its keys were last put on it |
| `ListRuns.PeerFollows` | wforce/replication_bl.cc:59-74 | a peer that receives every add and delete, and purges when the node does, has the node's list, if all lifetimes fit 32 bits |
| `Rings.CleanFresh` | common/twmap.hh:433-455 | cleaning keeps every stamp newer than the last scan minus the span, also when it skips, and no write older than its stamp by more than the skew |
| `Rings.StepFresh` | common/twmap.hh:293-455 | so does every operation, restores with stamps up to the skew ahead of the clock included |
| `Rings.StalenessBound` | common/twmap.hh:401-455 | in every run, no read counts a write aged (N+1)*W seconds or more, or that plus the skew of restored stamps |
| `Rings.StampAheadIsStale` | common/twmap.hh:401-412 | a run with a restored stamp ahead of the clock whose read counts a write older than (N+1)*W |
| `Restores.StepSound` | common/twmap.hh:293-455 | every operation keeps the slots empty if unstamped, due to be cleared, or stamped close to the clock and their writes |
| `Restores.RestoreNeverStaleIff` | common/twmap.hh:401-455 | for every dump and all operations and restores after it, the staleness bound holds iff each slot, brought or left, is empty if unstamped, expired, or stamped at most skew + 1 seconds after the clock and each of its writes |
| `WindowSums.CleanExact` | common/twmap.hh:433-455 | cleaning leaves the slots with exactly the writes of the last N windows iff the guard holds before the call |
| `WindowSums.PutExact` | common/twmap.hh:293-327 | a guarded write adds to exactly the current window and stamps it with that window's start |
| `WindowSums.RunExact` | common/twmap.hh:293-455 | over whole runs: all operations work on exact slots iff all meet the guard |
| `SumConditions.ScheduledRunIsGuarded` | common/twmap.hh:442-443 | in every run whose operations each scan or stay in the window of the last scan, all meet the guard |
| `WindowSums.IntRunIsTotal` | common/twmap.hh:81-99 | integer members are the totals of the writes their slots hold, in every run |
| `SumConditions.SumRightIff` | common/twmap.hh:364-373 | a read of an exact ring sums the last N windows iff the guard holds before it or the leaving window's changes cancel out |
| `SumConditions.ReadRightIff` | common/twmap.hh:348-383 | in every run whose writes meet the guard: sum is the adds minus subs since the last reset in the last N windows, and get_windows their totals newest first, iff this read meets the guard or the leaving window cancels out |
| `WindowSums.UnguardedSumIsWrong` | common/twmap.hh:442-443 | a run where the lazy cleaning counts an expired write and later loses a live one |
| `StatsEntries.TWStatsEntry.CleanWindows` | common/twmap.hh:433-455 | the loop in place computes the ring function |
| `StatsEntries.TWStatsEntry.Update` | common/twmap.hh:293-327 | clean, change and stamp in place |
| `StatsEntries.TWStatsEntry.GetWindows` | common/twmap.hh:348-355 | the values of the windows, newest first |
| `StatsEntries.TWStatsEntry.VisitSlots` | common/twmap.hh:356-363 | the loop that goes round the ring asks every slot exactly once, newest first |
| `StatsEntries.TWStatsEntry.GetTouching` | common/twmap.hh:333-337 | a get that changes its member changes the current slot only, and does not stamp it |
| `StatsEntries.TWStatsEntry.GetWindowsTouching` | common/twmap.hh:356-363 | a get_windows whose get changes the member changes every slot once, and stamps none |
| `StatsEntries.TWStatsEntry.ResetSlots` | common/twmap.hh:384-391 | every slot is erased and unstamped |
| `StatsEntries.TWStatsEntry.Dump` | common/twmap.hh:392-400 | the slots in order and the start time |
| `StatsEntries.TWStatsEntry.RestoreFrom` | common/twmap.hh:401-412 | the dumped slots replace the first ones and the next operation scans |
| `StatsEntries.TWStatsEntry.SendTo` | common/twmap.hh:392-412 | a dump restored in place makes the peer's entry equal to the sender's, due for cleaning |
| `StatsEntries.SumInts` | common/twmap.hh:91-99 | the sum of the slots |
| `CountMin.HashString` | ext/ext/count_min_sketch.cpp:139-146 | the 64-bit loop computes djb2 modulo 2^32, up to the first NUL |
| `CountMin.HashIsDigits` | ext/ext/count_min_sketch.cpp:139-146 | that is the characters read as digits of base 33 after 5381, modulo 2^32 |
| `CountMin.ColumnIs` | ext/ext/count_min_sketch.cpp:92-92 | the column is the remainder of the linear hash |
| `CountMin.CellIsColumnCount` | ext/ext/count_min_sketch.cpp:88-95 | every counter is the total of the updates hashed to its column |
| `CountMin.RowsSumToTotal` | ext/ext/count_min_sketch.cpp:88-129 | every row sums to the total |
| `CountMin.NeverUnderCounts` | ext/ext/count_min_sketch.cpp:104-118 | true count <= estimate <= total for non-negative updates |
| `CountMin.EstimateIsMin` | ext/ext/count_min_sketch.cpp:104-112 | the estimate is at most what each row has counted in the item's column, and equals one of these or the largest int |
| `CountMin.EstimateExactIff` | ext/ext/count_min_sketch.cpp:104-112 | with non-negative counts it is the true count iff in some row nothing else was counted in the item's column |
| `CountMin.CellsAgreeIff` | ext/ext/count_min_sketch.cpp:57-61 | two sketches with coefficients of their own have the same counters after every sequence of updates iff every item has the same columns |
| `CountMin.CellsDiffer` | ext/ext/count_min_sketch.cpp:88-95 | two sketches and one update after which they differ |
| `CountMin.CongruentCoefficients` | ext/ext/count_min_sketch.cpp:92-92 | coefficients equal modulo 2^32 give the same columns |
| `CountMin.CountMinSketch.Add` | ext/ext/count_min_sketch.cpp:88-95 | the loop over the rows in place |
| `CountMin.CountMinSketch.Query` | ext/ext/count_min_sketch.cpp:104-112 | the minimum over the rows: at most every row's counter and equal to one, or the largest int |
| `CountMin.CountMinSketch.EraseAll` | ext/ext/count_min_sketch.cpp:121-129 | all counters and the total are zero |
| `HyperLogLogs.LeadingZeroCount` | ext/ext/hyperloglog.hpp:39-53 | the shifting loop finds the position of the first set bit, up to its limit |
| `HyperLogLogs.RegistersAreMax` | ext/ext/hyperloglog.hpp:109-117 | every register is the largest rank of the distinct items hashed to it |
| `HyperLogLogs.RegistersDependOnSet` | ext/ext/hyperloglog.hpp:109-117 | order and repetition do not matter |
| `HyperLogLogs.TopBitsIgnored` | ext/ext/hyperloglog.hpp:109-117 | with at most 2^16 registers, hashes that differ in their top b bits only have the same register and rank |
| `HyperLogLogs.MergeIsMaxIff` | ext/ext/hyperloglog.hpp:161-165 | when the merge of two registers is their maximum |
| `HyperLogLogs.MergeDependsOnOrder` | common/twmap.hh:140-149 | two sketches whose merge differs with the order of the slots |
| `SketchMerges.MergesAreMaxIff` | common/twmap.hh:140-149 | every merge on the way has the maximum of a register over the slots so far iff each slot's register is no larger than the maximum before it or contains its bits |
| `SketchMerges.SumIsMaxIff` | common/twmap.hh:140-149 | the merged register is the maximum over all slots iff the merge of those before the first largest one has no bit outside it |
| `SketchMerges.ItemsDependOnOrder` | common/twmap.hh:140-149 | two slots of one item each, of ranks 1 and 2 in one register, give 3 in one order and 2 in the other |
| `HyperLogLogs.MergeAllBounds` | common/twmap.hh:140-149 | folding any sketches into an empty one gives registers at least the maximum and below 2^k if all are |
| `HyperLogLogs.MergedRegistersFit` | common/twmap.hh:140-149 | hence at most 31 for sketches made by adds |
| `HyperLogLogs.HyperLogLog.AddItem` | ext/ext/hyperloglog.hpp:109-117 | one register is raised to the item's rank |
| `HyperLogLogs.HyperLogLog.MergeWith` | ext/ext/hyperloglog.hpp:155-166 | refused if the sizes differ, else every register is merged; also with itself |
| `StatsDBs.SpliceTouches` | common/twmap.hh:610-617 | splicing the node of a stored iterator moves exactly its key to the end, and every iterator still points at its own key |
| `StatsDBs.FindCreate` | common/twmap.hh:708-754 | unknown fields are refused, missing keys and fields are made only if asked for, and the index stays consistent |
| `StatsDBs.OnKey` | common/twmap.hh:893-950 | all fields of the key and only they are visited |
| `StatsDBs.Expire` | common/twmap.hh:662-687 | the pass ends and drops exactly the front of the list from list and map |
| `StatsDBs.Apply` | common/twmap.hh:635-991 | every operation does what the list-free database does and keeps the index invariant |
| `StatsDBs.TWStatsDB.Do` | common/twmap.hh:635-991 | the same for the object |
| `StatsDBs.OrderIsLastWrite` | common/twmap.hh:610-617 | in every run the list is duplicate-free, holds exactly the map's keys and is in order of last write |
| `StatsDBs.ExpiryKeepsRecent` | common/twmap.hh:662-687 | a pass leaves exactly map_size_soft entries if there were more, unchanged, each written after every removed one |
| `LastChanges.EventOrder` | common/twmap.hh:708-817 | on a node's entries: a change moves its key to the end of the list if it does not throw or creates the key; resets, reads and throwing changes of a key that is there leave the order |
| `LastChanges.OrderIsLastChange` | common/twmap.hh:610-617 | after any calls, reads and expiry passes the list is in the order in which its keys were last changed, by a call that did not throw or created the key |
| `LastChanges.PassKeepsLatest` | common/twmap.hh:662-687 | and a pass keeps as many keys as the limit, each changed later than all it drops |
| `StatsDBs.RepliesAre` | common/twmap.hh:635-965 | what reads of one and of all fields, setFields and the size answer, and when they answer nothing |
| `Sharding.ShardsSimulate` | wforce/twmap-wrapper.cc:153-351 | in every run without expiry, any number of shards holds together what one shard holds that makes each key's entries as the key's shard does |
| `Sharding.ShardingIsTransparent` | wforce/twmap-wrapper.cc:153-361 | and answers every next operation alike, the size included |
| `Sharding.ShardsUseOwn` | wforce/twmap-wrapper.cc:31-35 | a wrapper over shards with start times of their own makes a key's entries with those of the key's shard |
| `Sharding.ShardAnswersAsItsOwn` | wforce/twmap-wrapper.cc:31-35 | in every run without expiry, an operation on a key is answered as by one database with the start time of the key's shard |
| `Sharding.SizeCountsKeys` | wforce/twmap-wrapper.cc:354-361 | get_size counts distinct keys, each in its own shard |
| `Sharding.SoftSizeHoldsInRuns` | wforce/twmap-wrapper.cc:363-368 | after any run, set_size_soft(size) and one pass per shard leave exactly size / n keys in every shard that had more, all keys in the others, and at most size together |
| `Sharding.DefaultSoft` | wforce/twmap-wrapper.cc:31-35 | without set_size_soft every shard keeps its share of 524288 |
| `Sharding.SetFieldsIff` | wforce/twmap-wrapper.cc:72-90 | setFields sets the fields of every shard iff all types are known, and answers true either way |
| `Sharding.PlaceIff` | wforce/twmap-wrapper.cc:153-158 | a key's shard is the remainder of its hash |
| `Replication.SignedRoundTrip` | wforce/replication.proto:34-34 | an integer survives the unsigned message field iff it is an int |
| `Replication.ReplicaDoesTheSame` | wforce/replication_sdb.cc:30-174 | for every call and shape of parameters, the peer's decoded call comes down to the caller's change, whatever its prefixes |
| `Replication.ReplicaEquivalence` | wforce/replication_sdb.cc:109-174 | receiving the message has the effect of the call on every state and sends nothing |
| `Replication.MalformedIgnored` | wforce/replication_sdb.cc:109-174 | messages for another database, or without a field or parameter that their kind needs, change nothing |
| `Replication.ReplicaFollows` | wforce/twmap-wrapper.cc:160-351 | over whole runs, throwing calls included: the node holds what all its calls make, a peer that receives its messages what the sent ones make, whatever the shards of either |
| `Replication.SentIsAll` | wforce/twmap-wrapper.cc:160-351 | without throwing calls every call is sent, so equal contents stay equal |
| `Replication.ThrowingCallAgreesIff` | wforce/twmap-wrapper.cc:160-239 | after a call that throws the peer is as before, and holds the caller's contents iff the call left its key as it was |
| `ThrowingCalls.ReplicaSurvivesThrowIff` | common/twmap.hh:708-754 | that is, iff the entry was there and not due for cleaning |
| `ThrowingCalls.AddingAbcDiverges` | common/twmap.hh:82-82 | adding "abc" to an integer field of an empty database leaves the key on the caller only |
| `Replication.TWStringStatsDBWrapper.AddInternal` | wforce/twmap-wrapper.cc:160-209 | all branches, the early return, what is sent and whether it throws |
| `Replication.TWStringStatsDBWrapper.SubInternal` | wforce/twmap-wrapper.cc:216-239 | both branches, what is sent and whether it throws |
| `Replication.TWStringStatsDBWrapper.ResetInternal` | wforce/twmap-wrapper.cc:316-330 | the key's fields are reset and one message is sent iff asked |
| `Replication.TWStringStatsDBWrapper.ResetFieldInternal` | wforce/twmap-wrapper.cc:337-351 | the same for one field |
| `Replication.TWStringStatsDBWrapper.ApplyOperation` | wforce/replication_sdb.cc:109-174 | dispatch of every message, malformed ones included; nothing is sent, and it throws iff the call does |
| `Calls.KeyOfCall` | wforce/twmap-wrapper.cc:124-144 | a string key is itself, an integer is printed, an IPv4 address is cut to the v4 prefix and an IPv6 address to the v6 prefix |
| `Calls.CallChanges` | wforce/twmap-wrapper.cc:160-239 | add and sub change the current member of their key and field, made if needed: an integer by the number, a HyperLogLog by the string or printed number or address, a count-min sketch by the string once or param2 times; a string that is no number changes no integer |
| `Calls.CallLeaves` | wforce/twmap-wrapper.cc:160-239 | and no other entry of any shard |
| `Calls.AddAndSub` | wforce/twmap-wrapper.cc:160-239 | on an integer field, what is read at once goes up by i after add(i) and down by i after sub(i) |
| `Calls.PeerSums` | wforce/replication_sdb.cc:109-174 | a peer that receives the message reads the same change |
| `Calls.ResetChanges` | wforce/twmap-wrapper.cc:316-351 | reset erases and unstamps every field of its key, reset_field one; nothing else changes and nothing is made |
| `Calls.CallSends` | wforce/replication_sdb.cc:30-88 | one message is sent iff asked for, enabled, not refused and not thrown; it names the call's kind, key, field, string and number |
| `Members.ChangesCommute` | common/twmap.hh:73-237 | any two changes of any member commute |
| `Members.FoldPermutes` | common/twmap.hh:73-237 | a member depends only on which changes it received and how often |
| `Members.FoldMeans` | common/twmap.hh:81-205 | changes add and subtract in integer members, add items to registers and count strings, and are ignored where the code ignores them |
| `Members.SlotsMean` | common/twmap.hh:293-455 | when the writes meet the guard, each slot a read finds, guarded or not, holds what its window's changes since the last reset mean for its kind, stamped with the window's start; the windows are the last N up to the current one or, without the guard, the one before |
| `Members.ReplicasConverge` | common/twmap.hh:293-455 | entries with blank members of their own, guarded writes and reads at any times that receive the same changes in each of the windows both reads show hold the same stamps, integers, registers and count-min totals, and the same counters where columns agree |
| `Members.ReadsAgreeIff` | common/twmap.hh:433-455 | after the same changes in each of the last N+1 windows, with guarded writes, two reads agree iff both meet the guard or neither does |
| `Convergence.EntryIsRun` | common/twmap.hh:708-817 | in every run of calls and reads the entry of a key and field exists iff it was changed, and is what its own operations, reads included, make of a new entry |
| `Convergence.DatabasesConverge` | common/twmap.hh:708-965 | two databases with the same start time and members of their own making, the writes to a key and field guarded: if they make the same changes there in each window that the reads show, in any order, among any other changes and read at any times, the reads agree in that sense; after the same changes in the last N+1 windows they agree iff they show the same windows |
| `Convergence.DatabaseSumsAgreeIff` | common/twmap.hh:484-491 | two databases made at different times, each read at any times, the writes guarded: after the same changes to an integer or count-min field, the sums agree iff what has left the windows each read shows weighs the same |
| `Convergence.ShardedDatabasesConverge` | wforce/twmap-wrapper.cc:160-351 | the same convergence for any number of shards on either node |
| `OwnStarts.WindowsAgree` | common/twmap.hh:488-488 | entries whose windows start at different times, the writes guarded: a window of the one and a window of the other with the same changes are in slots with the same integer, registers and count-min total |
| `OwnStarts.OneWindowAgrees` | common/twmap.hh:488-488 | after the same changes, all within one window on each, these slots agree and all others are as new |
| `OwnStarts.DatabaseWindowsAgree` | common/twmap.hh:484-491 | the same for databases made at different times and read at any times |
| `OwnStarts.ShardedWindowsAgree` | wforce/twmap-wrapper.cc:31-35 | and for any shards on either node |
| `OwnStarts.DatabaseSketchSumsAgree` | common/twmap.hh:140-149 | databases made at different times, the writes to a HyperLogLog field guarded and all in the last N windows of each: where the slots of one node merge cleanly, a register of the sums agrees iff those of the other do |
| `Divergence.ReadMakesNodesDiffer` | common/twmap.hh:442-443 | two nodes told the same at the same times, one of them read in between: its next write is not guarded, and their sums are 7 and 12 |
| `Members.ThrowsIff` | common/twmap.hh:82-85 | only a string that is no number, given to an integer field, throws |
| `StringReads.GetStringIff` | common/twmap.hh:333-337 | get(s) leaves the entry as an ordinary read does iff the current member is no HyperLogLog or its register for s is as large as the rank of s |
| `StringReads.GetWindowsStringIff` | common/twmap.hh:356-363 | get_windows(s) does iff that holds of every slot |
| `StringReads.EmptyCoversNothing` | common/twmap.hh:136-136 | any string changes an empty sketch |
| `StringReads.ReadStays` | common/twmap.hh:136-136 | what a read leaves in an unstamped slot no later cleaning removes |
| `StringReads.ReadKeepsBoundIff` | common/twmap.hh:333-363 | for all later runs, the staleness bound survives get(s) iff the current slot is stamped, and get_windows(s) iff all are |
| `FieldSums.SumIsWeight` | common/twmap.hh:91-201 | when the writes meet the guard, sum() of an integer or count-min field is the weight of the changes since the last reset in the windows the read shows; that is the last N windows' weight iff the read meets the guard or the leaving window's changes cancel out |
| `FieldSums.FieldNeverUnderCounts` | common/twmap.hh:202-210 | when the writes meet the guard, and whether or not the read does, sum(s) of a count-min field is at least the count of s since the last reset in the last N windows and at most the sum of all counts |
| `FieldSums.NeverBelowHeld` | common/twmap.hh:202-210 | in every run, guarded or not, sum(s) is at least the count of s held in the slots and at most the sum of all counts |
| `FieldSums.SumsAgreeIff` | common/twmap.hh:488-488 | entries whose windows start at different times, with guarded writes and reads at any times: after the same changes the sums agree iff what has left the windows each read shows weighs the same |
| `FieldSums.YoungSumsAgree` | common/twmap.hh:488-488 | in particular while every change lies in the last N windows of its node, whether or not the reads meet the guard |
| `FieldSums.SumsDiffer` | common/twmap.hh:488-488 | two start times and one add after which the sums differ |
| `SketchSums.SumIsUnionIff` | common/twmap.hh:140-149 | when the writes meet the guard, a register of sum() of a HyperLogLog field is never less than that of one sketch with all items of the windows the read shows, and equal iff what is merged before the first largest register has no bit outside it |
| `SketchSums.SketchSumsAgree` | common/twmap.hh:140-149 | entries whose windows start at different times, after the same changes in the last N windows of each: where the one merges cleanly, the registers of the sums agree iff the other does |
| `SketchSums.SketchSumsDiffer` | common/twmap.hh:140-149 | two start times and two strings after which a register of the sums is 3 on one node and 2 on the other, although nothing has aged |
| `Forwarding.RanksDecrease` | wforce/replfwd-replication.cc:82-126 | a message gives rise only to messages of smaller rank with the same operation |
| `Forwarding.OriginAtMostOnce` | wforce/wforce-replication.cc:82-103 | an operation leads to at most one arrival at any node and none at its originator |
| `Forwarding.SiblingLinkIff` | wforce/wforce-replication.cc:62-122 | a sibling accepts what is replicated to it iff it knows the sender and the key is its own |
| `Forwarding.ForwardLinkIff` | wforce/replfwd-replication.cc:107-125 | a forward destination accepts iff the link's switch for the operation's type is on, it knows the sender, the key is its own and no link key equals the forwarder's |
| `Forwarding.RespondIff` | wforce/replfwd-replication.cc:82-126 | exactly which messages a forwarder sends on: statistics operations over links with sdb_send, list operations over links with wlbl_send, marked; what came marked to its siblings, unmarked; and under which key |
| `Forwarding.ReplicateIff` | wforce/wforce-replication.cc:82-103 | exactly which messages a node sends for its own operation, and under which key |
| `Forwarding.AcceptsIff` | wforce/wforce-replication.cc:105-182 | which messages are taken up |
| `Forwarding.ListsGoAlike` | wforce/replfwd-replication.cc:107-110 | blacklist and whitelist operations are delivered to the same nodes |
| `Forwarding.OriginDelivers` | wforce/replfwd-replication.cc:82-126 | the nodes an operation reaches are exactly those over a sibling link or a sibling, a forward and a sibling link |
| `Forwarding.TwoSitesDeployed` | wforce/replfwd-replication.cc:82-126 | a deployment of two sites meets the assumptions |
| `Forwarding.TwoSitesDeliver` | wforce/replfwd-replication.cc:107-125 | and an operation crosses it |
| `ForwardingRuns.StepConserves` | wforce/replfwd-replication.cc:82-126 | copies seen plus copies to come never exceed what was made, with equality unless some were lost |
| `ForwardingRuns.NoDuplicates` | wforce/replfwd-replication.cc:82-126 | in every run with any order and losses, no operation arrives or is applied twice anywhere, or returns to its originator |
| `ForwardingRuns.DeliveryIsExact` | wforce/replfwd-replication.cc:82-126 | with nothing lost and nothing in flight, an operation has been applied exactly once by exactly the nodes it is to reach |
| `ForwardingRuns.DeliveryTerminates` | wforce/replfwd-replication.cc:82-126 | a run of deliveries and losses is no longer than the work in flight it uses up |
| `ForwardingWorkers.OfferAllSends` | wforce/wforce-sibling.cc:209-223 | the send queues gain exactly the messages to send on, except what a full queue drops |
| `ForwardingWorkers.Worker.Receive` | wforce/wforce-replication.cc:105-182 | a message is queued iff its sender is known, it opens and the queue has room |
| `ForwardingWorkers.Worker.Fan` | wforce/wforce-replication.cc:82-103 | the loop over the links |
| `ForwardingWorkers.Worker.Work` | wforce/replfwd-replication.cc:72-126 | a node applies and sends nothing; a forwarder applies nothing and queues what the flag says |
| `ForwardingWorkers.WorkIsRespond` | wforce/replfwd-replication.cc:89-126 | what a forwarder's turn fans out is what it is to send on |
| `ForwardingSystem.MoveRefines` | wforce/wforce-sibling.cc:114-134 | every move of the processes, their queues and the network is a delivery, an origination or nothing, followed by losses |
| `ForwardingSystem.SystemAppliesOnce` | wforce/replfwd-replication.cc:62-139 | in every run of the processes with bounded queues, no node applies an operation twice, or one of its own |
| `ForwardingSystem.SystemDelivers` | wforce/replfwd-replication.cc:62-139 | with empty queues, none ever full and nothing dropped, an operation has been applied exactly once by exactly the nodes it is to reach |
| `ForwardingProgress.MoveLeavesLess` | wforce/wforce-sibling.cc:114-134 | every send, loss, arrival and turn lowers a bound made of the work in flight, the packets in the queues and the wire |
| `ForwardingProgress.SystemTerminates` | wforce/replfwd-replication.cc:62-139 | without new operations no run of the processes is longer than that bound |
| `ForwardingProgress.StuckIsDrained` | wforce/wforce-sibling.cc:114-134 | the wire and all queues are empty, those of links that do not send included, iff only a new operation can continue the run |
| `ForwardingProgress.SystemDrainsAndDelivers` | wforce/replfwd-replication.cc:62-139 | every run can be continued until the wire and all queues are empty, and if nothing was lost by then every operation has been applied exactly once by exactly the nodes it is to reach |
| `FullSync.DumpAll` | wforce/wforce.cc:605-633 | the loops over shards and key lists dump every key once with all its fields |
| `FullSync.FullSyncReturns` | wforce/replication_sdb.cc:125-137 | any dump applied to an empty peer of any shards restores exactly the source's keys and known fields |
| `SyncCodec.IntRoundTrip` | common/twmap.hh:101-112 | an integer comes back through its network bytes iff it is an int, negative ones included |
| `SyncCodec.HllRoundTrip` | ext/ext/hyperloglog.hpp:203-227 | bit width and registers come back |
| `SyncCodec.CmRoundTrip` | ext/ext/count_min_sketch.cpp:160-197 | parameters, total, counters and hash coefficients come back |
| `SyncCodec.IntBytesAre` | common/twmap.hh:101-112 | an integer is sent with its most significant byte first |
| `SyncCodec.HllLayout` | ext/ext/hyperloglog.hpp:203-213 | a sketch is sent as its bit width and its registers |
| `SyncCodec.CmLayout` | ext/ext/count_min_sketch.cpp:160-178 | the words of a count-min sketch in their order and byte order |
| `SyncCodec.RestoreStops` | common/twmap.hh:401-412 | a restore replaces slots in order up to the first whose bytes do not decode, which gets its stamp only |
| `SyncCodec.EntryRoundTrip` | common/twmap.hh:392-412 | start time, stamps and members come back; the entry is due for cleaning |
| `SyncCodec.FullSyncRoundTrip` | common/twmap.hh:547-596 | a database dumped and applied to an empty peer with the same fields and windows but any shards comes back whole |
| `SyncRuns.DeedRespects` | common/twmap.hh:293-412 | changes, resets, reads, reads with a string and restores keep an entry's windows, kinds of members and sketch sizes |
| `SyncRuns.ReachableRoundTrip` | wforce/wforce.cc:605-633 | whatever a node has done to its sharded database, expiry and entries made anew included, while no integer or counter has outgrown its word: any dump restores it on an empty peer with the same fields and windows, whatever the peer's shards, start times and count-min coefficients |
| `Base64.Encode1Decode1` | common/sodcrypto.cc:193-273 | which characters the decoder accepts, which it reads as themselves, and that its values never exceed six bits |
| `Base64.AlphabetIs` | common/sodcrypto.cc:258-273 | the alphabet of table 1 of RFC 4648 |
| `Base64.SextetsAreBits` | common/sodcrypto.cc:382-385 | the four indices are the 24 bits of three bytes, in order |
| `Base64.Encode` | common/sodcrypto.cc:367-407 | the length is 4*ceil(n/3) |
| `Base64.Base64Encode` | common/sodcrypto.cc:367-407 | the loop computes the encoding of section 4 of RFC 4648 |
| `Base64.B64Decode` | common/sodcrypto.cc:279-358 | the loops compute the decoding, with white space, padding, bad characters and both exceptions |
| `Base64.InvalidIff` | common/sodcrypto.cc:279-358 | decoding reports failure iff some character that is no white space has no index |
| `Base64.RoundTrip` | common/sodcrypto.cc:193-407 | decoding an encoding succeeds and appends exactly the bytes |
| `Nonces.NonceReuse` | common/sodcrypto.hh:54-60 | a sender repeats a nonce exactly after every 2^32 messages |
| `Nonces.DirectionsCollide` | common/sodcrypto.hh:47-60 | when the two directions of a channel have a nonce in common |
| `Nonces.ConversationNonces` | wforce/wforce.cc:166-191 | in every conversation two messages of a direction share a nonce iff a multiple of 2^32 apart, and two of different directions never unless the exchanged nonces agree after the counters |
| `Nonces.SodiumNonce.MergeFrom` | common/sodcrypto.hh:79-84 | the halves are copied in place |
| `Nonces.SodiumNonce.IncrementIt` | common/sodcrypto.hh:86-92 | the counter in the first four bytes is incremented in place, modulo 2^32 |
| `Nonces.IncrementIs` | common/sodcrypto.hh:54-60 | the fourth byte counts up and the others change only when it wraps around |
| `Nonces.DecryptIff` | common/sodcrypto.cc:55-73 | a message opens iff it has no content or was made with the reader's nonce, which then moves on |
| `Nonces.ConversationInStep` | wforce/wforce.cc:166-191 | in every conversation the writer's nonce is the reader's at each message, every message opens to what was sent, and what is received is a prefix of what was sent |
| `StateHolder.StepKeeps` | common/sholder.hh:61-131 | every step of every thread keeps the invariant |
| `StateHolder.AccessReturnsSnapshot` | common/sholder.hh:61-68 | every access returns a non-null version published between its start and its end, and no reader's versions go backwards |
| `StateHolder.NoUpdateLost` | common/sholder.hh:96-117 | the state is the fold of all completed updates, each once and in its thread's order |
| `StateHolder.UpdateAlone` | common/sholder.hh:96-117 | a modify that no other thread comes between replaces the state by what its function makes of it, a setState by the given one, and publishes one version |
| `StateHolder.AccessBegins` | common/sholder.hh:61-79 | an access takes the lock iff its copy is not of the current generation, and always after reset |
| `StateHolder.PointedIsState` | common/sholder.hh:96-117 | outside a writer's two stores d_state is the current version, between them the next one |
| `StateHolder.AccessReturnsPointerIff` | common/sholder.hh:61-68 | every access returns a version d_state pointed to during the access iff it had to load or no writer was between its two stores when it began |
| `StateHolder.OldVersionReturned` | common/sholder.hh:111-117 | a run from the start after which an access returns the initial state although d_state has been another pointer since before it began |

## Left out

- Ports of addresses, other address families, and netmasks parsed from a string with a length beyond the family's width.
- The payload type of the trie is fixed to bool, its only use; `swap` of two trees is not modelled.
- Login, login and IP, and JA3 lists: the same list without a trie. Redis persistence and webhooks.
- Overflow of int counters, of count-min counters and of the unsigned total; full synchronisation and the count-min bound state the range they need.
- The compiler's count of leading zeros, which is undefined for zero; the portable loop is modelled. HyperLogLog estimates and the floating-point sizing of count-min sketches.
- Operations on an entry before its start time: the code's index is then out of range.
- StatsEntries.TWStatsEntry.RestoreFrom: takes no dump with more windows than the entry has, because the code then writes past the end of its vector.
- The replication envelope's protobuf encoding, the 16-bit framing of packets, and connection handling.
- Generation wrap-around in the state holder, and `getCopy` followed by `setState`, which is not atomic.
- ReplicaFollows: the peer makes each change at the caller's time; changes at other times and in other orders are the subject of the convergence lemmas.
- DatabasesConverge: the nodes' runs hold no expiry passes, no full synchronisation, and no reads with a string of a HyperLogLog field, which change it as `GetStringIff` says; on other fields such reads clean as any read does.
- NeverUnderCounts: stated for estimates up to the largest int, where the minimum over the rows starts.
- OriginAtMostOnce: assumes one forwarder per site, siblings within a site, no forwarder among a forwarder's siblings, and forward destinations that are other sites' forwarders.
- Lua bindings, the console, HTTP commands, GeoIP, DNS lookups, logging and metrics.
