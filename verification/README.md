# KTorrent DHT node, bencode layer, torrent table and disk cache: a verified model

This project models the Kademlia DHT node of KTorrent 3.3.4 and the bencode layer under it (`libbtcore/dht`,
`libbtcore/bcodec`), and two smaller parts: the rows of the torrent table (`ktorrent/viewmodel.cpp`) and the
opening, reading, writing and growing of a cached file (`libbtcore/diskio/cachefile.cpp`).

`dafny verify dfyconfig.toml` checks everything. Nothing here was executed.

## How it is built

Each component has a module of pure functions on values, which says what one operation does to its state, and
whose lemmas prove what holds of every run. Beside it stands a module with a class that has the fields and the
loops of the source. Its methods are proved to do what the functions say.

| functions and lemmas | class | component |
|---|---|---|
| `Keys`, `Buckets` | | 160-bit keys, XOR distance, bucket numbers, refresh keys |
| `KClosest` | `KClosestNodesSearch` in the same module | the bounded map of closest nodes |
| `Bucket`, `Turns`, `Failures` | `KBuckets` | a bucket, its probes and replacements; who makes room for whom; failed queries |
| `Routing`, `TableFile`, `Joining` | `Nodes` | the routing table, its file, and the lookup of our own id |
| `Pack` | | compact node info |
| `Rpc`, `Cursor` | `RpcServers` | transaction ids, active calls, overflow queue; the order in which ids come round |
| `Lookup` | `NodeLookups` | the iterative find_node task |
| `Announce` | `AnnounceTasks` | the announce task |
| `Discovery`, `Asking` | | whom both kinds of tasks ask, and in which order |
| `Scheduler` | `TaskManagers` | which tasks run |
| `Database` | `Database` in the same module | announced peers and write tokens |
| `Bencode`, `Numbers` | `Bcodec` | decoder and encoder |
| `Krpc`, `Wire` | `KrpcIo` | messages, and their bytes |
| `Whole`, `Parts`, `Methods` | | table, tasks and server together: who made which call, of which method |
| `Rest` | | how many calls can still end, and how the node comes to rest |
| `Dht` | `DHT` in the same module | the request handlers, and whole exchanges |
| `ViewModel`, `Columns` | `TorrentView` | the torrent table, and what its columns mean |
| `CacheFile` | `CacheFiles` | the cached file |

`Bytes`, `Bits`, `StdMap`, `Entries` and `Worklist` hold what they share: fixed-width integers, bit operations, the
ordered maps of the C++ library as sorted sequences, addresses and bucket entries, and the worklist of a task.

The clock, random keys, the hash function, the answers of the operating system and what torrents report are
parameters. The random filler, the data and the order of events are arbitrary. The 8-bit cursor of the RPC server,
32-bit counters and ids, 64-bit times and the 32-bit and 64-bit integers of bencode have their widths written out.
`qStableSort` and the container classes of Qt and of the C++ library stand as their documentation describes them.

## Where the code and its documentation disagree

The model follows the code.

- `RandomKeyInBucket` (`node.cpp:182-212`) promises a key in a certain bucket. Its bits count from the most
  significant end and bucket numbers from the other, so the key for bucket b lies in bucket 159 - b
  (`Buckets.RefreshKeyBucket`).
- `kbucket.h` says that entries are sorted by the time last seen. That holds while only insertions happen; an
  answered or unanswered ping appends replacements with the time they were first seen (`Bucket.StepExact`,
  `Bucket.OrderBreaks`).
- `database.h` says that a sample is taken at random, and a comment in `database.cpp` that tokens expire. The code
  takes the oldest items, and a token goes only when it is used (`Database.Database.SampleInto`,
  `Database.GoodUntilUsed`).

## Properties that fail, and when they hold

Each has the exact condition, and an input for which the property fails.

- The order of a bucket by the time last seen: `Bucket.StepExact` for any event, `Bucket.TimeoutExact` for a ping
  that times out, and the run of `Bucket.OrderBreaks`.
- A search finds the closest nodes there are, up to its limit: `KClosest.ScanExact` for any entries,
  `Routing.SearchExact` for a table, and the table of `Routing.RepeatedIdShortens`, which messages alone lead to.
- Loading stays within the table: `TableFile.OutsideExact` and the files of `TableFile.Bucket160Passes`. Files
  written by the node itself are safe (`TableFile.SavedStaysInside`).
- The number of entries counted while loading is right: `TableFile.FreshCountExact`, and the file of
  `TableFile.CountedTwice`.
- A finished announce task is silent: `Announce.FinishedSilentExact`, and the task of `Announce.KilledBeforeStart`,
  killed while it waits in the queue.
- An answer reaches the call it was typed by: `Rpc.AnswerExact`, and the answer of `Rpc.LateAnswer`, whose call times
  out while all ids are in use.
- An integer that was written can be read: all below 2^63 (`Bencode.DecodeInt`).
- A decoded node lies within the data: `Bencode.SpannedIfClosed`, and the list of `Bencode.UnclosedList`.
- Expiry removes what has expired: `Database.ExpireExact` at one time and `Database.ExpireAlwaysExact` from now on;
  `Database.ClockSetBack` when the clock goes back, and `Database.FoundLate` when it does not, but an announce is
  handled between decoding and storing an answer, which `Database.FoundInTimeExact` shows to be the only way.
- The rows of the torrent table are sorted: `ViewModel.StepKeeps` and `ViewModel.SkippedSortExact`, and the rename of
  `ViewModel.RenameUnnoticed`.
- A file stays within its limit: `CacheFile.WriteLimitExact` and the byte of `CacheFile.LimitIgnored`. Mappings do
  respect the limit (`CacheFile.MapBounded`).
- The recorded size of a file is right while it is open: `CacheFile.StepKeeps`, and the stopped write of
  `CacheFile.StoppedWriteLoses`.
- Closing a file forgets its mappings: `CacheFile.CloseExact` and the mapping of `CacheFile.CloseForgetsNot`.

`Krpc.ResponseRoundTrip` names a condition that always holds of messages the code builds: a response whose node list
holds a 26-byte item would come back changed, but `addNode` never puts one there (`Krpc.AddNodesLong`).

## Model

| member | source | states |
|---|---|---|
| `Keys.LessThan` | project/cloud/source/ktorrent-3.3.4/libbtcore/dht/key.cpp:60-70 | The byte-by-byte comparison decides the order of the keys as 160-bit big-endian numbers. |
| `Keys.GreaterThan` | project/cloud/source/ktorrent-3.3.4/libbtcore/dht/key.cpp:77-87 | The same for the opposite comparison. |
| `Keys.LessIsTotal` | project/cloud/source/ktorrent-3.3.4/libbtcore/dht/key.cpp:60-92 | Of two keys exactly one of less, equal, greater holds. |
| `Keys.DistanceInjective` | project/cloud/source/ktorrent-3.3.4/libbtcore/dht/key.h:118-124 | For a fixed target the XOR distance tells any two ids apart. |
| `Keys.RankInjective` | project/cloud/source/ktorrent-3.3.4/libbtcore/dht/kclosestnodessearch.cpp:43 | So does the distance read as a number, which is the key of the search map. |
| `Keys.LeadingBit` | project/cloud/source/ktorrent-3.3.4/libbtcore/dht/node.cpp:112-126 | Zero bytes followed by a byte whose first bit on is j bound the whole number from both sides by powers of two. |
| `Buckets.FindBucket` | project/cloud/source/ktorrent-3.3.4/libbtcore/dht/node.cpp:102-128 | The bit scan returns i exactly with 2^i <= distance < 2^(i+1), and 0xFF exactly for our own id. |
| `Buckets.BucketIsLog` | project/cloud/source/ktorrent-3.3.4/libbtcore/dht/node.h:40-43 | The documented rule puts every other id in one bucket and no other. |
| `Buckets.OwnIdInNoBucket` | project/cloud/source/ktorrent-3.3.4/libbtcore/dht/node.cpp:134-136 | Our own id satisfies the rule of no bucket. |
| `Buckets.RandomKeyInBucket` | project/cloud/source/ktorrent-3.3.4/libbtcore/dht/node.cpp:182-212 | For every random filler the key agrees with our id before bit b, differs at bit b, and has the bits of the filler after it. |
| `Buckets.PrefixPlacesKey` | project/cloud/source/ktorrent-3.3.4/libbtcore/dht/node.cpp:182-212 | Such a key lies in bucket 159 - b. |
| `Buckets.RefreshKeyBucket` | project/cloud/source/ktorrent-3.3.4/libbtcore/dht/node.cpp:214-227 | The key made to refresh bucket b lies in bucket 159 - b, never in b: the name and the comment promise otherwise. |
| `KClosest.KClosestNodesSearch.TryInsert` | project/cloud/source/ktorrent-3.3.4/libbtcore/dht/kclosestnodessearch.cpp:40-66 | The bounded map after an insertion is that of the specification Offer. |
| `KClosest.KClosestNodesSearch.TryInsertAll` | project/cloud/source/ktorrent-3.3.4/libbtcore/dht/kbucket.cpp:264-272 | Offering every entry of a bucket is the specification Scan. |
| `KClosest.KClosestNodesSearch.Pack` | project/cloud/source/ktorrent-3.3.4/libbtcore/dht/kclosestnodessearch.cpp:68-91 | Packing appends the entries of the map to the container in the order of their distance. |
| `KClosest.OfferExact` | project/cloud/source/ktorrent-3.3.4/libbtcore/dht/kclosestnodessearch.cpp:40-66 | One insertion keeps the n closest of everything seen if and only if the map is not full, or the distance is new, or it is no smaller than the greatest one. |
| `KClosest.ScanIsClosest` | project/cloud/source/ktorrent-3.3.4/libbtcore/dht/node.cpp:159-169 | Scanning entries with distinct ids leaves exactly min(n, size) entries, and everything left out is farther than everything kept. |
| `KClosest.ClosestUnique` | project/cloud/source/ktorrent-3.3.4/libbtcore/dht/kclosestnodessearch.cpp:40-66 | The reference definition of the n closest leaves no choice. |
| `KClosest.ScanFromEntries` | project/cloud/source/ktorrent-3.3.4/libbtcore/dht/kclosestnodessearch.cpp:40-66 | What is kept are offered entries under their own distances. |
| `KClosest.ScanOrderIrrelevant` | project/cloud/source/ktorrent-3.3.4/libbtcore/dht/node.cpp:159-169 | Any two scan orders of the same entries give the same map. |
| `KClosest.ScanExact` | project/cloud/source/ktorrent-3.3.4/libbtcore/dht/kclosestnodessearch.cpp:40-66 | For any entries, with repeated ids or without, and any n: the search finds exactly the n closest distances if and only if there are fewer than n or no entry spoils it. An entry does if it is nearer than the n-th closest distance, all n closest distances have been offered before it, and the n-th is not offered after it. |
| `KClosest.SpoilerRepeats` | project/cloud/source/ktorrent-3.3.4/libbtcore/dht/kclosestnodessearch.cpp:55-63 | Such an entry repeats the id of an earlier one. |
| `KClosest.RepeatLoses` | project/cloud/source/ktorrent-3.3.4/libbtcore/dht/kclosestnodessearch.cpp:55-63 | The loss, for every size n: offering an id again to a full map leaves n - 1 entries if anybody kept is farther away than it, and n if nobody is. |
| `KClosest.PackedSearch` | project/cloud/source/ktorrent-3.3.4/libbtcore/dht/kclosestnodessearch.cpp:68-91 | Unpacking the packed search gives the nodes found, nearest first within each address family, none missing and none twice. |
| `Bucket.StepKeeps` | project/cloud/source/ktorrent-3.3.4/libbtcore/dht/kbucket.cpp:131-288 | Insert, answer, ping timeout and request timeout keep at most 20 entries and 2 pings, keep a full bucket full, and bring in nobody who was not offered. |
| `Bucket.RunKeeps` | project/cloud/source/ktorrent-3.3.4/libbtcore/dht/kbucket.cpp:131-288 | The bounds over every run from a loaded bucket, and a bucket once full stays full. |
| `Bucket.StepEvicts` | project/cloud/source/ktorrent-3.3.4/libbtcore/dht/kbucket.cpp:131-257 | Whoever leaves the bucket was bad, or left a ping unanswered. |
| `Bucket.InsertEvictsOne` | project/cloud/source/ktorrent-3.3.4/libbtcore/dht/kbucket.cpp:131-157 | insert puts out at most one entry, and only a bad one. |
| `Bucket.InsertOutcome` | project/cloud/source/ktorrent-3.3.4/libbtcore/dht/kbucket.cpp:131-157 | A newcomer is in, is being tried, waits, or is turned away from a bucket that holds only good entries. |
| `Turns.HeardOutcome` | project/cloud/source/ktorrent-3.3.4/libbtcore/dht/kbucket.cpp:131-157 | What a node heard of does, told by what the entries hold: it moves to the end, or is put there while there are fewer than 20, or takes its turn. In a turn the first node silent for a quarter of an hour with three failed queries or three pings makes room; else, with two pings on their way, it waits; else the first silent node is pinged for it; else nothing changes. |
| `Turns.AnswerOutcome` | project/cloud/source/ktorrent-3.3.4/libbtcore/dht/kbucket.cpp:159-175 | What an answered ping does: the one for whom it was sent takes another such turn. |
| `Turns.TimeoutOutcome` | project/cloud/source/ktorrent-3.3.4/libbtcore/dht/kbucket.cpp:179-208 | What an unanswered ping does: the one for whom it was sent takes the place of the first entry with the address pinged, and the one who waited longest takes a turn if fewer than two pings are on their way. |
| `Turns.TwoFailures` | project/cloud/source/ktorrent-3.3.4/libbtcore/dht/kbucket.cpp:97-103 | Two failed queries are not enough: the newcomer has to wait for a ping of the only silent node. |
| `Failures.StepCounts` | project/cloud/source/ktorrent-3.3.4/libbtcore/dht/kbucket.cpp:131-288 | What one event does to the counter of any entry, wherever it stood before: a failed query to the first entry with its address adds one in 32 bits, who is put in starts at zero, and nothing else changes it. |
| `Failures.RunCounts` | project/cloud/source/ktorrent-3.3.4/libbtcore/dht/kbucket.cpp:274-288 | Over every run the counter of an entry is the number of its failed queries since it was last put in, modulo 2^32. |
| `Failures.FailedMakesRoom` | project/cloud/source/ktorrent-3.3.4/libbtcore/dht/kbucket.cpp:241-257 | More than two failures and more than a quarter of an hour of silence make an entry bad; a newcomer to a full bucket whose first bad entry it is takes its place, and nobody is pinged. |
| `Failures.ThreeFailures` | project/cloud/source/ktorrent-3.3.4/libbtcore/dht/kbucket.cpp:97-103 | For instance after three failed queries to it, in a bucket whose other entries are good. |
| `Bucket.InsertionsChronological` | project/cloud/source/ktorrent-3.3.4/libbtcore/dht/kbucket.h:150-157 | While only insertions happen by a clock that does not go back, the entries are sorted by the time last seen, so the first is the least recently seen. |
| `Bucket.TimeoutExact` | project/cloud/source/ktorrent-3.3.4/libbtcore/dht/kbucket.cpp:179-208 | The whole of a ping timeout keeps the order if and only if the replacement was seen no earlier than those that stay and, when a waiting entry then takes the place of the first bad one, so was that entry. |
| `Bucket.StepExact` | project/cloud/source/ktorrent-3.3.4/libbtcore/dht/kbucket.cpp:131-288 | The same for every event: it keeps the order if and only if every entry it appends was seen no earlier than the entries that stay, and no later than now. |
| `Bucket.OrderBreaks` | project/cloud/source/ktorrent-3.3.4/libbtcore/dht/kbucket.cpp:179-208 | A run from the empty bucket by a clock that does not go back, after which the entries are out of order: twenty nodes, a newcomer, the second node again, and a ping without an answer. |
| `Bucket.WaitingExact` | project/cloud/source/ktorrent-3.3.4/libbtcore/dht/kbucket.cpp:159-239 | The longest waiting replacement leaves the queue exactly when a ping times out with room for another ping; any other event leaves the queue as it is or longer, so with no ping on its way everybody keeps waiting. |
| `Bucket.WaitsOn` | project/cloud/source/ktorrent-3.3.4/libbtcore/dht/kbucket.cpp:159-239 | A run from the empty bucket by a clock that does not go back, after which no ping is on its way and a replacement still waits: both pings sent for the two before it were answered when nobody was questionable any more. |
| `KBuckets.KBucket.Insert` | project/cloud/source/ktorrent-3.3.4/libbtcore/dht/kbucket.cpp:131-157 | The loops and list updates have the effect of the specification Insert. |
| `KBuckets.KBucket.OnResponse` | project/cloud/source/ktorrent-3.3.4/libbtcore/dht/kbucket.cpp:159-175 | An answered ping makes the replacement look for another place. |
| `KBuckets.KBucket.OnCallTimeout` | project/cloud/source/ktorrent-3.3.4/libbtcore/dht/kbucket.cpp:179-208 | An unanswered ping puts the replacement in the place of the entry pinged, and then tries the next waiting one. |
| `KBuckets.KBucket.PingQuestionable` | project/cloud/source/ktorrent-3.3.4/libbtcore/dht/kbucket.cpp:210-239 | The first questionable entry is pinged and counted; with two pings on the way the replacement waits. |
| `KBuckets.KBucket.ReplaceBadEntry` | project/cloud/source/ktorrent-3.3.4/libbtcore/dht/kbucket.cpp:241-257 | The first bad entry, if there is one, makes room at the end of the list. |
| `KBuckets.KBucket.OnTimeout` | project/cloud/source/ktorrent-3.3.4/libbtcore/dht/kbucket.cpp:274-288 | The first entry with the address counts a failed query. |
| `KBuckets.KBucket.Save` | project/cloud/source/ktorrent-3.3.4/libbtcore/dht/kbucket.cpp:309-342 | The file gets the header and one record for each entry, in order; an IPv4 address is written as a number of the machine, back to front. |
| `KBuckets.KBucket.Load` | project/cloud/source/ktorrent-3.3.4/libbtcore/dht/kbucket.cpp:344-376 | Reads the promised number of records, or as many as there are, IPv4 addresses back to front; a promise of more than 20 is ignored. |
| `KBuckets.KBucket.FindKClosestNodes` | project/cloud/source/ktorrent-3.3.4/libbtcore/dht/kbucket.cpp:264-272 | Every entry of the bucket is offered to the search. |
| `Routing.StepKeeps` | project/cloud/source/ktorrent-3.3.4/libbtcore/dht/node.cpp:130-180 | Every message, ping outcome and request timeout keeps everyone in the bucket of the rule, the bounds of each bucket, and num_entries equal to the sum of the sizes. |
| `Routing.RunKeeps` | project/cloud/source/ktorrent-3.3.4/libbtcore/dht/node.cpp:130-180 | The same over every run from a table in order. |
| `Routing.ReachableTable` | project/cloud/source/ktorrent-3.3.4/libbtcore/dht/node.cpp:130-180 | In every table reachable from the empty one our id is absent, every entry sits in the bucket of its distance, and there are at most 3200. |
| `Routing.DistinctByBucket` | project/cloud/source/ktorrent-3.3.4/libbtcore/dht/node.cpp:102-128 | The table has no id twice if and only if no bucket has: buckets never share an id. |
| `Routing.SearchFindsClosest` | project/cloud/source/ktorrent-3.3.4/libbtcore/dht/node.cpp:159-169 | On a table in order without repeated ids the search over all buckets returns the n closest entries of the table, nearest first. |
| `Routing.SearchExact` | project/cloud/source/ktorrent-3.3.4/libbtcore/dht/node.cpp:159-169 | For any table in order, with repeated ids or without: the search finds exactly the n closest distances if and only if there are fewer than n or no entry spoils it, and an entry that does repeats an id of its own bucket. |
| `Routing.RepeatedIdShortens` | project/cloud/source/ktorrent-3.3.4/libbtcore/dht/node.cpp:130-169 | That ids are not repeated is needed: after 21 messages, two of them with one id from two addresses, the table is in order and has 21 entries, and a search for 20 finds 19. |
| `Nodes.Node.Received` | project/cloud/source/ktorrent-3.3.4/libbtcore/dht/node.cpp:130-157 | The bit scan, the lazily made bucket, the insertion and the recount have the effect of the specification Received; it tells whether a ping went out, and whether this was the third message, with which the own-id lookup starts. |
| `Nodes.Node.FindKClosestNodes` | project/cloud/source/ktorrent-3.3.4/libbtcore/dht/node.cpp:159-169 | The loop over the 160 buckets scans all entries of the table. |
| `Nodes.Node.OnTimeout` | project/cloud/source/ktorrent-3.3.4/libbtcore/dht/node.cpp:171-180 | Only the first bucket that knows the address counts the failure. |
| `Failures.QueryOutcome` | project/cloud/source/ktorrent-3.3.4/libbtcore/dht/node.cpp:171-180 | A failed query reaches the first bucket that has an entry with the address, as a failed query of that bucket, and no other; if none has, nothing changes. |
| `Nodes.Node.SaveTable` | project/cloud/source/ktorrent-3.3.4/libbtcore/dht/node.cpp:230-247 | The file is the concatenation of the saved buckets. |
| `Nodes.Node.LoadTable` | project/cloud/source/ktorrent-3.3.4/libbtcore/dht/node.cpp:249-288 | Loading any file has the effect of the specification LoadFrom, with an outcome of its own when bucket 160 is named; after a new key the table is removed instead. |
| `TableFile.TableRoundTrip` | project/cloud/source/ktorrent-3.3.4/libbtcore/dht/node.cpp:230-288 | Loading a saved table restores address and id of every entry of every bucket that is not empty, in order, over 27-byte and 39-byte records, and num_entries is their number. |
| `TableFile.RestoredInOrder` | project/cloud/source/ktorrent-3.3.4/libbtcore/dht/node.cpp:249-288 | Under the same id the restored table is in order again. |
| `TableFile.LoadAnything` | project/cloud/source/ktorrent-3.3.4/libbtcore/dht/node.cpp:266-287 | Whatever the file holds, no bucket is overfilled, and num_entries is at least the number of entries. |
| `TableFile.CountExact` | project/cloud/source/ktorrent-3.3.4/libbtcore/dht/node.cpp:266-287 | For any file and any table it is loaded into: the count is the number of entries if and only if it was so before and no header that is reached promises entries for a bucket that has some already. |
| `TableFile.FreshCountExact` | project/cloud/source/ktorrent-3.3.4/libbtcore/dht/node.cpp:249-288 | So for an empty table the count is right if and only if no two such headers name one bucket. |
| `TableFile.CountedTwice` | project/cloud/source/ktorrent-3.3.4/libbtcore/dht/node.cpp:266-287 | A file with one bucket twice: both are counted and only the second stays. |
| `TableFile.OutsideExact` | project/cloud/source/ktorrent-3.3.4/libbtcore/dht/node.cpp:266-287 | For any file: loading reaches past the last bucket if and only if the headers, followed one after the other up to the first that stops the loading, name bucket 160 with at least one entry. |
| `TableFile.Bucket160Passes` | project/cloud/source/ktorrent-3.3.4/libbtcore/dht/node.cpp:266-284 | Such a file: a header for bucket 160 with 1 to 20 entries, whatever follows it. |
| `TableFile.SavedStaysInside` | project/cloud/source/ktorrent-3.3.4/libbtcore/dht/node.cpp:230-288 | A file written by saveTable is never one of them. |
| `TableFile.EntriesRead` | project/cloud/source/ktorrent-3.3.4/libbtcore/dht/kbucket.cpp:309-376 | Reading back the records of a bucket yields its entries and stops right behind them. |
| `TableFile.RecordBytes` | project/cloud/source/ktorrent-3.3.4/libbtcore/dht/kbucket.cpp:309-342 | The bytes of a record: the tag, the address, back to front if it is an IPv4 one, the port with its high byte first, and the id. |
| `TableFile.HeaderBytes` | project/cloud/source/ktorrent-3.3.4/libbtcore/dht/kbucket.cpp:309-342 | The bytes of a header, the least significant byte of every word first. |
| `Pack.PackBucketEntry` | project/cloud/source/ktorrent-3.3.4/libbtcore/dht/pack.cpp:31-60 | Writes 26 or 38 bytes in place and leaves the rest of the array alone, or reports that there is no room. |
| `Pack.UnpackPacked` | project/cloud/source/ktorrent-3.3.4/libbtcore/dht/pack.cpp:62-93 | Unpacking at the offset of a packed entry gives its address and id back. |
| `Pack.PackUnpacked` | project/cloud/source/ktorrent-3.3.4/libbtcore/dht/pack.cpp:31-93 | Packing what was unpacked gives the bytes it was unpacked from. |
| `Pack.UnpackNodesAt` | project/cloud/source/ktorrent-3.3.4/libbtcore/dht/nodelookup.cpp:51-66 | Reading the joined nodes in steps of 26 bytes yields as many as fit, the j-th from offset 26 j. |
| `Pack.UnpackAllPacked` | project/cloud/source/ktorrent-3.3.4/libbtcore/dht/kclosestnodessearch.cpp:68-91 | Packing nodes and unpacking both lists gives the same nodes in the same order within each address family. |
| `Rpc.RunKeeps` | project/cloud/source/ktorrent-3.3.4/libbtcore/dht/rpcserver.cpp:226-322 | Over every run, with listeners that submit calls while their id is still taken: calls start in order, each is accounted for once, an id serves one active call, and calls wait only while all 256 ids are in use. |
| `Rpc.ExactlyOnePlace` | project/cloud/source/ktorrent-3.3.4/libbtcore/dht/rpcserver.cpp:226-322 | Every call submitted is in exactly one of the queue, the active calls and the notified ones. |
| `Rpc.NoOvertaking` | project/cloud/source/ktorrent-3.3.4/libbtcore/dht/rpcserver.cpp:259-322 | Messages go out in the order of submission. |
| `Cursor.NextInTurn` | project/cloud/source/ktorrent-3.3.4/libbtcore/dht/rpcserver.cpp:259-322 | Over every run: the first message goes out under id 0, and every other under the id that comes d places behind that of the message before it, going round, for a d from 1 to 256; all ids in between were in use by active calls at that moment, and this one was not. |
| `Cursor.HeldMeans` | project/cloud/source/ktorrent-3.3.4/libbtcore/dht/rpcserver.cpp:259-322 | What the record of ids in use says: an id recorded as in use when a message goes out had been given to an earlier message, and if one is not recorded every earlier call under it has been told its outcome. |
| `Cursor.WholeRound` | project/cloud/source/ktorrent-3.3.4/libbtcore/dht/rpcserver.cpp:259-322 | So between two messages under one id every other id was sent or was in use. |
| `Rpc.FirstFreeIsFirst` | project/cloud/source/ktorrent-3.3.4/libbtcore/dht/rpcserver.cpp:259-281 | The wrapping scan stops at the first free id after the cursor. |
| `Rpc.FreeIsFree` | project/cloud/source/ktorrent-3.3.4/libbtcore/dht/rpcserver.cpp:306-322 | With fewer than 256 calls active the scan ends at an id that is not in use. |
| `Rpc.FullMeansAll` | project/cloud/source/ktorrent-3.3.4/libbtcore/dht/rpcserver.cpp:259-281 | 256 ids in use are all of them. |
| `Rpc.CompleteKeeps` | project/cloud/source/ktorrent-3.3.4/libbtcore/dht/rpccall.cpp:54-63 | A response or a timeout notifies the call once, releases its id after the notification and hands it to the call that waited longest. |
| `Rpc.CompletionsDrain` | project/cloud/source/ktorrent-3.3.4/libbtcore/dht/rpcserver.cpp:226-322 | Every completion leaves one call fewer pending, so as many completions as pending calls notify everybody. |
| `Rpc.PendingHasActive` | project/cloud/source/ktorrent-3.3.4/libbtcore/dht/rpcserver.cpp:226-322 | While anything is pending a call is active, and when nothing is pending every call has been notified. |
| `Rpc.MethodOfLastSent` | project/cloud/source/ktorrent-3.3.4/libbtcore/dht/rpcserver.cpp:324-332 | findMethod gives the method of the request sent last under the id. |
| `Rpc.AnswerExact` | project/cloud/source/ktorrent-3.3.4/libbtcore/dht/rpcserver.cpp:60-85 | An answer is typed when it is decoded and handled later. It is given to the call it was typed by if and only if no event in between ended that call, and a call with its method if and only if this holds or the last message sent under the id since is of that method too. |
| `Rpc.LateAnswer` | project/cloud/source/ktorrent-3.3.4/libbtcore/dht/rpcserver.cpp:226-322 | The failing input: 257 calls, and a timeout of the first between decoding and handling the answer to it. The last call gets the id and the answer, which is of another method. |
| `Rpc.HandleKeeps` | project/cloud/source/ktorrent-3.3.4/libbtcore/dht/rpcserver.cpp:226-250 | Handling a packet keeps all of this, whatever its apply and its listeners submit; it tells one call its outcome if it is a response under an active id, and none otherwise. |
| `Rpc.HandleInOrder` | project/cloud/source/ktorrent-3.3.4/libbtcore/dht/rpcserver.cpp:226-250 | Packets are handled in the order in which they came. |
| `Rpc.BatchFits` | project/cloud/source/ktorrent-3.3.4/libbtcore/dht/dht.cpp:252-262 | Calls for which there are free ids all go out at once; none of them waits. |
| `RpcServers.RpcServer.DoCall` | project/cloud/source/ktorrent-3.3.4/libbtcore/dht/rpcserver.cpp:259-281 | The object does what Submit says: it queues the call if and only if all ids are in use, and otherwise stores the id under which it files the call. |
| `RpcServers.RpcServer.ScanOnce` | project/cloud/source/ktorrent-3.3.4/libbtcore/dht/rpcserver.cpp:259-281 | The scan ends, at the first free id or, if there is none, back at the start. |
| `RpcServers.RpcServer.StartFirst` | project/cloud/source/ktorrent-3.3.4/libbtcore/dht/rpcserver.cpp:306-322 | The unguarded scan ends because fewer than 256 calls are active; the call leaves the queue and its timer starts. |
| `RpcServers.RpcServer.DoQueuedCalls` | project/cloud/source/ktorrent-3.3.4/libbtcore/dht/rpcserver.cpp:306-322 | The loop starts waiting calls while ids are free. |
| `RpcServers.RpcServer.OnResponse` | project/cloud/source/ktorrent-3.3.4/libbtcore/dht/rpcserver.cpp:226-250 | Notification, calls made by the listener, release and restart of waiting calls have the effect of Complete. |
| `RpcServers.RpcServer.OnTimeout` | project/cloud/source/ktorrent-3.3.4/libbtcore/dht/rpccall.cpp:54-58 | The same when the timer of an active call fires. |
| `RpcServers.RpcServer.HandlePackets` | project/cloud/source/ktorrent-3.3.4/libbtcore/dht/rpcserver.cpp:226-250 | All packets handed over are handled in order. |
| `RpcServers.RpcServer.TimedOut` | project/cloud/source/ktorrent-3.3.4/libbtcore/dht/rpcserver.cpp:292-304 | The call of the id is forgotten if it is still there, and waiting calls are started. |
| `RpcServers.RpcCall.Start` | project/cloud/source/ktorrent-3.3.4/libbtcore/dht/rpccall.cpp:48-52 | The timer runs and the call is no longer queued. |
| `Lookup.StepKeeps` | project/cloud/source/ktorrent-3.3.4/libbtcore/dht/task.cpp:61-104 | Every answer and timeout makes 2 (216 - asked) + outstanding smaller, and keeps at most 16 outstanding and no node asked twice. |
| `Lookup.RunKeeps` | project/cloud/source/ktorrent-3.3.4/libbtcore/dht/nodelookup.cpp:43-127 | Over every run every request is answered, timed out or outstanding, and at most 216 are sent. |
| `Lookup.QuietMeansFinished` | project/cloud/source/ktorrent-3.3.4/libbtcore/dht/nodelookup.cpp:94-127 | No run gets stuck: a started task that waits for nothing is finished. |
| `Lookup.FinishReason` | project/cloud/source/ktorrent-3.3.4/libbtcore/dht/nodelookup.cpp:94-127 | A task that was not killed finishes only with nobody left to ask and nothing outstanding, or beyond 200 nodes. |
| `Lookup.FinishedAskedEverybody` | project/cloud/source/ktorrent-3.3.4/libbtcore/dht/nodelookup.cpp:43-127 | A task that finishes within 200 nodes has asked every node it heard of. |
| `Discovery.LookupAskedNamed` | project/cloud/source/ktorrent-3.3.4/libbtcore/dht/nodelookup.cpp:43-127 | The converse: over every run only nodes a lookup starts with or is named in a find_node answer are asked, as they were named. |
| `Discovery.NeverAsksOurselves` | project/cloud/source/ktorrent-3.3.4/libbtcore/dht/nodelookup.cpp:53-84 | A lookup that does not start with ourselves never asks ourselves, whatever the answers name. |
| `Asking.LookupRunAsksLeast` | project/cloud/source/ktorrent-3.3.4/libbtcore/dht/nodelookup.cpp:94-127 | Over every run, from the start on, whatever happens makes a lookup ask the nodes with the least ids on its list, by rising ids, and it stops only at 16 outstanding requests or an empty list. |
| `Lookup.KilledBeforeStart` | project/cloud/source/ktorrent-3.3.4/libbtcore/dht/task.cpp:51-58 | The start of a queued task does not look at whether it is finished: a find_node task that was killed while queued would send its first batch when resumed, empty if and only if there were no nodes to start with, and nothing after it. Nobody kills one; see Announce for those that are killed. |
| `Lookup.FinishedSilentExact` | project/cloud/source/ktorrent-3.3.4/libbtcore/dht/task.cpp:51-115 | A finished find_node task sends nothing more in any run if and only if it is not waiting in the queue or has nobody on its list. |
| `Lookup.FinishedIsSilent` | project/cloud/source/ktorrent-3.3.4/libbtcore/dht/task.cpp:61-87 | A finished task sends nothing more. |
| `NodeLookups.NodeLookup.Update` | project/cloud/source/ktorrent-3.3.4/libbtcore/dht/nodelookup.cpp:94-127 | The loop over todo has the effect of the specification Update. |
| `NodeLookups.NodeLookup.CallFinished` | project/cloud/source/ktorrent-3.3.4/libbtcore/dht/nodelookup.cpp:43-87 | Nodes of a find_node response that are new go on the list, in the order of the two node lists. |
| `NodeLookups.NodeLookup.OnResponse` | project/cloud/source/ktorrent-3.3.4/libbtcore/dht/task.cpp:61-73 | A response counts down, is heeded if the task is not finished, and starts more requests. |
| `NodeLookups.NodeLookup.OnTimeout` | project/cloud/source/ktorrent-3.3.4/libbtcore/dht/task.cpp:75-87 | A timeout counts down and starts more requests. |
| `NodeLookups.NodeLookup.StartWith` | project/cloud/source/ktorrent-3.3.4/libbtcore/dht/task.cpp:41-49 | The search result becomes the worklist, and a task that is not queued sends its first batch. |
| `NodeLookups.NodeLookup.Resume` | project/cloud/source/ktorrent-3.3.4/libbtcore/dht/task.cpp:51-58 | Only a queued task is started. |
| `NodeLookups.NodeLookup.RpcCall` | project/cloud/source/ktorrent-3.3.4/libbtcore/dht/task.cpp:89-98 | A request goes out and is counted if and only if fewer than 16 are outstanding. |
| `NodeLookups.NodeLookup.LearnNodes` | project/cloud/source/ktorrent-3.3.4/libbtcore/dht/nodelookup.cpp:53-69 | The joined nodes are unpacked in steps of 26 bytes, and new ones other than ourselves go on the list. |
| `NodeLookups.NodeLookup.LearnNodes2` | project/cloud/source/ktorrent-3.3.4/libbtcore/dht/nodelookup.cpp:71-84 | The separate nodes likewise; items too short are ignored. |
| `NodeLookups.NodeLookup.Kill` | project/cloud/source/ktorrent-3.3.4/libbtcore/dht/task.cpp:111-115 | A killed task is finished, whatever it waits for. |
| `Announce.StepKeeps` | project/cloud/source/ktorrent-3.3.4/libbtcore/dht/announcetask.cpp:41-173 | Every completion makes the measure smaller and keeps the bounds, the order of the peers and the honesty of the tokens. |
| `Announce.RunKeeps` | project/cloud/source/ktorrent-3.3.4/libbtcore/dht/announcetask.cpp:41-173 | Over every run at most 216 get_peers, 66 announce_peer and 266 requests in all are sent, each at most once for a node. |
| `Announce.QuietMeansFinished` | project/cloud/source/ktorrent-3.3.4/libbtcore/dht/announcetask.cpp:122-173 | A started task that waits for nothing is finished, with both worklists taken into account. |
| `Announce.AnnounceUsesFirstToken` | project/cloud/source/ktorrent-3.3.4/libbtcore/dht/announcetask.cpp:41-173 | An announce goes to a node that answered get_peers, with the first token it gave. |
| `Announce.FinishReason` | project/cloud/source/ktorrent-3.3.4/libbtcore/dht/announcetask.cpp:122-173 | A task that was not killed finishes only when exhausted or beyond one of the limits. |
| `Announce.FinishedAnnouncedToAll` | project/cloud/source/ktorrent-3.3.4/libbtcore/dht/announcetask.cpp:122-173 | A task that finishes within the limits has sent an announce to every node that answered. |
| `Discovery.NamedKnown` | project/cloud/source/ktorrent-3.3.4/libbtcore/dht/announcetask.cpp:50-87 | Over every run of an announce task every node it starts with or is named in an answer it heeds has been asked, or is on the list, or was named while the list held 100 nodes. |
| `Discovery.FinishedAskedAll` | project/cloud/source/ktorrent-3.3.4/libbtcore/dht/announcetask.cpp:50-173 | So a task that was not killed and finishes within the limits has sent get_peers to every node named to it that it did not turn away in this way. |
| `Discovery.AskedWereNamed` | project/cloud/source/ktorrent-3.3.4/libbtcore/dht/announcetask.cpp:50-162 | The converse: only nodes named to it are asked, as they were named, address included. |
| `Asking.RunAsksLeast` | project/cloud/source/ktorrent-3.3.4/libbtcore/dht/announcetask.cpp:122-173 | Over every run, from the start on: both kinds of requests go to the least ids first, by rising ids, and get_peers only fill up what the announces leave of the 16 requests. |
| `Announce.FinishedSilentExact` | project/cloud/source/ktorrent-3.3.4/libbtcore/dht/task.cpp:51-115 | A finished task sends nothing more in any run if and only if it is not waiting in the queue or has nobody on its list. |
| `Announce.KilledBeforeStart` | project/cloud/source/ktorrent-3.3.4/libbtcore/dht/dhttrackerbackend.cpp:46-75 | The failing input: an announce task killed while queued, as when its torrent is stopped, still sends get_peers when it is resumed, unless the search had found nobody; after that it is silent. |
| `AnnounceTasks.AnnounceTask.Update` | project/cloud/source/ktorrent-3.3.4/libbtcore/dht/announcetask.cpp:122-173 | The two loops have the effect of the specification Update. |
| `AnnounceTasks.AnnounceTask.CallFinished` | project/cloud/source/ktorrent-3.3.4/libbtcore/dht/announcetask.cpp:41-115 | A get_peers response adds its nodes to the list or its peers to the shared database, and remembers the token of its sender. |
| `AnnounceTasks.AnnounceTask.StoreItems` | project/cloud/source/ktorrent-3.3.4/libbtcore/dht/announcetask.cpp:97-104 | The peers go to the end of the list of the key in the database that the tasks share with the request handlers, and to the list to be handed out. |
| `AnnounceTasks.AnnounceTask.OnResponse` | project/cloud/source/ktorrent-3.3.4/libbtcore/dht/task.cpp:61-73 | The whole response handler for this task, with its effect on the task and on the database; a finished task stores nothing. |
| `AnnounceTasks.AnnounceTask.OnTimeout` | project/cloud/source/ktorrent-3.3.4/libbtcore/dht/task.cpp:75-87 | The whole timeout handler for this task. |
| `AnnounceTasks.AnnounceTask.AnnounceLoop` | project/cloud/source/ktorrent-3.3.4/libbtcore/dht/announcetask.cpp:122-141 | Announces go out for nodes that answered, while fewer than 16 requests are outstanding. |
| `AnnounceTasks.AnnounceTask.GetPeersLoop` | project/cloud/source/ktorrent-3.3.4/libbtcore/dht/announcetask.cpp:143-162 | Then get_peers go out for nodes on the list. |
| `AnnounceTasks.AnnounceTask.StartWith` | project/cloud/source/ktorrent-3.3.4/libbtcore/dht/task.cpp:41-49 | The start of this task. |
| `AnnounceTasks.AnnounceTask.Resume` | project/cloud/source/ktorrent-3.3.4/libbtcore/dht/task.cpp:51-58 | Only a queued task is started. |
| `AnnounceTasks.AnnounceTask.Take` | project/cloud/source/ktorrent-3.3.4/libbtcore/dht/announcetask.cpp:175-183 | Peers are handed out from the front. |
| `Scheduler.StepKeeps` | project/cloud/source/ktorrent-3.3.4/libbtcore/dht/taskmanager.cpp:45-77 | Adding, completing, killing and sweeping tasks and any other call keep at most 7 tasks running and every task in one place, given a new id that nobody has. |
| `Scheduler.RunKeeps` | project/cloud/source/ktorrent-3.3.4/libbtcore/dht/taskmanager.cpp:45-77 | Over every run with fewer than 2^32 new tasks: at most 7 running, each task ever added in exactly one of running, queued and removed under its own id, and queued tasks started in the order queued. |
| `Scheduler.RunKeepsGiven` | project/cloud/source/ktorrent-3.3.4/libbtcore/dht/taskmanager.cpp:45-77 | The same over runs of any length in which the id given to each new task happens to be free. |
| `Scheduler.FreeUntilWrap` | project/cloud/source/ktorrent-3.3.4/libbtcore/dht/taskmanager.cpp:45-53 | The next 32-bit id is free as long as fewer than 2^32 tasks have been added. |
| `Scheduler.ResumedFromFront` | project/cloud/source/ktorrent-3.3.4/libbtcore/dht/taskmanager.cpp:69-76 | The tasks started by a sweep and those still waiting are together the queue as it was, and none could be started that still waits. |
| `Scheduler.StartsWithWholeBatch` | project/cloud/source/ktorrent-3.3.4/libbtcore/dht/dht.cpp:252-322 | A new task runs at once if and only if fewer than 7 run and more than 16 ids are free; then it runs from its start, its whole first batch is on the way and no call waits. |
| `Scheduler.ResumesWithWholeBatch` | project/cloud/source/ktorrent-3.3.4/libbtcore/dht/taskmanager.cpp:69-76 | The same for a task taken from the queue. |
| `Scheduler.KillFinishes` | project/cloud/source/ktorrent-3.3.4/libbtcore/dht/task.cpp:111-115 | A task that is killed, running or waiting, is finished from then on with what it waits for, and nothing else changes. |
| `Scheduler.SweepKeeps` | project/cloud/source/ktorrent-3.3.4/libbtcore/dht/taskmanager.cpp:55-68 | The sweep keeps the order of things, takes out exactly the finished tasks and leaves the others as they are. |
| `Scheduler.UpdateOutcome` | project/cloud/source/ktorrent-3.3.4/libbtcore/dht/taskmanager.cpp:55-77 | What an update does: finished tasks go, all others that run stay as they are, and tasks from the front of the queue are started and run under their ids, until nobody waits or no more may start. |
| `TaskManagers.TaskManager.AddTask` | project/cloud/source/ktorrent-3.3.4/libbtcore/dht/taskmanager.cpp:45-53 | The task is queued or running under the next id. |
| `TaskManagers.TaskManager.RemoveFinishedTasks` | project/cloud/source/ktorrent-3.3.4/libbtcore/dht/taskmanager.cpp:55-77 | The two loops have the effect of the specification. |
| `Database.UsedOnce` | project/cloud/source/ktorrent-3.3.4/libbtcore/dht/database.cpp:144-226 | Over every run a token lets announces in at most as often as it was handed out. |
| `Database.AcceptedOnlyOwnToken` | project/cloud/source/ktorrent-3.3.4/libbtcore/dht/database.cpp:178-226 | Without a hash collision an announce is let in only with a token handed out earlier to the same address. |
| `Database.GoodUntilUsed` | project/cloud/source/ktorrent-3.3.4/libbtcore/dht/database.cpp:144-226 | Over every run, unless tokens collide: a token is good for its address if and only if it was handed out and no announce has been let in with it since, however much time passes. |
| `Database.StoredOnlyWithToken` | project/cloud/source/ktorrent-3.3.4/libbtcore/dht/dht.cpp:164-186 | Over every run a stored peer either announced itself with a token that it had been given before, or was named in an answer to a get_peers request of our own for this key. |
| `Database.StoredFrom` | project/cloud/source/ktorrent-3.3.4/libbtcore/dht/announcetask.cpp:97-104 | These two are the only ways into the database: an announce that is let in, and the answers heeded by an announce task. |
| `Database.StepItems` | project/cloud/source/ktorrent-3.3.4/libbtcore/dht/database.cpp:89-142 | What an event does to the list of any key: an announce let in and the peers of an answer go to the end of the list of their key, expiry leaves a suffix, and otherwise the list is as it was. |
| `Database.RunKeepsItem` | project/cloud/source/ktorrent-3.3.4/libbtcore/dht/database.cpp:128-142 | Over every run a peer that is stored stays stored, unless there is an expiry when it is half an hour old or older. |
| `Database.TokenDataInjective` | project/cloud/source/ktorrent-3.3.4/libbtcore/dht/database.cpp:144-176 | What is hashed tells addresses and times apart. |
| `Database.ExpireExact` | project/cloud/source/ktorrent-3.3.4/libbtcore/dht/database.cpp:128-142 | Dropping from the front removes exactly the expired items if and only if no expired item lies behind one that is not. |
| `Database.ExpireAlwaysExact` | project/cloud/source/ktorrent-3.3.4/libbtcore/dht/database.cpp:128-142 | It does so at every time from now on if and only if every item that lies behind a newer one lies behind one that has expired by now. |
| `Database.ExpiryIsFilter` | project/cloud/source/ktorrent-3.3.4/libbtcore/dht/database.cpp:89-142 | In every run by a clock that does not go back, in which found peers are stored before anything newer, expiry leaves exactly the items younger than half an hour, in their order, and a sample taken then holds no others. |
| `Database.SampleOldest` | project/cloud/source/ktorrent-3.3.4/libbtcore/dht/database.cpp:100-126 | In every such run a sample holds the items stored first, as many as were asked for if there are that many, and nobody left out is older than anybody given. |
| `Database.StepChronological` | project/cloud/source/ktorrent-3.3.4/libbtcore/dht/announcetask.cpp:97-104 | One event keeps all lists in the order of their stamps if and only if it does not store found peers that are themselves out of order or older than the newest item there. |
| `Database.OutOfOrderExact` | project/cloud/source/ktorrent-3.3.4/libbtcore/dht/rpcserver.cpp:60-130 | With one queue of messages, so that answers are handled in the order decoded: found peers are out of order if and only if an announce under the same key was handled after their answer was decoded, and its item is still there. |
| `Database.FoundInTimeExact` | project/cloud/source/ktorrent-3.3.4/libbtcore/dht/rpcserver.cpp:226-250 | So over every run: found peers are stored before anything newer if and only if no announce overtakes an answer in this way. |
| `Database.FoundLate` | project/cloud/source/ktorrent-3.3.4/libbtcore/dht/dht.cpp:164-186 | A run by a clock that does not go back, with answers handled in the order decoded, in which expiry misses an item: an announce, stamped when it is handled, is handled between decoding and storing an answer, whose peers are stamped when it is decoded. |
| `Database.ClockSetBack` | project/cloud/source/ktorrent-3.3.4/libbtcore/dht/database.cpp:128-142 | After the clock is set back an hour an expired item survives behind a newer one. |
| `Database.Database.StoreItem` | project/cloud/source/ktorrent-3.3.4/libbtcore/dht/database.cpp:89-98 | The item goes to the end of the list of its key. |
| `Database.Database.SampleInto` | project/cloud/source/ktorrent-3.3.4/libbtcore/dht/database.cpp:100-126 | Both loops copy the oldest items, up to the maximum. |
| `Database.Database.ExpireItems` | project/cloud/source/ktorrent-3.3.4/libbtcore/dht/database.cpp:128-142 | The nested loops drop from the front of every list. |
| `Database.Database.MakeToken` | project/cloud/source/ktorrent-3.3.4/libbtcore/dht/database.cpp:144-176 | The token is recorded with the time it was made. |
| `Database.Database.CheckToken` | project/cloud/source/ktorrent-3.3.4/libbtcore/dht/database.cpp:178-226 | Accepts if and only if the token is recorded and made for this address, and then forgets it. |
| `Database.Database.Insert` | project/cloud/source/ktorrent-3.3.4/libbtcore/dht/database.cpp:233-241 | An empty list for a key that has none. |
| `Dht.FindNodeExchange` | project/cloud/source/ktorrent-3.3.4/libbtcore/dht/dht.cpp:122-144 | From the request to the nodes read by the caller: the closest 20 of the whole table, nearest first in each address family, and nobody left out is nearer than anybody given. |
| `Dht.GetPeersExchange` | project/cloud/source/ktorrent-3.3.4/libbtcore/dht/dht.cpp:190-227 | From a get_peers request for a key without peers to the nodes read by the caller: the 20 of the whole table closest to the info hash, nearest first in each address family, and nobody left out is nearer than anybody given. |
| `Dht.AnswersRead` | project/cloud/source/ktorrent-3.3.4/libbtcore/dht/rpcmsg.cpp:193-256 | The answer to a call of a lookup is read as a find_node response with its nodes, that to a ping of a bucket as a ping response, and that to a get_peers of an announce task as a get_peers response with token, nodes and peers; the task made just as many such calls as it sent get_peers. |
| `Dht.TokenExchange` | project/cloud/source/ktorrent-3.3.4/libbtcore/dht/dht.cpp:164-227 | A peer reads our get_peers answer with its token off the wire, and the peers in it are the 50 stored first, or all. After any run in between in which the token is not used, and unless tokens collide, an announce with it from the same address is let in and stored, and the token is spent. |
| `Dht.HeardKeeps` | project/cloud/source/ktorrent-3.3.4/libbtcore/dht/node.cpp:130-157 | Hearing a message, with the ping it may cause and the own-id lookup it may start, keeps the whole node in order. |
| `Joining.MessagesCounted` | project/cloud/source/ktorrent-3.3.4/libbtcore/dht/node.cpp:130-157 | Over every run of the table num_receives is the number of messages from other nodes, in 32 bits. |
| `Joining.OwnLookup` | project/cloud/source/ktorrent-3.3.4/libbtcore/dht/node.cpp:145-151 | With the third message from another node, and only then, a find_node task begins with the 20 nodes nearest to ourselves, unless we look for ourselves already. |
| `Dht.DHT.Receive` | project/cloud/source/ktorrent-3.3.4/libbtcore/dht/node.cpp:130-157 | The table, the ping sent through the server and the lookup of our own id have the effect of Heard. |
| `Dht.DHT.Ping` | project/cloud/source/ktorrent-3.3.4/libbtcore/dht/dht.cpp:105-119 | Requests from ourselves and while stopped are ignored; others are answered, and have the effect of Heard on the whole node. |
| `Dht.DHT.FindNode` | project/cloud/source/ktorrent-3.3.4/libbtcore/dht/dht.cpp:122-144 | The sender is recorded first, with the effect of Heard, and may be among the nodes returned. |
| `Dht.DHT.GetPeers` | project/cloud/source/ktorrent-3.3.4/libbtcore/dht/dht.cpp:190-227 | After Heard: peers if there are any and else nodes, with a fresh token. |
| `Dht.DHT.Announced` | project/cloud/source/ktorrent-3.3.4/libbtcore/dht/dht.cpp:164-186 | After Heard: stored and answered if and only if the token is good. |
| `Dht.DHT.Announce` | project/cloud/source/ktorrent-3.3.4/libbtcore/dht/dht.cpp:264-283 | If the search finds any node, an announce task starts or is queued with all its calls, and the key gets a list in the database. |
| `Dht.DHT.LookUp` | project/cloud/source/ktorrent-3.3.4/libbtcore/dht/dht.cpp:305-322 | The same for a lookup. |
| `Dht.DHT.RefreshBucket` | project/cloud/source/ktorrent-3.3.4/libbtcore/dht/dht.cpp:285-303 | The same for a refresh, which searches the one bucket only. |
| `Whole.StepKeeps` | project/cloud/source/ktorrent-3.3.4/libbtcore/dht/rpcserver.cpp:226-322 | Messages, outcomes of pings and of task calls, new, killed and swept tasks and calls by others keep the table, the tasks and the server in order together: each probe of a bucket is one call of the server that belongs to it, and each running task owns exactly as many calls that are not over as it waits for. |
| `Whole.RunKeeps` | project/cloud/source/ktorrent-3.3.4/libbtcore/dht/rpcserver.cpp:226-322 | Over every run from the start with fewer than 2^32 tasks added. That a new ping is not confused with one still on its way is proved here, not assumed. |
| `Whole.TaskHasCall` | project/cloud/source/ktorrent-3.3.4/libbtcore/dht/task.cpp:61-104 | No running task starves: one that is not finished has a call that is active or waits for an id and whose outcome will go to it. |
| `Whole.PingHasCall` | project/cloud/source/ktorrent-3.3.4/libbtcore/dht/kbucket.cpp:210-239 | Every probe of a bucket is a call that is active or waits for an id, so it will be answered or time out. |
| `Parts.StepParts` | project/cloud/source/ktorrent-3.3.4/libbtcore/dht/node.cpp:130-180 | One event of the node is one step of its table by itself, or none, and one step of its task manager with the server, or none; a ping of a bucket is a call by somebody else to the latter. |
| `Parts.TableRuns` | project/cloud/source/ktorrent-3.3.4/libbtcore/dht/node.cpp:130-180 | So over every run of the node its table is what a run of the table by itself leads to, in which every ping has an unused name: all that is proved of those runs holds of it. |
| `Methods.StepTyped` | project/cloud/source/ktorrent-3.3.4/libbtcore/dht/task.cpp:89-98 | Every event keeps this: the calls on behalf of a bucket are pings; those of a find_node task are find_node, as many as it has asked; those of an announce task are get_peers, as many as it has asked, and announce_peer, as many as it has announced to. |
| `Methods.RunTyped` | project/cloud/source/ktorrent-3.3.4/libbtcore/dht/announcetask.cpp:122-162 | So over every run from the start. |
| `Methods.CallsCounted` | project/cloud/source/ktorrent-3.3.4/libbtcore/dht/announcetask.cpp:122-162 | What that says of any task, running or waiting: how many calls of each method it has made so far. |
| `Methods.ActiveTyped` | project/cloud/source/ktorrent-3.3.4/libbtcore/dht/rpcmsg.cpp:193-215 | An active call that somebody waits for has a method that suits him: ping for a bucket, find_node for a lookup, get_peers or announce_peer for an announce task. |
| `Methods.AnnouncesFirst` | project/cloud/source/ktorrent-3.3.4/libbtcore/dht/announcetask.cpp:122-162 | An update makes its announces before its get_peers. |
| `Rest.CallCanEnd` | project/cloud/source/ktorrent-3.3.4/libbtcore/dht/rpccall.cpp:54-63 | Every active call can end: whoever made it, its end is an event of the node, so the runs leave out no completion. |
| `Rest.StepWinds` | project/cloud/source/ktorrent-3.3.4/libbtcore/dht/rpcserver.cpp:226-322 | Any event within a quarter of an hour, messages heard and failed queries included: the end of a call makes the calls pending and still possible fewer by one at least, counting the pings and requests it leads to, and only a new task, by the requests it may send, or a call from outside makes them more. |
| `Rest.RunWinds` | project/cloud/source/ktorrent-3.3.4/libbtcore/dht/rpcserver.cpp:226-322 | Over every run of any events by a clock that does not go back and within a quarter of an hour, from a node in order: the number of calls that end is bounded by the state at the beginning and by what is asked of the node, whoever it hears from. |
| `Rest.AnyQuarter` | project/cloud/source/ktorrent-3.3.4/libbtcore/dht/rpcserver.cpp:226-322 | The same for any quarter of an hour of any run from the start. |
| `Rest.InsertRoom` | project/cloud/source/ktorrent-3.3.4/libbtcore/dht/kbucket.cpp:131-157 | Why it is bounded: a node heard from now stays good for a quarter of an hour, so hearing from it adds no pings that could be sent within that time, and a ping sent because of it is one of those counted before. |
| `Rest.DeadlineNeeded` | project/cloud/source/ktorrent-3.3.4/libbtcore/dht/kbucket.cpp:131-157 | Why there is a limit of time: beyond it a message from a new node and then the end of a call make the calls pending and still possible more. |
| `Rest.RestExact` | project/cloud/source/ktorrent-3.3.4/libbtcore/dht/rpcserver.cpp:226-322 | No call can end if and only if the node is at rest: no call is pending, everybody has been notified, no bucket waits for a ping, and every running task is finished. |
| `Rest.ComesToRest` | project/cloud/source/ktorrent-3.3.4/libbtcore/dht/rpcserver.cpp:226-322 | Such a run at whose end no call can end leaves the node at rest, after no more completions than the bound; and no task is left, running or waiting, if looking after the tasks then changes nothing. |
| `Rest.RestIsIdle` | project/cloud/source/ktorrent-3.3.4/libbtcore/dht/taskmanager.cpp:55-77 | At rest, when a sweep changes nothing, no task is running and none waits. |
| `Bencode.RoundTrip` | project/cloud/source/ktorrent-3.3.4/libbtcore/bcodec/bencoder.cpp:46-160 | Every tree the encoder can write with integers below 2^63 decodes to itself, with the order and repetitions of dictionary keys, and takes up exactly the bytes written. |
| `Bencode.DecodeEmitted` | project/cloud/source/ktorrent-3.3.4/libbtcore/bcodec/bdecoder.cpp:38-219 | The same at any place in any longer data. |
| `Bencode.DecodeInt` | project/cloud/source/ktorrent-3.3.4/libbtcore/bcodec/bdecoder.cpp:128-171 | A written integer is read as a 32-bit or 64-bit one on either side of 2^31, and fails if and only if it is 2^63 or more. |
| `Numbers.DecimalExact` | project/cloud/source/ktorrent-3.3.4/libbtcore/bcodec/bdecoder.cpp:128-171 | A text is taken for a number if and only if it consists of digits, behind a sign or without one; and the number is the sum of its digits at their places, negative behind a minus. |
| `Numbers.IntegerRead` | project/cloud/source/ktorrent-3.3.4/libbtcore/bcodec/bdecoder.cpp:128-171 | What lies between i and e is read if and only if it is such a text and fits 64 bits with a sign, as a 32-bit value if and only if it fits 32. |
| `Bencode.DecodeSpans` | project/cloud/source/ktorrent-3.3.4/libbtcore/bcodec/bdecoder.cpp:38-219 | The keys and children of a decoded node tile its bytes and decode to themselves if and only if the decoder did not run past the end. |
| `Bencode.SpannedIfClosed` | project/cloud/source/ktorrent-3.3.4/libbtcore/bcodec/bdecoder.cpp:38-219 | That is so if and only if the input is closed, which is defined on the bytes alone by skipping tokens and counting containers: every container opened from here on has its closing mark within the data. |
| `Bencode.Decode` | project/cloud/source/ktorrent-3.3.4/libbtcore/bcodec/bdecoder.cpp:38-63 | Ends on every byte string, and moves forward whenever it returns a node. |
| `Bencode.UnclosedList` | project/cloud/source/ktorrent-3.3.4/libbtcore/bcodec/bdecoder.cpp:103-126 | An unclosed list is accepted. |
| `Bencode.UnclosedDict` | project/cloud/source/ktorrent-3.3.4/libbtcore/bcodec/bdecoder.cpp:65-101 | So is an unclosed dictionary that ends behind a key, which then has no value. |
| `Bcodec.BDecoder.DecodeNext` | project/cloud/source/ktorrent-3.3.4/libbtcore/bcodec/bdecoder.cpp:38-63 | The object with its cursor does what the specification Decode says. |
| `Bcodec.BDecoder.ParseDict` | project/cloud/source/ktorrent-3.3.4/libbtcore/bcodec/bdecoder.cpp:65-101 | The loop over keys and values agrees with it. |
| `Bcodec.BDecoder.ParseList` | project/cloud/source/ktorrent-3.3.4/libbtcore/bcodec/bdecoder.cpp:103-126 | So does the loop over list items. |
| `Bcodec.BDecoder.ParseIntNode` | project/cloud/source/ktorrent-3.3.4/libbtcore/bcodec/bdecoder.cpp:128-171 | So does the scan for an integer. |
| `Bcodec.BDecoder.ParseStringNode` | project/cloud/source/ktorrent-3.3.4/libbtcore/bcodec/bdecoder.cpp:173-219 | So does the scan for a string. |
| `Bcodec.BufferOutput.Write` | project/cloud/source/ktorrent-3.3.4/libbtcore/bcodec/bencoder.cpp:46-53 | Appends, and grows the buffer when it is too short. |
| `Bcodec.BEncoder.WriteNumber` | project/cloud/source/ktorrent-3.3.4/libbtcore/bcodec/bencoder.cpp:102-116 | Appends an integer in decimal between its marks. |
| `Bcodec.BEncoder.WriteBytes` | project/cloud/source/ktorrent-3.3.4/libbtcore/bcodec/bencoder.cpp:136-153 | Appends the length, a colon and the bytes. |
| `Bcodec.BEncoder.WriteTree` | project/cloud/source/ktorrent-3.3.4/libbtcore/bcodec/bencoder.cpp:73-160 | The events for a tree append its encoding. |
| `Bcodec.WriteThenRead` | project/cloud/source/ktorrent-3.3.4/libbtcore/bcodec/bencoder.cpp:73-160 | Writing a tree through begin, write and end events and reading the buffer gives it back. |
| `Krpc.RequestRoundTrip` | project/cloud/source/ktorrent-3.3.4/libbtcore/dht/rpcmsg.cpp:45-95 | Every request comes back with its kind, ids and payload. |
| `Krpc.ResponseRoundTrip` | project/cloud/source/ktorrent-3.3.4/libbtcore/dht/rpcmsg.cpp:97-256 | A response comes back as it was sent if and only if its list holds no 26-byte item and it does not hold peers besides nodes. |
| `Krpc.ResponseRead` | project/cloud/source/ktorrent-3.3.4/libbtcore/dht/rpcmsg.cpp:97-215 | What is read from any response that was sent. |
| `Krpc.ResponseTypedByCall` | project/cloud/source/ktorrent-3.3.4/libbtcore/dht/rpcmsg.cpp:193-256 | A response has the type of the active call with its id, and without such a call it is dropped. |
| `Wire.RequestBytes` | project/cloud/source/ktorrent-3.3.4/libbtcore/dht/rpcmsg.cpp:306-455 | Every request is sent byte for byte as the protocol has it, with its literal keys and method names. |
| `Wire.ResponseBytes` | project/cloud/source/ktorrent-3.3.4/libbtcore/dht/rpcmsg.cpp:461-662 | Every response likewise, the nodes of the other family in a list of their own. |
| `Wire.RequestRead` | project/cloud/source/ktorrent-3.3.4/libbtcore/dht/rpcmsg.cpp:45-95 | Any dictionary is read as a given request if and only if it says so: type, method, transaction and arguments under their literal names, keys of another length than 20 cut off or filled up with zeros, and a number where text is expected read as empty. |
| `Wire.ResponseExact` | project/cloud/source/ktorrent-3.3.4/libbtcore/dht/rpcmsg.cpp:97-215 | Any dictionary is read as a given response if and only if it says so and answers an active call of that method; lists that hold anything but byte strings, and a find_node or get_peers answer without nodes and peers, are no response. |
| `Wire.ErrorRead` | project/cloud/source/ktorrent-3.3.4/libbtcore/dht/rpcmsg.cpp:217-234 | The same for error messages. |
| `Wire.PaddedExact` | project/cloud/source/ktorrent-3.3.4/libbtcore/dht/key.cpp:41-45 | A key made of a byte string of any length: its first 20 bytes, and zeros for those that are missing. |
| `Krpc.AddNodesExact` | project/cloud/source/ktorrent-3.3.4/libbtcore/dht/rpcmsg.cpp:482-488 | Items of 26 bytes move to the joined nodes, so the list survives if and only if it holds none. |
| `Krpc.AddNodeKeepsListLong` | project/cloud/source/ktorrent-3.3.4/libbtcore/dht/rpcmsg.cpp:482-488 | addNode never puts a 26-byte item on the list. |
| `Krpc.AddNodesLong` | project/cloud/source/ktorrent-3.3.4/libbtcore/dht/rpcmsg.cpp:482-488 | However a container is filled with addNode, no 26-byte item gets on its list. |
| `Krpc.PeersOfPacked` | project/cloud/source/ktorrent-3.3.4/libbtcore/dht/rpcmsg.cpp:137-156 | Packed peers are read back, of both address families. |
| `Wire.PeersExact` | project/cloud/source/ktorrent-3.3.4/libbtcore/dht/rpcmsg.cpp:137-156 | The peers read from any list are those of its items of 6 and of 18 bytes, in order; others are skipped. |
| `KrpcIo.DictWriter.PutArguments` | project/cloud/source/ktorrent-3.3.4/libbtcore/dht/rpcmsg.cpp:306-640 | The arguments of each kind of message, in the order written. |
| `KrpcIo.EncodeMsg` | project/cloud/source/ktorrent-3.3.4/libbtcore/dht/rpcmsg.cpp:306-640 | The encoder events of each message kind write its encoding. |
| `KrpcIo.ReadNodes2` | project/cloud/source/ktorrent-3.3.4/libbtcore/dht/rpcmsg.cpp:97-124 | The loop over nodes2 adds every string and stops at anything else. |
| `KrpcIo.ReadValues` | project/cloud/source/ktorrent-3.3.4/libbtcore/dht/rpcmsg.cpp:137-156 | The loop over values reads 6-byte and 18-byte peers. |
| `KrpcIo.SendAndReceive` | project/cloud/source/ktorrent-3.3.4/libbtcore/dht/rpcmsg.cpp:236-256 | A message written by the encoder object and read by the decoder object is the message sent. |
| `ViewModel.StrictWeakOrder` | project/cloud/source/ktorrent-3.3.4/ktorrent/viewmodel.cpp:690-710 | The comparison of rows is a strict weak order for every column, with hidden rows last and no time left as infinity. |
| `Columns.ColumnSorts` | project/cloud/source/ktorrent-3.3.4/ktorrent/viewmodel.cpp:229-258 | Every column sorts by the value it holds or by its text: time left zero comes behind all others, rates below 102 count as none, and the number connected to counts for seeders and leechers. |
| `ViewModel.StableSortSorts` | project/cloud/source/ktorrent-3.3.4/ktorrent/viewmodel.cpp:712-724 | The specification of the sort: sorted, and the same rows. |
| `ViewModel.SortStable` | project/cloud/source/ktorrent-3.3.4/ktorrent/viewmodel.cpp:712-724 | Rows in no order with each other keep their relative places. |
| `ViewModel.SortVisible` | project/cloud/source/ktorrent-3.3.4/ktorrent/viewmodel.cpp:690-724 | Sorting and then hiding is hiding and then sorting. |
| `ViewModel.SkippedSort` | project/cloud/source/ktorrent-3.3.4/ktorrent/viewmodel.cpp:359-395 | For columns 2 to 13 an update that leaves the sort out has the rows it would have if it always sorted. |
| `ViewModel.SkippedSortExact` | project/cloud/source/ktorrent-3.3.4/ktorrent/viewmodel.cpp:359-395 | For the name, status and location columns it holds if and only if it does sort, or the texts of the torrents shown compare as they are shown. |
| `ViewModel.TextsUnchanged` | project/cloud/source/ktorrent-3.3.4/ktorrent/viewmodel.cpp:359-395 | So nothing goes stale while the texts compare as at the last sort. |
| `ViewModel.StepKeeps` | project/cloud/source/ktorrent-3.3.4/ktorrent/viewmodel.cpp:330-395 | After every event the visible rows come first and are counted; they are the sorted members of the group if and only if the column is cached, or the event sorted, or the texts compare as shown. |
| `ViewModel.RunAgrees` | project/cloud/source/ktorrent-3.3.4/ktorrent/viewmodel.cpp:229-395 | The same after every event of every run from a fresh table. |
| `Columns.RunInOrder` | project/cloud/source/ktorrent-3.3.4/ktorrent/viewmodel.cpp:359-395 | Over every run the order is the one chosen last, by name and rising to begin with, and the rows shown rise or fall by it: after every event that sorts, and for columns with cached values after every event. |
| `Columns.RunTorrents` | project/cloud/source/ktorrent-3.3.4/ktorrent/viewmodel.cpp:330-350 | Over every run there is a row for every torrent there is, as many times as it was added, and for no other. |
| `Columns.RunTrue` | project/cloud/source/ktorrent-3.3.4/ktorrent/viewmodel.cpp:359-395 | Over every run: from an event that looks at the torrents to the next one, a row is hidden if and only if its torrent was no member of the group, and holds what the torrent reported, but for a percentage and a ratio no more than 0.01 off. |
| `Columns.TouchedExact` | project/cloud/source/ktorrent-3.3.4/ktorrent/viewmodel.cpp:69-185 | A row asks for a sort if and only if what the column sorted by holds of it changes. |
| `ViewModel.RenameUnnoticed` | project/cloud/source/ktorrent-3.3.4/ktorrent/viewmodel.cpp:359-395 | For the name column it fails: a rename touches nothing cached, and the rows stay in the old order. |
| `TorrentView.Item.Update` | project/cloud/source/ktorrent-3.3.4/ktorrent/viewmodel.cpp:69-185 | The comparisons refresh the cached values, report whether anything changed, and whether the column sorted by did. |
| `TorrentView.View.Update` | project/cloud/source/ktorrent-3.3.4/ktorrent/viewmodel.cpp:359-395 | The loop over the rows has the effect of the specification, and reports whether it sorted. |
| `TorrentView.View.AddTorrent` | project/cloud/source/ktorrent-3.3.4/ktorrent/viewmodel.cpp:330-334 | A row for the torrent, then a forced update. |
| `TorrentView.View.RemoveTorrent` | project/cloud/source/ktorrent-3.3.4/ktorrent/viewmodel.cpp:336-350 | The first row of the torrent goes, then a forced update; without such a row nothing changes. |
| `TorrentView.View.Sort` | project/cloud/source/ktorrent-3.3.4/ktorrent/viewmodel.cpp:712-724 | The rows become the stable sort of the rows. |
| `CacheFile.ReadOutcome` | project/cloud/source/ktorrent-3.3.4/libbtcore/diskio/cachefile.cpp:380-413 | A read succeeds if and only if it starts below the size and the limit and ends within the file, and then yields that slice; afterwards the file is open if and only if it was, or something is on the list of mappings. |
| `CacheFile.WriteOutcome` | project/cloud/source/ktorrent-3.3.4/libbtcore/diskio/cachefile.cpp:415-458 | When a write succeeds, and what the file then is: zeros in a gap, the data over the rest, its size recorded even when it is closed again. |
| `CacheFile.WriteLimitExact` | project/cloud/source/ktorrent-3.3.4/libbtcore/diskio/cachefile.cpp:415-458 | A write keeps the file within its limit if and only if it does not get as far as writing, or the bytes it writes end within the limit. |
| `CacheFile.LimitIgnored` | project/cloud/source/ktorrent-3.3.4/libbtcore/diskio/cachefile.cpp:427-431 | One byte is written into a file whose limit is zero. |
| `CacheFile.ReadBack` | project/cloud/source/ktorrent-3.3.4/libbtcore/diskio/cachefile.cpp:380-458 | What was written below the limit is read back. |
| `CacheFile.MapBounded` | project/cloud/source/ktorrent-3.3.4/libbtcore/diskio/cachefile.cpp:108-149 | Mapping never makes the file longer than the limit, and only adds zeros. |
| `CacheFile.MapOutcome` | project/cloud/source/ktorrent-3.3.4/libbtcore/diskio/cachefile.cpp:108-231 | When a mapping succeeds: the file opens for the mode, the part ends within the limit, the file holds it or can be grown, and the system maps it. The address handed out lies as far behind the start of a page as the offset does; all other mappings stay, and all of them if it fails. |
| `CacheFile.UnmapOutcome` | project/cloud/source/ktorrent-3.3.4/libbtcore/diskio/cachefile.cpp:258-313 | Unmapping takes out the mapping filed under the address and no other, leaves the bytes alone, and closes the file if and only if that was the last mapping. |
| `CacheFile.FiledKeeps` | project/cloud/source/ktorrent-3.3.4/libbtcore/diskio/cachefile.cpp:151-186 | Mappings are filed under the address handed out, which lies behind the start of their first page by the offset in the page. |
| `CacheFile.CloseExact` | project/cloud/source/ktorrent-3.3.4/libbtcore/diskio/cachefile.cpp:331-378 | Closing forgets exactly the mappings that begin on a page, so nothing stays on the list if and only if every mapping did. |
| `CacheFile.CloseForgetsNot` | project/cloud/source/ktorrent-3.3.4/libbtcore/diskio/cachefile.cpp:331-378 | After a mapping from the middle of a page and a close the mapping is still on the list, and a read then leaves the file open. |
| `CacheFile.StepKeeps` | project/cloud/source/ktorrent-3.3.4/libbtcore/diskio/cachefile.cpp:77-467 | The recorded size stays right while the file is open if and only if no write stops part way past the end. |
| `CacheFile.StoppedWriteLoses` | project/cloud/source/ktorrent-3.3.4/libbtcore/diskio/cachefile.cpp:233-256 | What comes of a wrong size: after a write that stopped, the next one grows the file to a size below its length and cuts off bytes written before. |
| `CacheFile.RunKeeps` | project/cloud/source/ktorrent-3.3.4/libbtcore/diskio/cachefile.cpp:77-467 | The recorded size stays right over every run without such a write, whatever others do to the file while it is closed. |
| `CacheFile.RunRefinesBytes` | project/cloud/source/ktorrent-3.3.4/libbtcore/diskio/cachefile.cpp:77-467 | Over every run of reads, writes, mappings and closings, successful or not, without such a write, the file is a zero-filled byte array in which the last writer wins. |
| `CacheFiles.DiskFile.Read` | project/cloud/source/ktorrent-3.3.4/libbtcore/diskio/cachefile.cpp:380-413 | The object with its lazy opening and temporary closing does what the specification says. |
| `CacheFiles.DiskFile.Write` | project/cloud/source/ktorrent-3.3.4/libbtcore/diskio/cachefile.cpp:415-458 | So does the write. |
| `CacheFiles.DiskFile.GrowFile` | project/cloud/source/ktorrent-3.3.4/libbtcore/diskio/cachefile.cpp:233-256 | So does growing. |
| `CacheFiles.DiskFile.Map` | project/cloud/source/ktorrent-3.3.4/libbtcore/diskio/cachefile.cpp:108-149 | So does mapping, up to the system call. |
| `CacheFiles.DiskFile.OpenFile` | project/cloud/source/ktorrent-3.3.4/libbtcore/diskio/cachefile.cpp:77-98 | Read and write if possible, read only if that is enough, and the size is looked up. |
| `CacheFiles.DiskFile.CloseTemporary` | project/cloud/source/ktorrent-3.3.4/libbtcore/diskio/cachefile.cpp:460-467 | The file is closed unless something is mapped. |
| `CacheFiles.DiskFile.Unmap` | project/cloud/source/ktorrent-3.3.4/libbtcore/diskio/cachefile.cpp:258-313 | A known mapping is forgotten, and with the last one the file is closed. |
| `CacheFiles.DiskFile.Close` | project/cloud/source/ktorrent-3.3.4/libbtcore/diskio/cachefile.cpp:365-378 | The file is closed, and the mappings are forgotten that are filed under their own start. |
| `CacheFiles.DiskFile.UnmapAll` | project/cloud/source/ktorrent-3.3.4/libbtcore/diskio/cachefile.cpp:331-363 | The loop over the mappings takes out what is filed under the start of each. |

## Left out

- Sockets, the listener thread, its mutexes and wake-ups: packets arrive one at a time and sending is a log.
- A timer that fires between `deleteLater` and the destruction of its call.
- Dht.DHT: the RPC server and the tasks it starts are values in this class, so that sharing one server object
  between tasks is not captured; the server as an object is `RpcServers.RpcServer`. The flag for the lookup of our own
  id is never taken back here, while the code resets it when that lookup is over.
- Whole.StepKeeps: what a listener does while it is told about its call is limited to what tasks and buckets do;
  calls submitted by anything else at that moment are in `Rpc.RunKeeps` only.
- Rest.ComesToRest: tasks that wait in the queue are started by the updates of the run; that there is an update is
  left to the timer, as in the code. The lookup of our own id that a third message starts is one of the new tasks.
- TaskManagers.TaskManager: tasks are values in its lists, not shared objects, so that deleting a task while
  others point to it is not captured. Two tasks with one id need 2^32 added tasks.
- Scheduler.RunKeeps: stops at 2^32 new tasks, where the ids wrap around; `Scheduler.RunKeepsGiven` goes on for as
  long as ids happen to be free. A new task may overtake queued ones when slots become free between two sweeps;
  `Scheduler.StartsWithWholeBatch` says exactly when it starts.
- KBuckets.KBucket: the times used to decide whether a bucket needs to be refreshed, the refresh task, and the
  timers that trigger refreshes. Names of pings are parameters of this class; `Whole.RunKeeps` shows that the
  numbers of the calls do as names.
- Nodes.Node.LoadTable: header words and IPv4 addresses are modelled for a little-endian machine; the file is a byte
  string.
- Database.AcceptedOnlyOwnToken: SHA-1 is a parameter, with no collision among the data hashed in the run as a
  hypothesis.
- Bcodec.BDecoder.ParseIntNode: number parsing is plain decimal with an optional sign; white space that QString
  would accept, and conversions to and from UTF-8, are not modelled.
- Krpc.Receive: the 32-bit value of a 64-bit integer node is never set by the code; it is read as zero here.
- Krpc.RequestRoundTrip: peers carry no time stamps in messages; an announce task is handed items that were stamped
  when the answer was decoded.
- CacheFile.WriteOutcome: offsets and sizes add up below 2^64; only `map` has the 64-bit sum. Bytes written through a
  mapping are not part of the model.
- CacheFile.RunRefinesBytes: the run ends where somebody else changes the file, and a new one begins there with the
  file as it then is; while the file is open here nobody else changes it. After a write that stopped past the end the
  file is no such array any more, as `CacheFile.StoppedWriteLoses` shows.
- TorrentView.View.Update: signals to the view and the hiding of extenders; percentages and ratios are real
  numbers without rounding.
- `ErrMsg::encode`, which writes nothing, `BEncoder::write(float)`, writing of plain C strings, and debug output.
- DNS (`addDHTNode`, resolver results): a result would be one more node on the list of a task.
- `Key::random` and the internals of SHA-1.
- Preallocation, `diskUsage` and the mapping calls of the operating system in `cachefile.cpp`.
- `getClosestGoodNodes`, the user interface, UPnP, IP filtering, queueing of torrents and the piece cache, whose
  properties would only add easy members.
