# CIP-PIR: retrieval, preprocessing, seed pool, sorted database

CIP-PIR is multi-server private information retrieval. A database of fixed-size blocks is
cut into groups of eight blocks, the groups into one chunk per server. Each server holds a
cyclic window of chunks, expands fresh seeds into masks, and stores each seed together with
what its mask selects from the chunks behind the server's own. The client combines the masks
of all seeds with a one-hot index, sends every server one chunk of the result, and the
exclusive or of all answers is the block.

This project models that code in Dafny and proves it for any number of servers S >= 1, any
number of chunks per server between 1 and S, any database and any block size. Loops that
overwrite buffers are methods on arrays, a pointer being an array and a position in it, and
are proved against functions on byte strings; the threads of a component are step systems
whose runs are lists of events. `gen_rnd_from_seed` is an arbitrary deterministic function
`expand` of a seed and a length; seeds drawn are parameters. The CPU branches are modelled.

| file | content |
|---|---|
| `Bits.dfy`, `ByteStrings.dfy` | exclusive or on numbers and byte strings, sums and their independence of order, in-place writes |
| `Tables.dfy` | Four-Russians tables and what a lookup means |
| `Layout.dfy` | chunk sizes, cyclic windows, where mask bytes belong in the query |
| `Protocol.dfy` | the retrieval theorem on values |
| `Privacy.dfy` | what one server sees |
| `Helper.dfy` | the in-place exclusive-or routines |
| `FourRussians.dfy` | the Gray-code table builder |
| `Server.dfy`, `Client.dfy`, `Session.dfy` | the parties, and one whole retrieval |
| `SeedRing.dfy`, `SeedPool.dfy` | the pool of tuples, and whole runs of its producer and consumer |
| `Pipeline.dfy` | answering a query while it arrives |
| `SortedDatabase.dfy`, `Manifest.dfy`, `EntryBits.dfy` | quicksort, the sparse index and its search, bit prefixes |
| `Membership.dfy` | the membership test over a whole retrieval |
| `Deployment.dfy` | from raw or unsorted entries to answers, nothing assumed of the servers but their seeds |

## Where the code does not do what it promises

Each of these is proved, with the exact condition under which the code is right and, where it
can fail, an input or a run at which it does.

* `checkHash` stops its search at the first manifest key that is not below the entry's first
  bytes. An entry stored at positions p to q, whose first bytes first occur at position g, is
  found exactly when the block sought, which g and the distance of the keys determine, is not
  the last one and covers one of the positions p to q. With full blocks and whole entries as
  keys that leaves out every entry that begins a block other than the first. The search has no
  test for the end of the manifest and reads behind it for every entry above the last key
  (`Manifest.FoundIff`, `Manifest.CheckHashMeaning`, `Manifest.AlignedFoundIff`; missed and
  undefined at `Manifest.MissedEntry` and `Manifest.UndefinedEntry`).
* If the block size is no multiple of the entry size, a block that does not start with a whole
  entry is scanned as parts of entries, and an entry that is not stored can be found
  (`Manifest.FoundIff`, `Manifest.ScansIff`, `Manifest.FalseEntry`).
* `src/parameters.h` demands that the block size divide the database size. Manifest keys are
  taken where their blocks start exactly if blocks hold whole entries and the entries fill them,
  or there is no key (`Manifest.AlignedIff`). The default configuration, 1,000,000 entries of 8
  bytes in blocks of 1024, does not meet the demand: keys are 127 entries apart where blocks hold
  128, and of entries stored once none is found from position 16,257 on
  (`Manifest.DefaultConfiguration`, `Manifest.DefaultFoundIff`).
* `quicksort` computes byte positions in 32 bits. It sorts every database of n entries exactly
  when the last position fits: if so the result is sorted, if not the last byte is never
  touched and a database whose greatest entry comes first stays unsorted
  (`SortedDatabase.Quicksort`, `SortedDatabase.WrapBreaksSort`; entry 2^29 of 8 bytes is taken
  for entry 0 by `SortedDatabase.PositionWraps`).
* The worker clears and sets `precomputing` outside its lock. Production of tuples ends for ever
  exactly with one of two steps: the producer clears the flag before the constructor sets it, or
  the consumer takes the last tuple between the producer's last look at the counter and its
  clearing of the flag (`SeedPool.DoomedStep`, `SeedPool.LostExactly`). Such a run exists for
  every capacity (`SeedPool.StuckReachable`); the worker then waits for ever
  (`SeedPool.DoomedForever`, `SeedPool.StuckForever`).
* With `PIPELINE`, the loop of `execute` tests how many bytes are counted, not how many have
  arrived, and adding to the counter is not atomic. If `execute` resets the counter between the
  read and the write of an addition, what the last query left in it comes back, and bytes are
  looked up before they have arrived. Every run without such a torn addition is right
  (`Pipeline.PipelineRefinesSequential`), and so is every run from a counter of zero
  (`Pipeline.FreshNeverTorn`). Otherwise some run finishes with a wrong answer exactly when there
  is a place behind the first piece, less than the old counter away from the start of its piece,
  where what the buffer held before selects another table entry (`Pipeline.WrongIff`, at
  `Pipeline.WrongAnswer`); and some run looks up bytes behind the query exactly when the query is
  not empty and the old counter is not zero (`Pipeline.AstrayIff`).
* With `PIPELINE`, `execute` also resets `querySent` when it starts. If the end of the query was
  announced before, which can happen for every query, the loop does not end
  (`Pipeline.MissedStep`, `Pipeline.CanMiss`, `Pipeline.MissedForever`). Otherwise, and unless it
  gets behind the query, every run in which neither thread is starved ends
  (`Pipeline.FairRunsEnd`).
* `completexor` overwrites its destination where `fastxor` accumulates; the two agree exactly
  on a zero destination. In the pipelined `execute` with `MANUAL_THREADING` the stored value is
  lost unless it had been cancelled (`Helper.CompleteXorMatches`, `Pipeline.ThreadedRemainder`,
  `Pipeline.ThreadedRemainderWrong`). For no thread at all, which it computes on a machine with
  two hardware threads, it divides by zero (`Helper.CompleteXor`).
* The comparison that should guard the small-size branch of `combineDest` is unsigned and never
  true. The result is the same with the branch taken or skipped (`Helper.CombineDest`).
* `preprocess` reads rows behind the last block to complete the last group, and is defined
  exactly if the buffer goes that far (`FourRussians.Preprocess`). A buffer of just the entries,
  as the source passes, does so only if the entries fill whole groups
  (`Deployment.OwnBufferIff`). Whatever these rows hold, every block is retrieved
  (`Deployment.Retrieve`).
* With `MEASURE_ORIGINAL_RAID_PIR`, `execute` looks the query up over the whole window, but its
  caller passes a query for the own chunk only. The form modelled is the algorithm; as called it
  reads behind its query unless nothing follows the own chunk (`Server.PirServer.ExecuteOriginal`).

## Model

| member | source | states |
|---|---|---|
| Protocol.Retrieval | src/CIP_PIR/Client/CIP_pirClient.cpp:159-219 | for every database, S, chunk count, choice of masks, index and both thread orders, the combined answers are the block asked for |
| Protocol.MasksCancel | src/CIP_PIR/Client/CIP_pirClient.cpp:264-332 | the answers to the client's query sum to what the one-hot query alone selects: all masks cancel |
| Protocol.PrecomputedIsSpread | src/CIP_PIR/PeerServer/CIP_pirServer.cpp:275-303 | a mask looked up in the server's rotated tail equals the client's placement of that mask looked up in the whole database |
| Protocol.SumOfChunks | src/CIP_PIR/Client/CIP_pirClient.cpp:309-322 | one chunk of query per server, each on its own chunk, adds up to the whole query on the whole database |
| Protocol.PreprocessingRefinesOriginal | src/CIP_PIR/PeerServer/CIP_pirServer.cpp:384-405 | precomputing over the tail and then executing over the own chunk equals the original single lookup over the window |
| Protocol.ScheduleIndependent | src/CIP_PIR/Client/CIP_pirClient.cpp:84-90 | contributions exclusive-ored once per thread give the same buffer under every order of the threads |
| Protocol.OtherMask | src/CIP_PIR/Client/CIP_pirClient.cpp:264-301 | if the client expands one seed to another mask than the server, the result is the block exclusive-or what the two masks select, and so the block exactly when they select the same |
| Deployment.FindEntry | src/CIP_PIR/Client/CIP_pirClient.cpp:65-129 | from unsorted entries: sorted in place if no position wraps, manifest made, tables built and written, servers started, pools filled, and the membership test run as a retrieval, the outcome is the one the bytes of the database determine, for all block, entry and key sizes, seeds and thread orders |
| Deployment.Retrieve | src/CIP_PIR/Client/CIP_pirClient.cpp:131-219 | from the raw database: tables built and written, all servers started from the file, pools filled, and as many blocks retrieved one after another as a pool holds tuples, for all seeds, indices and thread orders; defined says exactly whether the buffer holds the rows of the last group |
| Deployment.OwnBufferIff | src/database/manageDatabase.cpp:107-125 | a buffer of just the entries holds the rows of all groups exactly if the entries fill whole groups |
| Deployment.StartServer | src/CIP_PIR/PeerServer/CIP_pirServer.cpp:286-319 | a server that has loaded its window and filled its pool holds the tuples of the seeds it drew, in order, and the key of the file |
| Deployment.WriteFile | src/database/manageDatabase.cpp:85-145 | the file begins with what was given as line feed, generator and key; where the buffer holds the rows of the last group, the tables of all rows follow, those of the padded database if the rows behind the last block are zero |
| Deployment.Deploy | src/CIP_PIR/PeerServer/CIP_pirServer.cpp:463-475 | every server that starts from the file written holds the key that was put behind the generator |
| Membership.CheckHash | src/CIP_PIR/Client/CIP_pirClient.cpp:65-129 | seeds, search, retrieval by all servers and scan of the client's result buffer give the outcome the bytes of the database determine, for all block, entry and key sizes; every server has handed out its oldest tuple and nothing else has changed |
| Membership.BlockSlots | src/CIP_PIR/Client/CIP_pirClient.cpp:118-126 | what is scanned of the block retrieved is that stretch of the database |
| Session.Requests | src/CIP_PIR/Client/CIP_pirClient.cpp:131-219 | as many retrievals one after another as there are tuples: the k-th gives the k-th block asked for, with the k-th tuple of every server, and the later tuples remain |
| Session.Request | src/CIP_PIR/Client/CIP_pirClient.cpp:131-219 | client and servers run together, buffers updated in place: the result buffer ends up holding the block at the index, every pool has lost its oldest tuple, every server still holds its tables |
| Session.RunPIR | src/CIP_PIR/Client/CIP_pirClient.cpp:159-219 | from a query buffer that holds the sum of the masks: index, queries, answers in place, combination |
| Session.SendSeed | src/CIP_PIR/PeerServer/ClientConnection.cpp:44-57 | the oldest tuple leaves the pool, its seed is sent behind the field element of server 0, the tuple stays in the connection's buffer |
| Session.ServeSeed | src/CIP_PIR/PeerServer/ClientConnection.cpp:22-57 | server 0 sends the field element and its seed, every other server its seed alone, and the client combines the mask |
| Session.SendAnswer | src/CIP_PIR/PeerServer/ClientConnection.cpp:69-137 | the query is answered in place on the stored value and that answer is sent |
| Session.ReceiveSeeds | src/CIP_PIR/Client/CIP_pirClient.cpp:84-90 | after all seed threads, in any order, the query buffer is the sum of all placed masks |
| Session.CollectAnswers | src/CIP_PIR/Client/CIP_pirClient.cpp:171-178 | every server's answer is the one the protocol theorem is about |
| Session.CombineAnswers | src/CIP_PIR/Client/CIP_pirClient.cpp:188-194 | after all result threads, in any order, the result buffer is the sum of the answers |
| Session.OwnTupleIsUsable | src/CIP_PIR/PeerServer/CIP_pirServer.cpp:275-309 | a tuple the server computed makes it ready for the retrieval theorem |
| Session.TuplesInOrder | src/CIP_PIR/CenterServer/RAID_pirCenterWorker.cpp:203-226 | over every run of producer and consumer, what was handed out followed by what waits are the tuples of the seeds drawn, in order |
| Session.EveryTupleUsable | src/CIP_PIR/CenterServer/RAID_pirCenterWorker.cpp:203-226 | over every run, for a loaded server and seeds of the right length: a query looked up in the own chunk on top of the value in the k-th tuple handed out gives the answer of the protocol for the mask of the k-th seed drawn |
| Session.FileHoldsDatabase | src/database/manageDatabase.cpp:137-145 | a file written from the built tables holds, for every server, the tables the protocol looks up |
| Privacy.ViewIndependent | src/CIP_PIR/Client/CIP_pirClient.cpp:159-162 | with at least two chunks per server, an involution on another server's mask turns a server's view for one index into its view for any other |
| Privacy.OneChunkDiffers | src/CIP_PIR/Client/CIP_pirClient.cpp:264-300 | with one chunk per server, any two indices give some server different queries whatever the masks |
| Privacy.CoalitionIff | src/CIP_PIR/Client/CIP_pirClient.cpp:264-322 | for every coalition of servers, some masks give it the same joint view for two indices exactly if no exposed chunk, one all of whose holders belong to it, tells the one-hot queries apart |
| Privacy.CoalitionExchange | src/CIP_PIR/Client/CIP_pirClient.cpp:264-322 | then an involution on the masks outside the coalition turns the one view into the other |
| Privacy.CoalitionLearns | src/CIP_PIR/Client/CIP_pirClient.cpp:264-322 | otherwise no masks give the coalition the same view |
| Privacy.ToldIff | src/CIP_PIR/Client/CIP_pirClient.cpp:264-322 | a coalition can tell some two indices apart exactly if some non-empty chunk is exposed |
| Privacy.CoversCyclic | src/CIP_PIR/Client/CIP_pirClient.cpp:264-294 | a mask covers exactly the chunks - 1 chunks cyclically behind the own one |
| Layout.LayoutAgrees | src/CIP_PIR/Client/CIP_pirClient.cpp:264-300 | byte m of a mask is placed in the query at the group whose table is the m-th after the server's own chunk, cyclically |
| Layout.SpreadNothingElse | src/CIP_PIR/Client/CIP_pirClient.cpp:293-294 | every non-zero byte of a placed mask comes from the mask |
| Layout.SpreadSparesOwnChunk | src/CIP_PIR/Client/CIP_pirClient.cpp:280-294 | a server's own chunk is not masked by its own mask |
| Layout.WindowIsCyclic | src/CIP_PIR/PeerServer/CIP_pirServer.cpp:412-418 | place m of a window holds the group m places after the own chunk's first, modulo all groups |
| Layout.WindowParts | src/CIP_PIR/PeerServer/CIP_pirServer.cpp:439-470 | the chunks id, id+1, ... modulo S in order are one stretch to the end and one from the start |
| Layout.Config.StartTotal | src/CIP_PIR/PeerServer/CIP_pirServer.cpp:27-36 | chunk sizes sum to the number of groups, differ by at most one, and never grow from one chunk to a later one |
| Layout.TailGroupsParts | src/CIP_PIR/PeerServer/CIP_pirServer.cpp:275-280 | the mask length the server sums up modularly is the one the client sums up in two parts |
| Tables.LookupIsSelection | src/CIP_PIR/Computation/helper.h:130-143 | a lookup over the tables exclusive-ors exactly the raw blocks whose bit is set, most significant bit first |
| Tables.OneHotSelects | src/CIP_PIR/Client/CIP_pirClient.cpp:160-162 | the one-hot byte selects exactly the block at the index |
| Tables.AnswerXor | src/CIP_PIR/Computation/helper.h:130-143 | lookup is linear in the query |
| Tables.CombinationXor | src/database/manageDatabase.cpp:114-128 | the combination for an exclusive or of codes is the exclusive or of the combinations |
| FourRussians.GrayOneBit | src/database/manageDatabase.cpp:115-117 | consecutive codes differ in exactly one bit, at the lowest set bit of the counter |
| FourRussians.GrayVisitsOnce | src/database/manageDatabase.cpp:114-116 | counting to 2^k visits every code exactly once |
| FourRussians.FindRow | src/database/manageDatabase.cpp:118-122 | the inner search maps code bit b to row k-1-b |
| FourRussians.FillTable | src/database/manageDatabase.cpp:112-128 | entry g of a group becomes the exclusive or of the rows whose bit is set in g, built in place, nothing outside the table touched |
| FourRussians.GroupsOfIs | src/database/manageDatabase.cpp:91-105 | the groups just cover the blocks |
| FourRussians.Preprocess | src/database/manageDatabase.cpp:85-130 | for every group size, all tables of the database are built if the buffer holds the rows behind the last block that complete the last group, and defined says exactly whether it does |
| FourRussians.PreprocessedDatabase | src/database/manageDatabase.cpp:91-105 | with zero rows behind the last block the tables are those of the padded database |
| Helper.XorFullBlocks | src/CIP_PIR/Computation/helper.h:72-121 | 32-byte lanes and bytewise tail exclusive-or one whole block for any block size, and change nothing else |
| Helper.XorBytesInto | src/CIP_PIR/Computation/helper.h:199-204 | exclusive-ors a range of bytes and changes nothing else |
| Helper.FastXor | src/CIP_PIR/Computation/helper.h:130-143 | the block pointed to becomes the lookup of the query on its old value; the rest of the buffer stays |
| Helper.CombineDest | src/CIP_PIR/Computation/helper.h:146-165 | the in-place reduction ends with the sum of all blocks in the first, with or without the small-size branch |
| Helper.CompleteXor | src/CIP_PIR/Computation/helper.h:167-189 | for every thread count but zero the split and reduction leave what a sequential lookup from zero leaves; for zero nothing is computed |
| Helper.CompleteXorMatches | src/CIP_PIR/Computation/helper.h:187-188 | overwriting agrees with accumulating exactly when the destination was zero |
| Server.ChunkMap | src/CIP_PIR/PeerServer/CIP_pirServer.cpp:27-36 | the map holds the size of every chunk |
| Server.CountSpans | src/CIP_PIR/PeerServer/CIP_pirServer.cpp:439-461 | groups read first, skipped and read second; the skip count does not underflow |
| Server.ReadDB | src/CIP_PIR/PeerServer/CIP_pirServer.cpp:439-475 | the buffer is filled with the tables of the server's cyclic window in order, and no read goes past the file |
| Server.PirServer.constructor | src/CIP_PIR/PeerServer/CIP_pirServer.cpp:21-42 | a new server holds its window, the key of the file, and an empty pool |
| Server.PirServer.GroupsToGenerate | src/CIP_PIR/PeerServer/CIP_pirServer.cpp:275-280 | the modular sum is the mask length |
| Server.PirServer.GetQuerySize | src/CIP_PIR/PeerServer/CIP_pirServer.cpp:351-355 | one query byte per group of the own chunk |
| Server.PirServer.PrecomputeOne | src/CIP_PIR/CenterServer/RAID_pirCenterWorker.cpp:204-229 | appends exactly the tuple of the seed to the pool |
| Server.PirServer.Precompute | src/CIP_PIR/PeerServer/CIP_pirServer.cpp:286-319 | fills the pool with the tuples of the seeds drawn, in order |
| Server.PirServer.NextSeed | src/CIP_PIR/CenterServer/RAID_pirCenterWorker.cpp:323-329 | hands out the oldest tuple and removes it |
| Server.PirServer.Execute | src/CIP_PIR/PeerServer/CIP_pirServer.cpp:397 | the query is looked up in the own chunk on top of the value in place |
| Server.PirServer.ExecuteOriginal | src/CIP_PIR/PeerServer/CIP_pirServer.cpp:400-404 | one lookup over the whole window, defined exactly if the query is that long; for a query of the own chunk, as the caller passes, exactly if nothing follows that chunk |
| Client.PirClient.constructor | src/CIP_PIR/Client/CIP_pirClient.cpp:24-36 | a new client has the chunk map and buffers of the right size |
| Client.PirClient.HandleSeed | src/CIP_PIR/Client/CIP_pirClient.cpp:264-301 | the placed mask of the seed is exclusive-ored into the query buffer |
| Client.PirClient.SetIndex | src/CIP_PIR/Client/CIP_pirClient.cpp:160-167 | the one-hot index is exclusive-ored into the query buffer and the result is cleared |
| Client.PirClient.SendQuery | src/CIP_PIR/Client/CIP_pirClient.cpp:309-322 | sends the server's own chunk of the query |
| Client.PirClient.ReceiveResults | src/CIP_PIR/Client/CIP_pirClient.cpp:326-332 | exclusive-ors the answer into the result buffer |
| Client.SpreadInto | src/CIP_PIR/Client/CIP_pirClient.cpp:293-294 | the two range writes together are the placed mask |
| SeedRing.Ring.PutLive | src/CIP_PIR/CenterServer/RAID_pirCenterWorker.cpp:218-226 | writing appends to the waiting tuples and overwrites none |
| SeedRing.Ring.TakeLive | src/CIP_PIR/CenterServer/RAID_pirCenterWorker.cpp:324-329 | reading removes the oldest waiting tuple |
| SeedPool.StepKeepsInv | src/CIP_PIR/CenterServer/RAID_pirCenterWorker.cpp:203-230 | although checked outside the lock, the pool is not full when the producer writes and not empty when the consumer reads |
| SeedPool.FirstInFirstOut | src/CIP_PIR/CenterServer/RAID_pirCenterWorker.cpp:318-340 | over every run, handed out plus waiting is what was produced, in order |
| SeedPool.PoolSafety | src/CIP_PIR/CenterServer/RAID_pirCenterWorker.cpp:203-230 | over every run from the start the counter and positions agree, handed out is a prefix of produced, and valid production means valid tuples |
| SeedPool.DoomedStep | src/CIP_PIR/CenterServer/RAID_pirCenterWorker.cpp:247-248 | production ends for ever in exactly two steps: the flag cleared before the constructor sets it, the last tuple taken from a producer that is leaving; and what is lost stays lost |
| SeedPool.ProducesIff | src/CIP_PIR/CenterServer/RAID_pirCenterWorker.cpp:318-340 | some run still produces a tuple exactly from the states that are not doomed |
| SeedPool.LostExactly | src/CIP_PIR/CenterServer/RAID_pirCenterWorker.cpp:318-340 | after a run from the start more can be produced exactly when no step of it was fatal |
| SeedPool.FairRunsHandOut | src/CIP_PIR/CenterServer/RAID_pirCenterWorker.cpp:203-340 | every run of more rounds than there is work, in each of which nobody is starved, hands out one more tuple or leaves the worker stuck |
| SeedPool.LaunchIff | src/CIP_PIR/CenterServer/RAID_pirCenterWorker.cpp:330-336 | from rest, with the flag down and more than half a pool, a producer appears in a run exactly if the run takes the pool down to half its capacity |
| SeedPool.LaunchStep | src/CIP_PIR/CenterServer/RAID_pirCenterWorker.cpp:330-336 | the take that leaves half the capacity brings it at once |
| SeedPool.LeavesIff | src/CIP_PIR/CenterServer/RAID_pirCenterWorker.cpp:203 | a producer leaves its loop on a full pool and only there; before that its check leads on to the next tuple |
| SeedPool.FillsUp | src/CIP_PIR/CenterServer/RAID_pirCenterWorker.cpp:203-230 | a producer that has ended has filled the pool but for what was taken meanwhile; if nothing was, it has produced exactly what was missing |
| SeedPool.DoomedForever | src/CIP_PIR/CenterServer/RAID_pirCenterWorker.cpp:320-322 | a doomed worker produces nothing and hands out at most what waits |
| SeedPool.RefillIff | src/CIP_PIR/CenterServer/RAID_pirCenterWorker.cpp:247-248 | no event but the two flag updates outside the lock breaks the refill rule, and those exactly when they leave a half-empty pool or an absent producer behind |
| SeedPool.PromptRefills | src/CIP_PIR/CenterServer/RAID_pirCenterWorker.cpp:33-35 | were each flag update one step with the thread event it belongs to, the refill rule would hold in every state of every run |
| SeedPool.StuckReachable | src/CIP_PIR/CenterServer/RAID_pirCenterWorker.cpp:33-35 | for every capacity some run leaves an empty pool with no producer |
| SeedPool.StuckForever | src/CIP_PIR/CenterServer/RAID_pirCenterWorker.cpp:320-322 | such a pool never changes again |
| Pipeline.PipelineRefinesSequential | src/CIP_PIR/PeerServer/CIP_pirServer.cpp:358-393 | in every run from the start without a torn addition the bytes looked up are those of the query, none behind it, and a finished answer is the sequential one |
| Pipeline.FreshNeverTorn | src/CIP_PIR/PeerServer/CIP_pirServer.cpp:494 | from a counter of zero, or for an empty query, no run tears an addition |
| Pipeline.CountedStep | src/CIP_PIR/PeerServer/CIP_pirServer.cpp:494 | more is counted than received exactly after a reset of the counter inside an addition to a counter left over |
| Pipeline.WrongIff | src/CIP_PIR/PeerServer/CIP_pirServer.cpp:358-393 | some run finishes with a wrong answer exactly when some place behind the first piece can be reached before its piece arrives and the byte left over there selects another table entry |
| Pipeline.WrongAnswer | src/CIP_PIR/PeerServer/CIP_pirServer.cpp:358-393 | there is a job, a start and a run that finishes with a wrong answer |
| Pipeline.TornGoesAstray | src/CIP_PIR/PeerServer/CIP_pirServer.cpp:360 | after every torn addition some continuation looks up a byte behind the query |
| Pipeline.AstrayIff | src/CIP_PIR/PeerServer/CIP_pirServer.cpp:358-371 | some run looks up a byte behind the query exactly when the query is not empty and the counter left over is not zero |
| Pipeline.FairRunsEnd | src/CIP_PIR/PeerServer/CIP_pirServer.cpp:364-370 | every run of more rounds than there is work, in each of which neither thread is starved, has finished, missed the announcement, or got behind the query |
| Pipeline.LeavesAtOnce | src/CIP_PIR/PeerServer/CIP_pirServer.cpp:364-389 | once the announcement is up the loop is left at the next test, whatever is counted: the thread is done after at most three steps of its own, unless the next lookup goes behind the query |
| Pipeline.FinishesIff | src/CIP_PIR/PeerServer/CIP_pirServer.cpp:358-371 | from every reachable state some run finishes exactly when the announcement was not missed and the thread is not, or in its next step, behind the query |
| Pipeline.MissedStep | src/CIP_PIR/PeerServer/ClientConnection.cpp:80-94 | the announcement is missed exactly when it precedes the reset of the flag |
| Pipeline.MissedForever | src/CIP_PIR/PeerServer/CIP_pirServer.cpp:364-370 | after a missed announcement no run finishes |
| Pipeline.CanMiss | src/CIP_PIR/PeerServer/ClientConnection.cpp:80-94 | for every query some run misses the announcement |
| Pipeline.ThreadedRemainder | src/CIP_PIR/PeerServer/CIP_pirServer.cpp:385-393 | the overwriting routine on the remainder is right exactly when the consumed part had cancelled the stored value |
| Pipeline.ThreadedRemainderWrong | src/CIP_PIR/PeerServer/CIP_pirServer.cpp:385-393 | it is wrong for every job with a stored value other than zero that consumes nothing in the loop, and there are such jobs |
| Pipeline.SendChunks | src/CIP_PIR/Client/CIP_pirClient.cpp:416-441 | the pieces are non-empty, full but for the last, and concatenate to the query |
| SortedDatabase.MemcmpIsValueOrder | src/database/createDatabase.cpp:29-34 | memcmp orders entries by their big-endian value and is zero only on equal ones |
| SortedDatabase.CompareDBEntries | src/database/createDatabase.cpp:29-34 | compares the bytes at the two positions, those of the two entries meant if no position wraps; equal positions always compare equal |
| SortedDatabase.PositionIs | src/database/createDatabase.cpp:30-31 | a position is the byte offset of the entry less a multiple of 2^32, below 2^32 |
| SortedDatabase.FitsIff | src/database/createDatabase.cpp:30-31 | every entry is looked for where it is exactly when the last position is below 2^32 |
| SortedDatabase.PositionWraps | src/database/createDatabase.cpp:30-31 | entry 2^29 of eight bytes is taken for the first one |
| SortedDatabase.DBswap | src/database/createDatabase.cpp:42-46 | exchanges what is at the two positions where the stretches do not overlap, two entries if no position wraps; outside the two stretches nothing changes in any case |
| SortedDatabase.Partition | src/database/createDatabase.cpp:57-63 | permutes the stretch so that the pivot ends just before cnt, nothing above it in front, all behind above it, if no position wraps; cnt is in range and the bytes that no 32-bit position reaches are untouched in any case |
| SortedDatabase.Quicksort | src/database/createDatabase.cpp:54-66 | the stretch is sorted and a permutation of what it was, the rest untouched, if no position wraps; bytes that no 32-bit position reaches are untouched in any case |
| SortedDatabase.WrapBreaksSort | src/database/createDatabase.cpp:54-66 | for every number and size of entries whose last position wraps, some database does not end up sorted |
| Manifest.CreateManifest | src/database/createDatabase.cpp:219-225 | the manifest holds the first bytes of the entries at the multiples of the stride, for every number of entries and blocks |
| Manifest.FormSizes | src/config.h:36-40 | the blocks just cover the bytes, what is scanned of a block just fits it, and the stride is the largest by which all blocks together do not exceed the entries |
| Manifest.KeyAt | src/database/createDatabase.cpp:223 | key i is the front of the entry at i + 1 times the one number s with blocks * s <= entries < blocks * (s + 1) |
| Manifest.AlignedIff | src/database/createDatabase.cpp:223 | keys are taken where their blocks start exactly when blocks hold whole entries and the entries fill them, or there is no key |
| Manifest.FindBlock | src/CIP_PIR/Client/CIP_pirClient.cpp:98-101 | the search ends at the first key not below the entry's first bytes, or leaves the manifest |
| Manifest.SearchCounts | src/CIP_PIR/Client/CIP_pirClient.cpp:98-101 | that position is the number of keys strictly below the entry |
| Manifest.ScanBlock | src/CIP_PIR/Client/CIP_pirClient.cpp:118-128 | the scan stops at the first item not below the entry and answers whether it is the entry |
| Manifest.ScansIff | src/CIP_PIR/Client/CIP_pirClient.cpp:118-128 | that is so exactly if some item is the entry and all before it are below |
| Manifest.SortedScan | src/CIP_PIR/Client/CIP_pirClient.cpp:118-128 | in a sorted block the scan decides membership |
| Manifest.FoundIff | src/CIP_PIR/Client/CIP_pirClient.cpp:98-126 | for every block size from one entry on and every key size up to the entry size: a stored entry is found exactly when the block its first bytes lead to is not the last and the scan of it finds the entry; where that block starts with a whole entry, exactly when it covers one of the positions |
| Manifest.AlignedFoundIff | src/CIP_PIR/Client/CIP_pirClient.cpp:98-126 | with full blocks and whole entries as keys: exactly when its first position is not in the last block and does not begin a block other than the first |
| Manifest.InsideIff | src/CIP_PIR/Client/CIP_pirClient.cpp:98-101 | the search stays in the manifest exactly for entries not above the last key |
| Manifest.CheckHashMeaning | src/CIP_PIR/Client/CIP_pirClient.cpp:98-128 | with blocks of whole entries: exactly which stored entries are found, that others never are, and exactly when the outcome is undefined |
| Manifest.MissedEntry | src/CIP_PIR/Client/CIP_pirClient.cpp:98-128 | a sorted database with a stored entry that is not found |
| Manifest.UndefinedEntry | src/CIP_PIR/Client/CIP_pirClient.cpp:98-101 | a sorted database with a stored entry for which the search leaves the manifest |
| Manifest.UndefinedIff | src/CIP_PIR/Client/CIP_pirClient.cpp:98-101 | for all sizes the outcome is undefined exactly if the entry's first bytes are above the last key or there is none |
| Manifest.FalseEntry | src/CIP_PIR/Client/CIP_pirClient.cpp:118-128 | a sorted database in blocks of one entry and a half, with an entry that is not stored and is found |
| Manifest.DefaultConfiguration | src/config.h:15-40 | 1,000,000 entries of 8 bytes in blocks of 1024: not divisible, 7813 blocks of 128 entries, keys every 127 |
| Manifest.DefaultFoundIff | src/CIP_PIR/Client/CIP_pirClient.cpp:98-128 | in the default configuration, exactly which entries stored once are found, none of them from position 16,257 on |
| EntryBits.GetPrefix | src/database/createDatabase.cpp:74-93 | for up to 64 bits the prefix is the one number that, times the power of two of the bits left out, is at most the big-endian value, its successor above it |
| EntryBits.PrefixMonotone | src/database/createDatabase.cpp:74-93 | prefixes follow the order the sort establishes |
| EntryBits.Count0bits | src/CIP_PIR/Computation/helper.h:212-227 | for a zero entry all bits; otherwise all bits minus the result is the length of the value: it lies between the two powers of two this says |
| EntryBits.BitLength | src/config.h:22-29 | a positive number that needs b bits lies from 2^(b-1) to below 2^b |
| EntryBits.BitsShifted | src/config.h:22-29 | a number shifted by k bits, lower bits arbitrary, needs k bits more |

## Left out

* CUDA kernels and the branches that call them; elliptic-curve blinding, hashing and the random generator; sockets, handlers, command lines, timing and printing.
* Widths of counters: groups, positions and sizes are unbounded numbers where the source has `uint32_t` or `uint64_t`, except the 32-bit entry positions of the sort and the 64-bit words of `getPrefix`.
* The textual header of a database file and its comparison with the compiled-in parameters; the model's file begins behind it.
* The message that opens a connection. `request`, which nothing calls, does not send it although every server waits for one; `Session.Request` is the retrieval as `checkHash` runs it.
* The OpenMP pragma on `fastxor`, which updates a shared offset outside the critical section: the loop is sequential here.
* Pipeline.AstrayIff: what a lookup behind the query yields is undefined, and such a run ends there; the counter does not wrap.
* Memory ordering: runs interleave whole reads and writes of shared variables. A read from a socket delivers the full number of bytes asked for.
* Helper.CompleteXor: runs its threads one after the other, because each writes only its own block.
* FourRussians.Preprocess: says nothing of the result where the buffer ends before the rows that complete the last group. The builder sits in a comment block of the source, which is still the only definition of the file format.
* Membership.CheckHash: takes the entry looked for as any string of the entry size, with manifest keys no longer than an entry; what a read behind the manifest would yield is undefined. Longer keys take in the bytes behind an entry.
* SortedDatabase.DBswap: says nothing of the bytes inside two stretches that overlap, which happens only when positions wrap.
* Starting and interrupting producer threads on the peer server, which does not keep to one producer; its pool is modelled with the producer run on its own, and whole runs are those of the central server's worker, with one consumer. Starting and stopping the transfer thread is not part of this model.
* `subtractBytes` and `compress`, which only feed printed statistics; the disabled asynchronous writes of the client; the stub that writes only a file header in place of preprocessing.
