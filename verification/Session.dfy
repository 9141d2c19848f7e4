/** One retrieval, client and servers together: every server hands out a tuple and keeps
    its value, the client combines the seeds, sends one chunk of query to each server, and
    combines the answers. */
module Session {
  import opened ByteStrings
  import opened Tables
  import opened Layout
  import opened Protocol
  import opened Server
  import opened Client
  import Helper
  import FourRussians
  import SeedRing
  import SeedPool

  /** Server id holds its window of the tables, and the oldest tuple of its pool is made
      of a seed that expands to the given mask and of that mask's value. */
  ghost predicate Ready(p: PirServer, c: Config, id: nat, tables: seq<Table>, size: nat, mask: seq<byte>)
    requires c.Valid() && |tables| == c.groups && Wide(tables, size)
    reads p, p.precomputedSeeds, p.db
  {
    && Holds(p, c, id, tables, size)
    && p.Valid()
    && p.availableSeeds > 0
    && |mask| == c.MaskLength(id)
    && p.expand(p.Pool().Live()[0][..p.seedBytes], c.MaskLength(id)) == mask
    && p.Pool().Live()[0][p.seedBytes..] == Precomputed(c, tables, id, mask, size)
  }

  ghost predicate Holds(p: PirServer, c: Config, id: nat, tables: seq<Table>, size: nat)
    requires c.Valid() && |tables| == c.groups
    reads p, p.db
  {
    && id < c.servers && p.id == id && p.c == c && p.size == size
    && p.Loaded()
    && p.Tables() == Window(c, tables, id, c.chunks)
  }

  /** A file that holds the preprocessed raw database behind its keys holds, for every
      server, the tables the protocol looks up. */
  lemma FileHoldsDatabase(data: seq<byte>, feSize: nat, predb: seq<byte>, m: seq<byte>, base: nat, blocks: nat, size: nat)
    requires IsDatabaseFile(data, feSize, FourRussians.GroupsOf(blocks, 8), size)
    requires data[1 + 2 * feSize..] == predb
    requires base + Offset(FourRussians.GroupsOf(blocks, 8) * 8, size) <= |m|
    requires Helper.Groups(predb, 0, FourRussians.GroupsOf(blocks, 8), 256, size)
          == FourRussians.TablesOf(m, base, FourRussians.GroupsOf(blocks, 8), 8, size)
    requires forall p :: base + Offset(blocks, size) <= p < base + Offset(FourRussians.GroupsOf(blocks, 8) * 8, size) ==> m[p] == 0
    ensures base + Offset(blocks, size) <= |m| && FourRussians.GroupsOf(blocks, 8) == GroupCount(blocks)
    ensures FileTables(data, feSize, FourRussians.GroupsOf(blocks, 8), size)
         == DatabaseTables(Helper.Slots(m, base, blocks, size), size)
  {
    hide Offset, Helper.Groups, Helper.Slots, FourRussians.TablesOf, DatabaseTables;
    var n, at := FourRussians.GroupsOf(blocks, 8), 1 + 2 * feSize;
    FourRussians.PreprocessedDatabase(m, base, blocks, size);
    assert predb[0..Offset(n, Offset(256, size))] == data[at..at + Offset(n, Offset(256, size))];
    Helper.GroupsSame(predb, 0, data, at, n, size);
  }

  /** A tuple the server computed itself makes it ready. */
  lemma OwnTupleIsUsable(p: PirServer, c: Config, id: nat, tables: seq<Table>, size: nat, seed: seq<byte>)
    requires c.Valid() && |tables| == c.groups && Wide(tables, size)
    requires Holds(p, c, id, tables, size) && p.Valid() && p.availableSeeds > 0
    requires |seed| == p.seedBytes && p.Pool().Live()[0] == p.TupleOf(p.Tables(), seed)
    ensures Ready(p, c, id, tables, size, p.expand(seed, c.MaskLength(id)))
  {
    hide Helper.Groups, SeedRing.Ring.Live, Answer;
    WindowIsChunkThenTail(c, tables, id);
    assert p.Tables()[c.Size(id)..] == Tail(c, tables, id);
  }

  /** A run of the pool in which the producer draws seeds, as the run of the tuples it
      makes of them. */
  ghost function TupleRun(p: PirServer, window: seq<Table>, run: seq<SeedPool.Event<seq<byte>>>): (r: seq<SeedPool.Event<seq<byte>>>)
    requires p.c.Valid() && p.id < p.c.servers && |window| == WindowGroups(p.c, p.id) && Wide(window, p.size)
    ensures |r| == |run|
  {
    seq(|run|, k requires 0 <= k < |run| =>
      if run[k].Produce? then SeedPool.Produce(p.TupleOf(window, run[k].tuple)) else run[k])
  }

  lemma {:induction false} TuplesProduced(p: PirServer, window: seq<Table>, run: seq<SeedPool.Event<seq<byte>>>)
    requires p.c.Valid() && p.id < p.c.servers && |window| == WindowGroups(p.c, p.id) && Wide(window, p.size)
    ensures SeedPool.Produced(TupleRun(p, window, run)) == p.TuplesOf(window, SeedPool.Produced(run))
    decreases |run|
  {
    hide Answer;
    if run != [] {
      TuplesProduced(p, window, run[1..]);
      assert TupleRun(p, window, run)[1..] == TupleRun(p, window, run[1..]);
    }
  }

  /** Whatever the interleaving of producer and consumer, what was handed out followed by
      what waits are the tuples of the seeds drawn, in the order they were drawn. */
  lemma TuplesInOrder(p: PirServer, window: seq<Table>, s: SeedPool.State<seq<byte>>, max: nat,
                      run: seq<SeedPool.Event<seq<byte>>>)
    requires p.c.Valid() && p.id < p.c.servers && |window| == WindowGroups(p.c, p.id) && Wide(window, p.size)
    requires SeedPool.Init(s, max) && SeedPool.Inv(s) && SeedPool.Legal(s, TupleRun(p, window, run))
    ensures var r := SeedPool.After(s, TupleRun(p, window, run));
      r.handed + r.ring.Live() == p.TuplesOf(window, SeedPool.Produced(run))
  {
    SeedPool.InitInv(s, max);
    SeedPool.FirstInFirstOut(s, TupleRun(p, window, run));
    TuplesProduced(p, window, run);
  }

  /** Looking a query up in the own chunk, on top of the value in the k-th tuple handed out,
      gives the answer the protocol theorem is about, for the mask that the seed in the same
      tuple, the k-th one drawn, expands to. */
  lemma EveryTupleUsable(p: PirServer, c: Config, tables: seq<Table>, s: SeedPool.State<seq<byte>>, max: nat,
                         run: seq<SeedPool.Event<seq<byte>>>, k: nat, query: seq<byte>)
    requires c.Valid() && |tables| == |query| == c.groups && Wide(tables, p.size) && Holds(p, c, p.id, tables, p.size)
    requires SeedPool.Init(s, max) && SeedPool.Inv(s) && SeedPool.Legal(s, TupleRun(p, p.Tables(), run))
    requires forall i :: 0 <= i < |SeedPool.Produced(run)| ==> |SeedPool.Produced(run)[i]| == p.seedBytes
    requires k < |SeedPool.After(s, TupleRun(p, p.Tables(), run)).handed|
    ensures k < |SeedPool.Produced(run)|
    ensures var t, seed := SeedPool.After(s, TupleRun(p, p.Tables(), run)).handed[k], SeedPool.Produced(run)[k];
      && |t| == p.seedBytes + p.size && t[..p.seedBytes] == seed
      && Lookup(t[p.seedBytes..], p.Tables()[..c.Size(p.id)], Chunk(c, query, p.id))
         == ServerAnswer(c, tables, p.id, p.expand(seed, c.MaskLength(p.id)), query, p.size)
  {
    hide Lookup, Helper.Groups, SeedPool.Legal, SeedPool.After, SeedRing.Ring.Live;
    var window, r, seed := p.Tables(), SeedPool.After(s, TupleRun(p, p.Tables(), run)), SeedPool.Produced(run);
    TuplesInOrder(p, window, s, max, run);
    assert r.handed[k] == (r.handed + r.ring.Live())[k] == p.TupleOf(window, seed[k]);
    WindowIsChunkThenTail(c, tables, p.id);
    assert window[c.Size(p.id)..] == Tail(c, tables, p.id);
    assert window[..c.Size(p.id)] == Chunk(c, tables, p.id);
  }

  /** The first half of a connection: a tuple leaves the pool; its seed, behind the field
      element of server 0, goes to the client. */
  method SendSeed(party: PirServer, blinded: seq<byte>) returns (seedBuffer: array<byte>, message: seq<byte>)
    requires party.Valid() && party.availableSeeds > 0
    modifies party`availableSeeds, party`currentSeed, party`readSlot
    ensures party.Valid() && party.Tables() == old(party.Tables()) && party.Pool() == old(party.Pool()).Take()
    ensures fresh(seedBuffer) && seedBuffer.Length == |blinded| + party.seedSize
    ensures seedBuffer[|blinded|..] == old(party.Pool().Live()[0])
    ensures message == blinded + old(party.Pool().Live()[0])[..party.seedBytes]
  {
    hide Helper.Groups, SeedRing.Ring.Live;
    var feSize := |blinded|;
    seedBuffer := new byte[feSize + party.seedSize](_ => 0);
    party.NextSeed(seedBuffer, feSize);
    ghost var tuple := seedBuffer[feSize..];
    assert seedBuffer[feSize..feSize + party.seedSize] == tuple;
    message := ExportBlinded(seedBuffer, blinded, party.seedBytes);
  }

  /** Puts the field element in front of the tuple and cuts off what is not sent. */
  method ExportBlinded(seedBuffer: array<byte>, blinded: seq<byte>, seedBytes: nat) returns (message: seq<byte>)
    requires |blinded| + seedBytes <= seedBuffer.Length
    modifies seedBuffer
    ensures seedBuffer[|blinded|..] == old(seedBuffer[|blinded|..])
    ensures message == blinded + old(seedBuffer[|blinded|..])[..seedBytes]
  {
    ghost var tuple := seedBuffer[|blinded|..];
    forall k | 0 <= k < |blinded| {
      seedBuffer[k] := blinded[k];
    }
    assert seedBuffer[..|blinded|] == blinded && seedBuffer[|blinded|..] == tuple;
    message := seedBuffer[..|blinded| + seedBytes];
    assert message == seedBuffer[..|blinded|] + tuple[..seedBytes];
  }

  /** The second half: the query is answered in place on the value kept. */
  method SendAnswer(party: PirServer, seedBuffer: array<byte>, prefix: nat, message: seq<byte>,
                    ghost tables: seq<Table>, ghost query: seq<byte>, ghost mask: seq<byte>) returns (answer: seq<byte>)
    requires party.c.Valid() && party.c.groups == |tables| == |query| && Wide(tables, party.size)
    requires Holds(party, party.c, party.id, tables, party.size)
    requires seedBuffer.Length == prefix + party.seedSize && seedBuffer != party.db
    requires message == Chunk(party.c, query, party.id) && |mask| == party.c.MaskLength(party.id)
    requires seedBuffer[prefix + party.seedBytes..] == Precomputed(party.c, tables, party.id, mask, party.size)
    modifies seedBuffer
    ensures answer == ServerAnswer(party.c, tables, party.id, mask, query, party.size)
  {
    hide Helper.Groups, Lookup, Answer, Window, Chunk, Config.Size;
    var querysize := party.GetQuerySize();
    var dest := prefix + party.seedBytes;
    var buffer := new byte[querysize](i requires 0 <= i < querysize => message[i]);
    ghost var was, value := seedBuffer[..], Precomputed(party.c, tables, party.id, mask, party.size);
    WindowIsChunkThenTail(party.c, tables, party.id);
    assert party.Tables()[..party.c.Size(party.id)] == Chunk(party.c, tables, party.id);
    assert buffer[..querysize] == message;
    assert was[dest..dest + party.size] == value;
    party.Execute(seedBuffer, dest, buffer);
    ghost var r := Lookup(value, Chunk(party.c, tables, party.id), message);
    SpliceTwice(was, dest, r, r);
    answer := seedBuffer[dest..dest + party.size];
  }

  lemma PickNext<T>(items: seq<T>, order: seq<nat>, n: nat)
    requires n < |order| && forall i :: 0 <= i < |order| ==> order[i] < |items|
    ensures Pick(items, order[..n + 1]) == Pick(items, order[..n]) + [items[order[n]]]
  {
  }

  /** What server id sends in front of its seed. */
  function Prefix(id: nat, blinded: seq<byte>): seq<byte> { if id == 0 then blinded else [] }

  /** The buffer of one connection holds the value of its server's mask. */
  ghost predicate Keeps(buf: array<byte>, id: nat, c: Config, tables: seq<Table>, size: nat, mask: seq<byte>,
                        seedBytes: nat, blinded: seq<byte>)
    requires c.Valid() && id < c.servers && |mask| == c.MaskLength(id) && |tables| == c.groups && Wide(tables, size)
    reads buf
  {
    && buf.Length == |Prefix(id, blinded)| + seedBytes + size
    && buf[|Prefix(id, blinded)| + seedBytes..] == Precomputed(c, tables, id, mask, size)
  }

  /** The buffers of the connections served, no two of them the same: those of servers from
      id `first` on hold the values of their servers' masks. */
  ghost predicate Kept(bufs: map<nat, array<byte>>, first: nat, c: Config, tables: seq<Table>, size: nat,
                       masks: seq<seq<byte>>, seedBytes: nat, blinded: seq<byte>)
    requires Masks(c, masks) && |tables| == c.groups && Wide(tables, size)
    reads bufs.Values
  {
    && (forall id :: id in bufs && first <= id ==>
         id < c.servers && Keeps(bufs[id], id, c, tables, size, masks[id], seedBytes, blinded))
    && (forall i, j :: i in bufs && j in bufs && i != j ==> bufs[i] != bufs[j])
  }

  lemma KeptMore(bufs: map<nat, array<byte>>, id: nat, buf: array<byte>, c: Config, tables: seq<Table>, size: nat,
                 masks: seq<seq<byte>>, seedBytes: nat, blinded: seq<byte>)
    requires Masks(c, masks) && |tables| == c.groups && Wide(tables, size) && id < c.servers
    requires Kept(bufs, 0, c, tables, size, masks, seedBytes, blinded) && buf !in bufs.Values && id !in bufs
    requires Keeps(buf, id, c, tables, size, masks[id], seedBytes, blinded)
    ensures Kept(bufs[id := buf], 0, c, tables, size, masks, seedBytes, blinded)
  {
    hide Keeps;
  }

  /** One seed thread: the server sends its seed, server 0 the blinded hash in front of it,
      and the client combines the seed. */
  method ServeSeed(client: PirClient, party: PirServer, id: nat, seedBytes: nat, blinded: seq<byte>,
                   ghost tables: seq<Table>, ghost mask: seq<byte>) returns (buf: array<byte>, message: seq<byte>)
    requires client.Valid() && |tables| == client.c.groups && Wide(tables, client.size)
    requires Ready(party, client.c, id, tables, client.size, mask) && Linked(client, party, seedBytes)
    modifies party`availableSeeds, party`currentSeed, party`readSlot, client.querybuf
    ensures client.querybuf[..] == XorBytes(old(client.querybuf[..]), Spread(client.c, id, mask))
    ensures Served(party, client.c, id, tables, client.size, old(party.Pool()))
    ensures fresh(buf) && Keeps(buf, id, client.c, tables, client.size, mask, seedBytes, blinded)
    ensures id == 0 ==> message == blinded + old(party.Pool().Live()[0])[..seedBytes]
    ensures id != 0 ==> message == old(party.Pool().Live()[0])[..seedBytes]
  {
    hide Helper.Groups, Precomputed, Spread, Window, SeedRing.Ring.Live, XorBytes;
    var lead := Prefix(id, blinded);
    ghost var tuple := party.Pool().Live()[0];
    buf, message := SendSeed(party, lead);
    assert buf[|lead| + seedBytes..] == buf[|lead|..][seedBytes..];
    assert message[|lead|..] == tuple[..seedBytes];
    client.HandleSeed(id, message[|lead|..]);
  }

  type Pool = SeedRing.Ring<seq<byte>>

  /** Server id has handed out the oldest tuple of its pool, and nothing else has changed. */
  ghost predicate Served(p: PirServer, c: Config, id: nat, tables: seq<Table>, size: nat, pool: Pool)
    requires c.Valid() && |tables| == c.groups
    reads p, p.precomputedSeeds, p.db
  {
    Holds(p, c, id, tables, size) && p.Valid() && pool.Valid() && pool.available > 0 && p.Pool() == pool.Take()
  }

  /** Server id is about to hand out the oldest tuple of its pool. */
  ghost predicate Waiting(p: PirServer, c: Config, id: nat, tables: seq<Table>, size: nat, mask: seq<byte>, pool: Pool)
    requires c.Valid() && |tables| == c.groups && Wide(tables, size)
    reads p, p.precomputedSeeds, p.db
  {
    Ready(p, c, id, tables, size, mask) && p.Pool() == pool
  }

  /** The servers whose id is in `served` have handed out a tuple; the others are about to. */
  ghost predicate Family(client: PirClient, parties: seq<PirServer>, served: set<nat>, seedBytes: nat,
                         tables: seq<Table>, masks: seq<seq<byte>>, pools: seq<Pool>)
    requires Masks(client.c, masks) && |tables| == client.c.groups && Wide(tables, client.size)
    reads parties, set p | p in parties :: p.db, set p | p in parties :: p.precomputedSeeds
  {
    && |parties| == |pools| == client.c.servers
    && (forall i, j :: 0 <= i < |parties| && 0 <= j < |parties| && i != j ==> parties[i] != parties[j])
    && (forall i :: 0 <= i < |parties| ==> Linked(client, parties[i], seedBytes))
    && (forall i :: 0 <= i < |parties| ==>
         if i in served then Served(parties[i], client.c, i, tables, client.size, pools[i])
         else Waiting(parties[i], client.c, i, tables, client.size, masks[i], pools[i]))
  }

  /** One seed thread, seen among all servers and all connections. */
  method ServeNext(client: PirClient, parties: seq<PirServer>, id: nat, ghost served: set<nat>, bufs: map<nat, array<byte>>,
                   seedBytes: nat, blinded: seq<byte>, ghost tables: seq<Table>, ghost masks: seq<seq<byte>>, ghost pools: seq<Pool>)
    returns (bufs': map<nat, array<byte>>)
    requires client.Valid() && Masks(client.c, masks) && |tables| == client.c.groups && Wide(tables, client.size)
    requires id < client.c.servers && id !in served && bufs.Keys == served
    requires Family(client, parties, served, seedBytes, tables, masks, pools)
    requires Kept(bufs, 0, client.c, tables, client.size, masks, seedBytes, blinded) && client.querybuf !in bufs.Values
    modifies parties`availableSeeds, parties`currentSeed, parties`readSlot, client.querybuf
    ensures client.querybuf[..] == XorBytes(old(client.querybuf[..]), Spread(client.c, id, masks[id]))
    ensures Family(client, parties, served + {id}, seedBytes, tables, masks, pools)
    ensures bufs'.Keys == served + {id} && fresh(bufs'.Values - bufs.Values)
    ensures Kept(bufs', 0, client.c, tables, client.size, masks, seedBytes, blinded) && client.querybuf !in bufs'.Values
  {
    hide Ready, Holds, Served, Precomputed, Spread, XorBytes, Wide, Rect, Config.MaskLength, Kept, Keeps;
    var buf, message := ServeSeed(client, parties[id], id, seedBytes, blinded, tables, masks[id]);
    assert forall i :: 0 <= i < |parties| && i != id ==> parties[i] != parties[id];
    KeptMore(bufs, id, buf, client.c, tables, client.size, masks, seedBytes, blinded);
    bufs' := bufs[id := buf];
    assert bufs'.Values <= bufs.Values + {buf};
  }

  /** The seed threads, in the order in which they enter the client's mutex. */
  method ReceiveSeeds(client: PirClient, parties: seq<PirServer>, order: seq<nat>, seedBytes: nat, blinded: seq<byte>,
                      ghost tables: seq<Table>, ghost masks: seq<seq<byte>>, ghost pools: seq<Pool>) returns (bufs: map<nat, array<byte>>)
    requires client.Valid() && IsSchedule(order, client.c.servers) && |parties| == client.c.servers
    requires Masks(client.c, masks) && |tables| == client.c.groups && Wide(tables, client.size)
    requires Family(client, parties, {}, seedBytes, tables, masks, pools)
    requires client.querybuf[..] == Zeros(client.c.groups)
    modifies parties`availableSeeds, parties`currentSeed, parties`readSlot, client.querybuf
    ensures client.querybuf[..] == XorSum(Spreads(client.c, masks), client.c.groups)
    ensures forall i: nat :: i in bufs <==> i < client.c.servers
    ensures fresh(bufs.Values) && Kept(bufs, 0, client.c, tables, client.size, masks, seedBytes, blinded)
    ensures Family(client, parties, bufs.Keys, seedBytes, tables, masks, pools)
  {
    hide Family, Kept, Combined, Spread, XorBytes, Wide, IsSchedule, Taken;
    var c := client.c;
    ScheduleRange(order, c.servers);
    bufs := map[];
    CombinedNone(c, masks, order);
    NoneKept(c, tables, client.size, masks, seedBytes, blinded);
    NoneTaken(order);
    for n := 0 to c.servers
      invariant client.querybuf[..] == Combined(c, masks, order, n)
      invariant bufs.Keys == Taken(order, n)
      invariant fresh(bufs.Values) && client.querybuf !in bufs.Values
      invariant Kept(bufs, 0, c, tables, client.size, masks, seedBytes, blinded)
      invariant Family(client, parties, bufs.Keys, seedBytes, tables, masks, pools)
    {
      var id := order[n];
      TakenNext(order, c.servers, n);
      CombinedNext(c, masks, order, n);
      bufs := ServeNext(client, parties, id, bufs.Keys, bufs, seedBytes, blinded, tables, masks, pools);
    }
    AllTaken(order, c.servers);
    CombinedAll(c, masks, order);
  }

  /** The threads that have had their turn. */
  ghost function Taken(order: seq<nat>, n: nat): set<nat>
    requires n <= |order|
  {
    set i | i in order[..n]
  }

  lemma NoneTaken(order: seq<nat>)
    ensures Taken(order, 0) == {}
  {
  }

  lemma TakenNext(order: seq<nat>, servers: nat, n: nat)
    requires IsSchedule(order, servers) && n < |order|
    ensures order[n] !in Taken(order, n) && Taken(order, n + 1) == Taken(order, n) + {order[n]}
  {
    ScheduleDistinct(order, servers, n);
    assert order[..n + 1] == order[..n] + [order[n]];
  }

  lemma AllTaken(order: seq<nat>, servers: nat)
    requires IsSchedule(order, servers) && |order| == servers
    ensures forall i: nat :: i in Taken(order, servers) <==> i < servers
  {
    ScheduleComplete(order, servers);
    assert order[..servers] == order;
  }

  lemma NoneKept(c: Config, tables: seq<Table>, size: nat, masks: seq<seq<byte>>, seedBytes: nat, blinded: seq<byte>)
    requires Masks(c, masks) && |tables| == c.groups && Wide(tables, size)
    ensures Kept(map[], 0, c, tables, size, masks, seedBytes, blinded)
  {
  }

  /** The query buffer after the first n seed threads of the schedule. */
  ghost function Combined(c: Config, masks: seq<seq<byte>>, order: seq<nat>, n: nat): (q: seq<byte>)
    requires Masks(c, masks) && IsSchedule(order, c.servers) && n <= c.servers
    ensures |q| == c.groups
  {
    ScheduleRange(order, c.servers);
    XorSum(Pick(Spreads(c, masks), order[..n]), c.groups)
  }

  lemma CombinedNone(c: Config, masks: seq<seq<byte>>, order: seq<nat>)
    requires Masks(c, masks) && IsSchedule(order, c.servers)
    ensures Combined(c, masks, order, 0) == Zeros(c.groups)
  {
    ScheduleRange(order, c.servers);
  }

  lemma CombinedNext(c: Config, masks: seq<seq<byte>>, order: seq<nat>, n: nat)
    requires Masks(c, masks) && IsSchedule(order, c.servers) && n < c.servers
    ensures |order| == c.servers && order[n] < c.servers
    ensures Combined(c, masks, order, n + 1)
         == XorBytes(Combined(c, masks, order, n), Spread(c, order[n], masks[order[n]]))
  {
    ScheduleRange(order, c.servers);
    PickNext(Spreads(c, masks), order, n);
    SumAppend(Pick(Spreads(c, masks), order[..n]), Spreads(c, masks)[order[n]], c.groups);
  }

  lemma CombinedAll(c: Config, masks: seq<seq<byte>>, order: seq<nat>)
    requires Masks(c, masks) && IsSchedule(order, c.servers)
    ensures Combined(c, masks, order, c.servers) == XorSum(Spreads(c, masks), c.groups)
  {
    ScheduleRange(order, c.servers);
    assert order[..c.servers] == order;
    ScheduleIndependent(Spreads(c, masks), order, c.groups);
  }

  /** Client and server were configured alike and share no buffer. */
  ghost predicate Linked(client: PirClient, p: PirServer, seedBytes: nat)
    reads p`db, p`precomputedSeeds
  {
    && p.seedBytes == seedBytes && p.expand == client.expand
    && client.querybuf != p.db && client.querybuf != p.precomputedSeeds
    && client.resultbuf != p.db && client.resultbuf != p.precomputedSeeds
  }

  /** A thread that takes its turn at place n has not had it before. */
  lemma ScheduleDistinct(order: seq<nat>, n: nat, k: nat)
    requires IsSchedule(order, n) && k < |order|
    ensures order[k] !in order[..k]
  {
    var x := order[k];
    assert order == order[..k] + [x] + order[k + 1..];
    IotaOnce(n, x);
    assert multiset(order)[x] == multiset(order[..k])[x] + 1 + multiset(order[k + 1..])[x];
  }

  lemma {:induction false} IotaOnce(n: nat, x: nat)
    ensures multiset(Iota(n))[x] <= 1
    decreases n
  {
    if n > 0 {
      IotaOnce(n - 1, x);
      assert Iota(n) == Iota(n - 1) + [n - 1];
      if x == n - 1 {
        assert x !in Iota(n - 1);
      }
    }
  }

  lemma ScheduleComplete(order: seq<nat>, n: nat)
    requires IsSchedule(order, n)
    ensures forall i: nat :: i in order <==> i < n
  {
    forall i: nat ensures i in order <==> i < n {
      assert i in order <==> i in multiset(order);
      assert i in multiset(Iota(n)) <==> i in Iota(n);
      if i < n {
        assert Iota(n)[i] == i;
      }
    }
  }

  lemma FamilyMember(client: PirClient, parties: seq<PirServer>, served: set<nat>, seedBytes: nat,
                     tables: seq<Table>, masks: seq<seq<byte>>, pools: seq<Pool>, id: nat)
    requires Masks(client.c, masks) && |tables| == client.c.groups && Wide(tables, client.size)
    requires Family(client, parties, served, seedBytes, tables, masks, pools) && id in served && id < |parties|
    ensures Holds(parties[id], client.c, id, tables, client.size) && parties[id].seedBytes == seedBytes
  {
    hide Holds, Ready;
  }

  /** The answer of one server, which sends it from the buffer of its connection. */
  method CollectNext(client: PirClient, party: PirServer, bufs: map<nat, array<byte>>, id: nat, seedBytes: nat,
                     blinded: seq<byte>, ghost tables: seq<Table>, ghost masks: seq<seq<byte>>) returns (answer: seq<byte>)
    requires client.Valid() && Masks(client.c, masks) && |tables| == client.c.groups && Wide(tables, client.size)
    requires id < client.c.servers && id in bufs && client.querybuf !in bufs.Values && party.db !in bufs.Values
    requires Kept(bufs, id, client.c, tables, client.size, masks, seedBytes, blinded)
    requires Holds(party, client.c, id, tables, client.size) && party.seedBytes == seedBytes
    modifies bufs[id]
    ensures Kept(bufs, id + 1, client.c, tables, client.size, masks, seedBytes, blinded)
    ensures answer == ServerAnswer(client.c, tables, id, masks[id], client.querybuf[..], client.size)
  {
    hide Precomputed, ServerAnswer, Chunk, Wide, Ready, Window, Helper.Groups, Answer, Prefix;
    var message := client.SendQuery(id);
    answer := SendAnswer(party, bufs[id], |Prefix(id, blinded)|, message, tables, client.querybuf[..], masks[id]);
  }

  /** The answers to the client's query, computed by every server on its own buffer. */
  method CollectAnswers(client: PirClient, parties: seq<PirServer>, bufs: map<nat, array<byte>>, seedBytes: nat, blinded: seq<byte>,
                        ghost tables: seq<Table>, ghost masks: seq<seq<byte>>, ghost pools: seq<Pool>) returns (answers: seq<seq<byte>>)
    requires client.Valid() && |parties| == client.c.servers
    requires Masks(client.c, masks) && |tables| == client.c.groups && Wide(tables, client.size)
    requires (forall i: nat :: i in bufs <==> i < client.c.servers) && client.querybuf !in bufs.Values
    requires Kept(bufs, 0, client.c, tables, client.size, masks, seedBytes, blinded)
    requires Family(client, parties, bufs.Keys, seedBytes, tables, masks, pools)
    requires forall i :: 0 <= i < |parties| ==> parties[i].db !in bufs.Values && parties[i].precomputedSeeds !in bufs.Values
    modifies bufs.Values
    ensures answers == ServerAnswers(client.c, tables, masks, client.querybuf[..], client.size)
    ensures Family(client, parties, bufs.Keys, seedBytes, tables, masks, pools)
  {
    hide ServerAnswer, Wide, Kept, Holds, Family, Chunk, Rect;
    var c := client.c;
    ghost var query := client.querybuf[..];
    answers := [];
    for id := 0 to c.servers
      invariant client.querybuf[..] == query
      invariant |answers| == id
      invariant Family(client, parties, bufs.Keys, seedBytes, tables, masks, pools)
      invariant forall i :: 0 <= i < id ==> answers[i] == ServerAnswer(c, tables, i, masks[i], query, client.size)
      invariant Kept(bufs, id, c, tables, client.size, masks, seedBytes, blinded)
    {
      FamilyMember(client, parties, bufs.Keys, seedBytes, tables, masks, pools, id);
      var answer := CollectNext(client, parties[id], bufs, id, seedBytes, blinded, tables, masks);
      answers := answers + [answer];
    }
  }

  /** The result threads, in the order in which they enter the client's mutex. */
  method CombineAnswers(client: PirClient, answers: seq<seq<byte>>, order: seq<nat>)
    requires client.Valid() && Rect(answers, client.size) && IsSchedule(order, |answers|)
    requires client.resultbuf[..] == Zeros(client.size)
    modifies client.resultbuf
    ensures client.resultbuf[..] == XorSum(answers, client.size)
  {
    hide XorBytes;
    ScheduleRange(order, |answers|);
    for n := 0 to |answers|
      invariant client.resultbuf[..] == XorSum(Pick(answers, order[..n]), client.size)
    {
      PickNext(answers, order, n);
      SumAppend(Pick(answers, order[..n]), answers[order[n]], client.size);
      client.ReceiveResults(answers[order[n]]);
    }
    assert order[..|answers|] == order;
    ScheduleIndependent(answers, order, client.size);
  }

  /** The second part of a retrieval: the index goes into the query, the servers answer,
      the answers are combined. */
  method RunPIR(client: PirClient, parties: seq<PirServer>, bufs: map<nat, array<byte>>, index: nat, resultOrder: seq<nat>,
                seedBytes: nat, blinded: seq<byte>, ghost raw: seq<Block>, ghost masks: seq<seq<byte>>, ghost pools: seq<Pool>)
    requires client.Valid() && |parties| == client.c.servers
    requires Rect(raw, client.size) && client.c.groups == GroupCount(|raw|) && index < |raw|
    requires Masks(client.c, masks) && IsSchedule(resultOrder, client.c.servers)
    requires (forall i: nat :: i in bufs <==> i < client.c.servers)
    requires client.querybuf !in bufs.Values && client.resultbuf !in bufs.Values
    requires Kept(bufs, 0, client.c, DatabaseTables(raw, client.size), client.size, masks, seedBytes, blinded)
    requires Family(client, parties, bufs.Keys, seedBytes, DatabaseTables(raw, client.size), masks, pools)
    requires forall i :: 0 <= i < |parties| ==> parties[i].db !in bufs.Values && parties[i].precomputedSeeds !in bufs.Values
    requires client.querybuf[..] == XorSum(Spreads(client.c, masks), client.c.groups)
    modifies client.querybuf, client.resultbuf, bufs.Values
    ensures client.resultbuf[..] == raw[index]
    ensures Family(client, parties, bufs.Keys, seedBytes, DatabaseTables(raw, client.size), masks, pools)
  {
    hide Kept, XorSum, Family, DatabaseTables, AllLinear, Answer, Wide, ServerAnswers;
    var c := client.c;
    ghost var tables := DatabaseTables(raw, client.size);
    FamilyBuffers(client, parties, bufs.Keys, seedBytes, tables, masks, pools);
    client.SetIndex(index);
    assert client.querybuf[..] == ClientQuery(c, masks, index);
    var answers := CollectAnswers(client, parties, bufs, seedBytes, blinded, tables, masks, pools);
    CombineAnswers(client, answers, resultOrder);
    DatabaseLinear(raw, client.size);
    MasksCancel(c, tables, masks, index, client.size);
    OneHotSelects(raw, index, client.size);
  }

  /** One whole retrieval: whatever tuples the servers hand out and in whatever order the
      client's threads run, the client ends up with the block it asked for. */
  method Request(client: PirClient, parties: seq<PirServer>, index: nat, seedOrder: seq<nat>, resultOrder: seq<nat>,
                 seedBytes: nat, blinded: seq<byte>, ghost raw: seq<Block>, ghost masks: seq<seq<byte>>, ghost pools: seq<Pool>)
    requires client.Valid() && |parties| == client.c.servers
    requires Rect(raw, client.size) && client.c.groups == GroupCount(|raw|) && index < |raw|
    requires Masks(client.c, masks)
    requires Family(client, parties, {}, seedBytes, DatabaseTables(raw, client.size), masks, pools)
    requires IsSchedule(seedOrder, client.c.servers) && IsSchedule(resultOrder, client.c.servers)
    modifies parties`availableSeeds, parties`currentSeed, parties`readSlot, client.querybuf, client.resultbuf
    ensures client.resultbuf[..] == raw[index]
    ensures Family(client, parties, AllIds(client.c), seedBytes, DatabaseTables(raw, client.size), masks, pools)
  {
    hide Kept, XorSum, Family, DatabaseTables, AllLinear, Answer, Wide, Spreads;
    ghost var tables := DatabaseTables(raw, client.size);
    FamilyBuffers(client, parties, {}, seedBytes, tables, masks, pools);
    client.InitRequest();
    var bufs := ReceiveSeeds(client, parties, seedOrder, seedBytes, blinded, tables, masks, pools);
    AllIdsAre(client.c);
    assert bufs.Keys == AllIds(client.c);
    RunPIR(client, parties, bufs, index, resultOrder, seedBytes, blinded, raw, masks, pools);
  }

  function AllIds(c: Config): set<nat> { set i | i in Iota(c.servers) }

  lemma AllIdsAre(c: Config)
    ensures forall i: nat :: i in AllIds(c) <==> i < c.servers
  {
    forall i: nat ensures i in AllIds(c) <==> i < c.servers {
      if i < c.servers {
        assert Iota(c.servers)[i] == i;
      }
    }
  }

  lemma FamilyBuffers(client: PirClient, parties: seq<PirServer>, served: set<nat>, seedBytes: nat,
                      tables: seq<Table>, masks: seq<seq<byte>>, pools: seq<Pool>)
    requires Masks(client.c, masks) && |tables| == client.c.groups && Wide(tables, client.size)
    requires Family(client, parties, served, seedBytes, tables, masks, pools)
    ensures forall p :: p in parties ==>
      client.querybuf != p.db && client.querybuf != p.precomputedSeeds
      && client.resultbuf != p.db && client.resultbuf != p.precomputedSeeds
  {
  }

  // ----- one retrieval after another

  /** Server id holds its tables, and its pool holds the tuples of the given seeds. */
  ghost predicate Stocked(p: PirServer, c: Config, id: nat, tables: seq<Table>, size: nat, seeds: seq<seq<byte>>)
    requires c.Valid() && |tables| == c.groups && Wide(tables, size)
    reads p, p.precomputedSeeds, p.db
  {
    && Holds(p, c, id, tables, size)
    && p.Valid()
    && (forall k :: 0 <= k < |seeds| ==> |seeds[k]| == p.seedBytes)
    && p.Pool().Live() == p.TuplesOf(p.Tables(), seeds)
  }

  /** The pool, as it was, holds the tuples of the given seeds. */
  ghost predicate PoolHolds(p: PirServer, window: seq<Table>, pool: Pool, seeds: seq<seq<byte>>) {
    && p.c.Valid() && p.id < p.c.servers && |window| == WindowGroups(p.c, p.id) && Wide(window, p.size)
    && pool.Valid() && pool.Live() == p.TuplesOf(window, seeds)
    && forall k :: 0 <= k < |seeds| ==> |seeds[k]| == p.seedBytes
  }

  lemma StockedWaits(p: PirServer, c: Config, id: nat, tables: seq<Table>, size: nat, seeds: seq<seq<byte>>)
    requires c.Valid() && |tables| == c.groups && Wide(tables, size) && Stocked(p, c, id, tables, size, seeds) && seeds != []
    ensures p.Loaded() && Waiting(p, c, id, tables, size, p.expand(seeds[0], c.MaskLength(id)), p.Pool())
    ensures PoolHolds(p, Window(c, tables, id, c.chunks), p.Pool(), seeds)
  {
    hide Helper.Groups, SeedRing.Ring.Live, Answer, Window;
    assert |p.Pool().Live()| == |seeds|;
    OwnTupleIsUsable(p, c, id, tables, size, seeds[0]);
  }

  lemma ServedStocked(p: PirServer, c: Config, id: nat, tables: seq<Table>, size: nat, seeds: seq<seq<byte>>, pool: Pool)
    requires c.Valid() && |tables| == c.groups && Wide(tables, size) && Served(p, c, id, tables, size, pool)
    requires seeds != [] && PoolHolds(p, Window(c, tables, id, c.chunks), pool, seeds)
    ensures Stocked(p, c, id, tables, size, seeds[1..])
  {
    hide Helper.Groups, SeedRing.Ring.Live, Answer, Window;
    pool.TakeLive();
    assert pool.Live()[1..] == p.TuplesOf(p.Tables(), seeds[1..]);
  }

  /** Every server still has the tuples of its seeds from the k-th on. */
  ghost predicate AllStocked(client: PirClient, parties: seq<PirServer>, seedBytes: nat, tables: seq<Table>,
                             seeds: seq<seq<seq<byte>>>, k: nat)
    requires client.c.Valid() && |tables| == client.c.groups && Wide(tables, client.size)
    reads parties, set p | p in parties :: p.db, set p | p in parties :: p.precomputedSeeds
  {
    && |parties| == |seeds| == client.c.servers
    && (forall i, j :: 0 <= i < |parties| && 0 <= j < |parties| && i != j ==> parties[i] != parties[j])
    && (forall i :: 0 <= i < |parties| ==> Linked(client, parties[i], seedBytes))
    && (forall i :: 0 <= i < |parties| ==>
         k <= |seeds[i]| && Stocked(parties[i], client.c, i, tables, client.size, seeds[i][k..]))
  }

  /** The masks of the k-th retrieval. */
  ghost function MasksAt(client: PirClient, seeds: seq<seq<seq<byte>>>, k: nat): (masks: seq<seq<byte>>)
    requires client.c.Valid() && |seeds| == client.c.servers && forall i :: 0 <= i < |seeds| ==> k < |seeds[i]|
    ensures Masks(client.c, masks)
  {
    seq(client.c.servers, i requires 0 <= i < client.c.servers => client.expand(seeds[i][k], client.c.MaskLength(i)))
  }

  ghost predicate PoolsHold(parties: seq<PirServer>, c: Config, tables: seq<Table>, pools: seq<Pool>,
                            seeds: seq<seq<seq<byte>>>, k: nat)
    requires c.Valid() && |tables| == c.groups
  {
    && |parties| == |pools| == |seeds| == c.servers
    && forall i :: 0 <= i < |parties| ==>
         k < |seeds[i]| && PoolHolds(parties[i], Window(c, tables, i, c.chunks), pools[i], seeds[i][k..])
  }

  lemma StockFamily(client: PirClient, parties: seq<PirServer>, seedBytes: nat, tables: seq<Table>,
                    seeds: seq<seq<seq<byte>>>, k: nat) returns (pools: seq<Pool>)
    requires client.c.Valid() && |tables| == client.c.groups && Wide(tables, client.size)
    requires AllStocked(client, parties, seedBytes, tables, seeds, k) && forall i :: 0 <= i < |seeds| ==> k < |seeds[i]|
    ensures Family(client, parties, {}, seedBytes, tables, MasksAt(client, seeds, k), pools)
    ensures PoolsHold(parties, client.c, tables, pools, seeds, k)
  {
    hide Stocked, Waiting, PoolHolds, Served, Window, Wide;
    pools := [];
    for n := 0 to |parties|
      invariant |pools| == n
      invariant forall i :: 0 <= i < n ==>
        Waiting(parties[i], client.c, i, tables, client.size, MasksAt(client, seeds, k)[i], pools[i])
      invariant forall i :: 0 <= i < n ==> PoolHolds(parties[i], Window(client.c, tables, i, client.c.chunks), pools[i], seeds[i][k..])
    {
      StockedWaits(parties[n], client.c, n, tables, client.size, seeds[n][k..]);
      pools := pools + [parties[n].Pool()];
    }
  }

  lemma FamilyStocked(client: PirClient, parties: seq<PirServer>, seedBytes: nat, tables: seq<Table>,
                      seeds: seq<seq<seq<byte>>>, k: nat, masks: seq<seq<byte>>, pools: seq<Pool>)
    requires Masks(client.c, masks) && |tables| == client.c.groups && Wide(tables, client.size)
    requires Family(client, parties, AllIds(client.c), seedBytes, tables, masks, pools)
    requires PoolsHold(parties, client.c, tables, pools, seeds, k)
    ensures AllStocked(client, parties, seedBytes, tables, seeds, k + 1)
  {
    hide Stocked, Waiting, PoolHolds, Served, Window, Wide, Linked;
    AllIdsAre(client.c);
    forall i | 0 <= i < |parties| ensures Stocked(parties[i], client.c, i, tables, client.size, seeds[i][k + 1..]) {
      ServedStocked(parties[i], client.c, i, tables, client.size, seeds[i][k..], pools[i]);
      assert seeds[i][k..][1..] == seeds[i][k + 1..];
    }
  }

  /** One retrieval after another, as many as there are tuples: the k-th gives the k-th block
      asked for, and each uses up one tuple of every server, the oldest. */
  method Requests(client: PirClient, parties: seq<PirServer>, indices: seq<nat>, seedOrders: seq<seq<nat>>,
                  resultOrders: seq<seq<nat>>, seedBytes: nat, blinded: seq<seq<byte>>, ghost raw: seq<Block>,
                  ghost seeds: seq<seq<seq<byte>>>) returns (blocks: seq<Block>)
    requires client.Valid() && Rect(raw, client.size) && client.c.groups == GroupCount(|raw|)
    requires |indices| == |seedOrders| == |resultOrders| == |blinded|
    requires forall k :: 0 <= k < |indices| ==> indices[k] < |raw|
    requires forall k :: 0 <= k < |indices| ==> IsSchedule(seedOrders[k], client.c.servers) && IsSchedule(resultOrders[k], client.c.servers)
    requires AllStocked(client, parties, seedBytes, DatabaseTables(raw, client.size), seeds, 0)
    requires forall i :: 0 <= i < |seeds| ==> |indices| <= |seeds[i]|
    modifies parties`availableSeeds, parties`currentSeed, parties`readSlot, client.querybuf, client.resultbuf
    ensures |blocks| == |indices| && forall k :: 0 <= k < |blocks| ==> blocks[k] == raw[indices[k]]
    ensures AllStocked(client, parties, seedBytes, DatabaseTables(raw, client.size), seeds, |indices|)
  {
    hide AllStocked, Family, PoolsHold, DatabaseTables, Rect, Wide, IsSchedule, MasksAt, AllIds;
    ghost var tables := DatabaseTables(raw, client.size);
    StockedLengths(client, parties, seedBytes, tables, seeds, 0);
    blocks := [];
    for k := 0 to |indices|
      invariant |blocks| == k && forall n :: 0 <= n < k ==> blocks[n] == raw[indices[n]]
      invariant AllStocked(client, parties, seedBytes, tables, seeds, k)
    {
      ghost var pools := StockFamily(client, parties, seedBytes, tables, seeds, k);
      ghost var masks := MasksAt(client, seeds, k);
      Request(client, parties, indices[k], seedOrders[k], resultOrders[k], seedBytes, blinded[k], raw, masks, pools);
      FamilyStocked(client, parties, seedBytes, tables, seeds, k, masks, pools);
      blocks := blocks + [client.resultbuf[..]];
    }
  }

  lemma StockedLengths(client: PirClient, parties: seq<PirServer>, seedBytes: nat, tables: seq<Table>,
                       seeds: seq<seq<seq<byte>>>, k: nat)
    requires client.c.Valid() && |tables| == client.c.groups && Wide(tables, client.size)
    requires AllStocked(client, parties, seedBytes, tables, seeds, k)
    ensures |parties| == |seeds| == client.c.servers
  {
  }
}
