/** From a raw database to answers: the tables are built and written to a file, every server
    starts from the file and fills its pool, and a client asks. Nothing is assumed of the
    servers but the seeds they draw. */
module Deployment {
  import opened Bits
  import opened ByteStrings
  import opened Tables
  import opened Layout
  import opened Protocol
  import opened Helper
  import opened FourRussians
  import opened Server
  import opened Client
  import opened Session
  import opened SortedDatabase
  import opened Manifest
  import Membership
  import SeedRing

  /** Everything the parties are configured with: the sizes of a field element, a block and
      a seed, and the capacity of a pool. */
  datatype Setup = Setup(c: Config, feSize: nat, size: nat, seedBytes: nat, maxSeeds: nat, expand: Expander) {
    predicate Valid() { c.Valid() && seedBytes > 0 && maxSeeds > 0 }
  }

  /** The seeds every server draws to fill its pool. */
  ghost predicate Draws(u: Setup, seeds: seq<seq<seq<byte>>>) {
    && |seeds| == u.c.servers
    && forall id :: 0 <= id < |seeds| ==>
         |seeds[id]| == u.maxSeeds && forall k :: 0 <= k < |seeds[id]| ==> |seeds[id][k]| == u.seedBytes
  }

  /** A server starts from the file and fills its pool. */
  method StartServer(u: Setup, id: nat, data: seq<byte>, seeds: seq<seq<byte>>) returns (p: PirServer)
    requires u.Valid() && id < u.c.servers && IsDatabaseFile(data, u.feSize, u.c.groups, u.size)
    requires |seeds| == u.maxSeeds && forall k :: 0 <= k < |seeds| ==> |seeds[k]| == u.seedBytes
    ensures fresh(p) && fresh(p.db) && fresh(p.precomputedSeeds)
    ensures p.seedBytes == u.seedBytes && p.expand == u.expand
    ensures p.serverKey == data[1 + u.feSize..1 + 2 * u.feSize]
    ensures Stocked(p, u.c, id, FileTables(data, u.feSize, u.c.groups, u.size), u.size, seeds)
  {
    hide FileTables, SeedRing.Ring.Live, Answer, Window;
    var file := new FileReader(data);
    p := new PirServer(u.c, id, file, u.size, u.seedBytes, u.feSize, u.maxSeeds, u.expand);
    assert |p.Pool().Live()| == 0;
    p.Precompute(seeds);
    assert p.Pool().Live() == p.TuplesOf(p.Tables(), seeds);
  }

  /** The servers started so far are distinct, stocked, and linked with the client. */
  ghost predicate Started(client: PirClient, parties: seq<PirServer>, u: Setup, tables: seq<Table>, seeds: seq<seq<seq<byte>>>)
    requires client.c.Valid() && |tables| == client.c.groups && Wide(tables, client.size)
    reads parties, set p | p in parties :: p.db, set p | p in parties :: p.precomputedSeeds
  {
    && |parties| <= client.c.servers == |seeds|
    && (forall i, j :: 0 <= i < |parties| && 0 <= j < |parties| && i != j ==> parties[i] != parties[j])
    && (forall i :: 0 <= i < |parties| ==>
         Linked(client, parties[i], u.seedBytes) && Stocked(parties[i], client.c, i, tables, client.size, seeds[i]))
  }

  lemma StartedMore(client: PirClient, parties: seq<PirServer>, p: PirServer, u: Setup, tables: seq<Table>,
                    seeds: seq<seq<seq<byte>>>)
    requires client.c.Valid() && |tables| == client.c.groups && Wide(tables, client.size)
    requires Started(client, parties, u, tables, seeds) && |parties| < client.c.servers && p !in parties
    requires Linked(client, p, u.seedBytes) && Stocked(p, client.c, |parties|, tables, client.size, seeds[|parties|])
    ensures Started(client, parties + [p], u, tables, seeds)
  {
    hide Linked, Stocked;
  }

  lemma AllStarted(client: PirClient, parties: seq<PirServer>, u: Setup, tables: seq<Table>, seeds: seq<seq<seq<byte>>>)
    requires client.c.Valid() && |tables| == client.c.groups && Wide(tables, client.size)
    requires Started(client, parties, u, tables, seeds) && |parties| == client.c.servers
    ensures AllStocked(client, parties, u.seedBytes, tables, seeds, 0)
  {
    hide Linked, Stocked;
    forall i | 0 <= i < |parties| ensures Stocked(parties[i], client.c, i, tables, client.size, seeds[i][0..]) {
      assert seeds[i][0..] == seeds[i];
    }
  }

  /** Client and servers, all started from one file. */
  method StartAll(u: Setup, data: seq<byte>, seeds: seq<seq<seq<byte>>>) returns (client: PirClient, parties: seq<PirServer>)
    requires u.Valid() && IsDatabaseFile(data, u.feSize, u.c.groups, u.size) && Draws(u, seeds)
    ensures client.Valid() && client.c == u.c && client.size == u.size
    ensures fresh(client) && fresh(client.querybuf) && fresh(client.resultbuf)
    ensures fresh(parties) && |parties| == u.c.servers
    ensures forall p :: p in parties ==> p.serverKey == data[1 + u.feSize..1 + 2 * u.feSize]
    ensures AllStocked(client, parties, u.seedBytes, FileTables(data, u.feSize, u.c.groups, u.size), seeds, 0)
  {
    hide FileTables, Stocked, Started, AllStocked, Wide, Rect;
    ghost var tables := FileTables(data, u.feSize, u.c.groups, u.size);
    client := new PirClient(u.c, u.size, u.expand);
    parties := [];
    NoneStarted(client, u, tables, seeds);
    for id := 0 to u.c.servers
      invariant client.Valid() && |parties| == id && fresh(parties)
      invariant Started(client, parties, u, tables, seeds)
      invariant forall p :: p in parties ==> p.serverKey == data[1 + u.feSize..1 + 2 * u.feSize]
    {
      var p := StartServer(u, id, data, seeds[id]);
      StartedMore(client, parties, p, u, tables, seeds);
      parties := parties + [p];
    }
    AllStarted(client, parties, u, tables, seeds);
  }

  lemma NoneStarted(client: PirClient, u: Setup, tables: seq<Table>, seeds: seq<seq<seq<byte>>>)
    requires client.c.Valid() && |tables| == client.c.groups && Wide(tables, client.size) && |seeds| == client.c.servers
    ensures Started(client, [], u, tables, seeds)
  {
  }

  // ----- from the raw database

  /** Builds the tables and writes them behind a line feed, the generator and the key: the
      tables of all rows of the groups, which are those of the padded database if the rows
      behind the last block are zero. Defined where the buffer holds these rows. */
  method WriteFile(db: array<byte>, base: nat, blocks: nat, keys: seq<byte>, feSize: nat, size: nat)
    returns (data: seq<byte>, defined: bool)
    requires |keys| == 1 + 2 * feSize
    ensures db[..] == old(db[..]) && IsDatabaseFile(data, feSize, GroupCount(blocks), size)
    ensures data[..1 + 2 * feSize] == keys
    ensures defined <==> base + Offset(GroupCount(blocks) * 8, size) <= db.Length
    ensures defined ==>
      FileTables(data, feSize, GroupCount(blocks), size) == DatabaseTables(Slots(db[..], base, GroupCount(blocks) * 8, size), size)
    ensures defined && (forall p :: base + Offset(blocks, size) <= p < base + Offset(GroupCount(blocks) * 8, size) ==> db[p] == 0) ==>
      && base + Offset(blocks, size) <= db.Length
      && FileTables(data, feSize, GroupCount(blocks), size) == DatabaseTables(Slots(db[..], base, blocks, size), size)
  {
    hide Offset, Groups, Slots, TablesOf, DatabaseTables, FileTables, GroupsOf, GroupCount;
    var n := GroupCount(blocks);
    GroupsCover(blocks, size);
    assert Pow2(8) == 256;
    var predb;
    predb, defined := Preprocess(db, base, blocks, 8, size);
    data := keys + predb[..];
    assert data[1 + 2 * feSize..] == predb[..];
    if defined {
      FileHoldsDatabase(data, feSize, predb[..], db[..], base, n * 8, size);
      if forall p :: base + Offset(blocks, size) <= p < base + Offset(n * 8, size) ==> db[p] == 0 {
        FileHoldsDatabase(data, feSize, predb[..], db[..], base, blocks, size);
      }
    }
  }

  lemma GroupsCover(blocks: nat, size: nat)
    ensures GroupsOf(blocks, 8) == GroupCount(blocks) == GroupsOf(GroupCount(blocks) * 8, 8)
    ensures GroupCount(GroupCount(blocks) * 8) == GroupCount(blocks) && blocks <= GroupCount(blocks) * 8
    ensures Offset(blocks, size) <= Offset(GroupCount(blocks) * 8, size)
  {
    Scaled(blocks, GroupCount(blocks) * 8 - blocks, size);
  }

  /** The file is written, and client and servers start from it: every server holds the key
      that was put behind the generator. */
  method Deploy(u: Setup, db: array<byte>, base: nat, blocks: nat, keys: seq<byte>, seeds: seq<seq<seq<byte>>>)
    returns (client: PirClient, parties: seq<PirServer>, defined: bool)
    requires u.Valid() && u.c.groups == GroupCount(blocks) && Draws(u, seeds) && |keys| == 1 + 2 * u.feSize
    ensures db[..] == old(db[..])
    ensures client.Valid() && client.c == u.c && client.size == u.size
    ensures fresh(client) && fresh(client.querybuf) && fresh(client.resultbuf)
    ensures fresh(parties) && |parties| == u.c.servers
    ensures forall p :: p in parties ==> p.serverKey == keys[1 + u.feSize..]
    ensures defined <==> base + Offset(GroupCount(blocks) * 8, u.size) <= db.Length
    ensures defined ==>
      AllStocked(client, parties, u.seedBytes, DatabaseTables(Slots(db[..], base, GroupCount(blocks) * 8, u.size), u.size), seeds, 0)
    ensures defined && (forall p :: base + Offset(blocks, u.size) <= p < base + Offset(GroupCount(blocks) * 8, u.size) ==> db[p] == 0) ==>
      && base + Offset(blocks, u.size) <= db.Length
      && AllStocked(client, parties, u.seedBytes, DatabaseTables(Slots(db[..], base, blocks, u.size), u.size), seeds, 0)
  {
    hide Offset, Slots, DatabaseTables, FileTables, AllStocked, GroupCount, Rect, Wide;
    var data;
    data, defined := WriteFile(db, base, blocks, keys, u.feSize, u.size);
    client, parties := StartAll(u, data, seeds);
    assert data[1 + u.feSize..1 + 2 * u.feSize] == data[..1 + 2 * u.feSize][1 + u.feSize..];
  }

  /** From the raw database to blocks: whatever the database, the number of servers, the
      seeds they draw, the indices, and the orders of the client's threads. As many blocks
      are retrieved, one after another, as a pool holds tuples. */
  method Retrieve(u: Setup, db: array<byte>, base: nat, blocks: nat, keys: seq<byte>, seeds: seq<seq<seq<byte>>>,
                  indices: seq<nat>, seedOrders: seq<seq<nat>>, resultOrders: seq<seq<nat>>, blinded: seq<seq<byte>>)
    returns (results: seq<Block>, defined: bool)
    requires u.Valid() && u.c.groups == GroupCount(blocks) && Draws(u, seeds) && |keys| == 1 + 2 * u.feSize
    requires |indices| == |seedOrders| == |resultOrders| == |blinded| <= u.maxSeeds
    requires forall k :: 0 <= k < |indices| ==> indices[k] < blocks
    requires forall k :: 0 <= k < |indices| ==> IsSchedule(seedOrders[k], u.c.servers) && IsSchedule(resultOrders[k], u.c.servers)
    ensures db[..] == old(db[..])
    ensures defined <==> base + Offset(GroupCount(blocks) * 8, u.size) <= db.Length
    ensures defined ==> |results| == |indices| && forall k :: 0 <= k < |results| ==>
      && base + Offset(indices[k], u.size) + u.size <= db.Length
      && results[k] == db[base + Offset(indices[k], u.size)..base + Offset(indices[k], u.size) + u.size]
  {
    hide Offset, Slots, DatabaseTables, FileTables, IsDatabaseFile, AllStocked, IsSchedule, GroupCount, Rect, Wide;
    var client, parties;
    client, parties, defined := Deploy(u, db, base, blocks, keys, seeds);
    results := [];
    if !defined {
      return;
    }
    ghost var n := GroupCount(blocks) * 8;
    GroupsCover(blocks, u.size);
    ghost var raw := Slots(db[..], base, n, u.size);
    results := Requests(client, parties, indices, seedOrders, resultOrders, u.seedBytes, blinded, raw, seeds);
    forall k | 0 <= k < |results|
      ensures base + Offset(indices[k], u.size) + u.size <= db.Length
      ensures results[k] == db[base + Offset(indices[k], u.size)..base + Offset(indices[k], u.size) + u.size]
    {
      BlockAt(db[..], base, n, indices[k], u.size);
    }
  }

  lemma BlockAt(m: seq<byte>, base: nat, n: nat, i: nat, size: nat)
    requires base + Offset(n, size) <= |m| && i < n
    ensures base + Offset(i, size) + size <= |m|
    ensures Slots(m, base, n, size)[i] == m[base + Offset(i, size)..base + Offset(i, size) + size]
  {
    SlotFits(i, n, size);
  }

  /** A buffer of exactly the entries holds the rows of all groups exactly if the entries fill
      whole groups. */
  lemma OwnBufferIff(f: Form)
    requires f.Valid()
    ensures Offset(GroupCount(f.Blocks()) * 8, f.block) <= f.Bytes() <==> f.Bytes() % (8 * f.block) == 0
  {
    hide Offset, Form.Bytes, Form.Blocks;
    var n, b, g, w := f.Bytes(), f.Blocks(), GroupCount(f.Blocks()), 8 * f.block;
    BlocksBound(f);
    OffsetIs(g * 8, f.block);
    EightTimes(g, f.block);
    if g * w <= n {
      GroupsFilled(n, f.block, b, g, w);
    } else if n % w == 0 {
      FilledGroups(n, f.block, b, g, w);
      assert false;
    }
  }

  lemma BlocksBound(f: Form)
    requires f.Valid()
    ensures (f.Blocks() - 1) * f.block < f.Bytes() <= f.Blocks() * f.block
  {
    BlockCountIs(f.Bytes(), f.block);
  }

  lemma GroupsFilled(n: nat, d: nat, b: nat, g: nat, w: nat)
    requires d > 0 && w == 8 * d && n <= b * d && b <= 8 * g && g * w <= n
    ensures n % w == 0
  {
    Times(b, 8 * g, d);
    EightTimes(g, d);
    assert n == g * w;
    MultipleOf(n, g, w);
  }

  lemma FilledGroups(n: nat, d: nat, b: nat, g: nat, w: nat)
    requires d > 0 && w == 8 * d && 0 < b && (b - 1) * d < n <= b * d && g == (b + 7) / 8 && n % w == 0
    ensures g * w == n
  {
    var t := n / w;
    assert n == t * w + n % w;
    EightTimes(t, d);
    if t * 8 < b {
      Times(t * 8, b - 1, d);
    } else if t * 8 > b {
      MultiplesApart(b, t * 8, d);
    }
    assert b == 8 * t && g == t;
  }

  lemma EightTimes(g: nat, d: nat)
    ensures g * 8 * d == g * (8 * d)
  {
  }

  lemma MultipleOf(n: nat, g: nat, w: nat)
    requires w > 0 && n == g * w
    ensures n % w == 0
  {
    DivUnique(n, w, g, 0);
    assert n == n / w * w + n % w;
  }

  // ----- from unsorted entries

  /** m holds whole groups of blocks that begin with the database, zero behind the last block. */
  ghost predicate WholeGroups(f: Form, m: seq<byte>) {
    && f.Valid()
    && |m| == Offset(GroupCount(f.Blocks()) * 8, f.block)
    && f.Bytes() <= Offset(f.Blocks(), f.block) <= |m|
    && forall p :: Offset(f.Blocks(), f.block) <= p < |m| ==> m[p] == 0
  }

  /** Loads a database into a zeroed buffer. */
  method Load(db: array<byte>, f: Form) returns (buffer: array<byte>)
    requires f.Valid() && Flat(db, f.n, f.size)
    ensures fresh(buffer) && WholeGroups(f, buffer[..]) && buffer[..f.Bytes()] == db[..]
  {
    hide Offset, GroupCount, Form.Blocks;
    GroupsCover(f.Blocks(), f.block);
    BlocksCover(f);
    buffer := new byte[Offset(GroupCount(f.Blocks()) * 8, f.block)](_ => 0);
    forall k | 0 <= k < db.Length {
      buffer[k] := db[k];
    }
  }

  lemma BlocksCover(f: Form)
    requires f.Valid()
    ensures f.Bytes() <= Offset(f.Blocks(), f.block)
  {
    BlockCountIs(f.Bytes(), f.block);
    OffsetIs(f.Blocks(), f.block);
  }

  lemma DrawsLengths(u: Setup, seeds: seq<seq<seq<byte>>>)
    requires Draws(u, seeds)
    ensures |seeds| == u.c.servers && forall id :: 0 <= id < |seeds| ==> |seeds[id]| == u.maxSeeds
  {
  }

  /** From unsorted entries to the membership test: the entries are sorted in place, the
      manifest is made, the database deployed, and one entry looked for. If no entry position
      wraps, the database is sorted; in any case the outcome is what its bytes determine. */
  method FindEntry(u: Setup, db: array<byte>, f: Form, x: Entry, keys: seq<byte>, seeds: seq<seq<seq<byte>>>,
                   seedOrder: seq<nat>, resultOrder: seq<nat>, blinded: seq<byte>)
    returns (o: Outcome)
    requires f.Valid() && Flat(db, f.n, f.size) && f.n < 0x8000_0000 && |x| == f.size
    requires u.Valid() && u.size == f.block && u.c.groups == GroupCount(f.Blocks())
    requires Draws(u, seeds) && |keys| == 1 + 2 * u.feSize
    requires IsSchedule(seedOrder, u.c.servers) && IsSchedule(resultOrder, u.c.servers)
    modifies db
    ensures Fits(f.n, f.size) ==> Permuted(old(Entries(db, f.n, f.size)), Entries(db, f.n, f.size), 0, f.n)
    ensures Fits(f.n, f.size) ==> Sorted(Entries(db, f.n, f.size), 0, f.n)
    ensures EntriesIn(f, db[..]) == Entries(db, f.n, f.size) && o == TestOutcome(f, db[..], x)
  {
    hide Offset, Slots, DatabaseTables, FileTables, IsDatabaseFile, AllStocked, Family, PoolsHold, IsSchedule, Rect, Wide,
      Permuted, Sorted, Fits, Keys, TestOutcome, GroupCount, Form.Blocks, Prefixes, MasksAt, Draws;
    DrawsLengths(u, seeds);
    Quicksort(db, 0, f.n - 1, f.n, f.size);
    var manifest := CreateManifest(db, f.n, f.Blocks(), f.size, f.key);
    var buffer := Load(db, f);
    var client, parties, defined := Deploy(u, buffer, 0, f.Blocks(), keys, seeds);
    ghost var raw := Slots(buffer[..], 0, f.Blocks(), u.size);
    assert Membership.Holding(f, buffer[..], raw);
    ghost var pools := StockFamily(client, parties, u.seedBytes, DatabaseTables(raw, u.size), seeds, 0);
    OutcomeSame(f, db[..], buffer[..], x);
    o := Membership.CheckHash(client, parties, x, manifest, f, seedOrder, resultOrder, u.seedBytes, blinded,
                              buffer[..], raw, MasksAt(client, seeds, 0), pools);
  }
}
