/** The client's membership test as a whole: seeds, search in the manifest, retrieval of the
    block found, scan of what was retrieved. */
module Membership {
  import opened ByteStrings
  import opened Tables
  import opened Layout
  import opened Protocol
  import opened Helper
  import opened Server
  import opened Client
  import opened Session
  import opened SortedDatabase
  import opened Manifest

  /** m begins with the entries and, counted from the same byte on, holds the blocks of the
      raw database, the last one possibly longer than its entries. */
  ghost predicate Holding(f: Form, m: seq<byte>, raw: seq<Block>) {
    && f.Valid() && f.Bytes() <= |m| && Offset(f.Blocks(), f.block) <= |m|
    && raw == Slots(m, 0, f.Blocks(), f.block)
  }

  /** What is scanned of a block retrieved. */
  lemma BlockSlots(f: Form, m: seq<byte>, raw: seq<Block>, b: nat)
    requires Holding(f, m, raw) && b + 1 < f.Blocks()
    ensures |raw| == f.Blocks() && Rect(raw, f.block) && Offset(f.PerBlock(), f.size) <= f.block
    ensures Slots(raw[b], 0, f.PerBlock(), f.size) == Candidates(f, m, b)
  {
    hide Offset, Slots, Form.Blocks;
    var at, width := b * f.block, Offset(f.PerBlock(), f.size);
    PerFits(f.block, f.size);
    BlockFits(f, b);
    OffsetIs(b, f.block);
    SlotIs(m, f.Blocks(), b, f.block);
    SliceOfSlice(m, at, f.block, 0, width);
    SlotsEqual(raw[b], 0, m, at, f.PerBlock(), f.size);
  }

  /** Is x stored? Whatever seeds the servers hand out and in whatever order the threads
      run, the outcome is what the bytes of the database determine. */
  method CheckHash(client: PirClient, parties: seq<PirServer>, x: Entry, manifest: array<byte>, f: Form,
                   seedOrder: seq<nat>, resultOrder: seq<nat>, seedBytes: nat, blinded: seq<byte>,
                   ghost m: seq<byte>, ghost raw: seq<Block>, ghost masks: seq<seq<byte>>, ghost pools: seq<Pool>)
    returns (o: Outcome)
    requires client.Valid() && |parties| == client.c.servers
    requires Holding(f, m, raw) && client.size == f.block && |x| == f.size && client.c.groups == GroupCount(f.Blocks())
    requires manifest.Length == Offset(f.Blocks() - 1, f.key) && manifest != client.querybuf
    requires Slots(manifest[..], 0, f.Blocks() - 1, f.key) == Keys(Prefixes(EntriesIn(f, m), f.key), f.Blocks())
    requires Masks(client.c, masks) && Family(client, parties, {}, seedBytes, DatabaseTables(raw, client.size), masks, pools)
    requires IsSchedule(seedOrder, client.c.servers) && IsSchedule(resultOrder, client.c.servers)
    modifies parties`availableSeeds, parties`currentSeed, parties`readSlot, client.querybuf, client.resultbuf
    ensures o == TestOutcome(f, m, x)
    ensures Family(client, parties, AllIds(client.c), seedBytes, DatabaseTables(raw, client.size), masks, pools)
  {
    hide Offset, Slots, Family, Kept, DatabaseTables, Wide, XorSum, Spreads, IsSchedule, Keys, SearchIndex, Form.Blocks,
      Form.PerBlock, Rect, Candidates, Scans, Prefixes, AllIds;
    ghost var tables := DatabaseTables(raw, client.size);
    FamilyBuffers(client, parties, {}, seedBytes, tables, masks, pools);
    client.InitRequest();
    var bufs := ReceiveSeeds(client, parties, seedOrder, seedBytes, blinded, tables, masks, pools);
    AllIdsAre(client.c);
    assert bufs.Keys == AllIds(client.c);
    var index, inside := FindBlock(x, manifest, f.Blocks() - 1, f.key);
    if !inside {
      return Undefined;
    }
    RunPIR(client, parties, bufs, index, resultOrder, seedBytes, blinded, raw, masks, pools);
    BlockSlots(f, m, raw, index);
    assert Slots(client.resultbuf[..], 0, f.PerBlock(), f.size) == Candidates(f, m, index);
    var present := ScanBlock(x, client.resultbuf, f.PerBlock(), f.size);
    return Found(present);
  }
}
