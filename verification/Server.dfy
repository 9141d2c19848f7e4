/** A PIR server: the chunk map, the rotated window of the database it loads, the pool of
    precomputed tuples, and the answer to a query. The peer server and the worker of the
    central server run this code on the same fields. */
module Server {
  import opened Bits
  import opened ByteStrings
  import opened Tables
  import opened Layout
  import opened Helper
  import opened SeedRing

  /** Deterministic expansion of a seed to a given number of bytes. */
  type Expander = f: (seq<byte>, nat) -> seq<byte> | forall s: seq<byte>, n: nat :: |f(s, n)| == n
    witness (s: seq<byte>, n: nat) => Zeros(n)

  /** A file opened for reading, positioned behind its textual header. */
  class FileReader {
    const data: seq<byte>
    var pos: nat

    constructor (data: seq<byte>)
      ensures this.data == data && pos == 0
    {
      this.data := data;
      pos := 0;
    }

    method Ignore(n: nat)
      requires pos <= |data|
      modifies this
      ensures pos == if old(pos) + n <= |data| then old(pos) + n else |data|
    {
      pos := if pos + n <= |data| then pos + n else |data|;
    }

    /** Reads up to n bytes; fewer only at the end of the file. */
    method Read(dst: array<byte>, at: nat, n: nat) returns (got: nat)
      requires pos <= |data| && at + n <= dst.Length
      modifies this, dst
      ensures got == if old(pos) + n <= |data| then n else |data| - old(pos)
      ensures pos == old(pos) + got
      ensures dst[at..at + got] == data[old(pos)..old(pos) + got]
      ensures forall k :: 0 <= k < dst.Length && !(at <= k < at + got) ==> dst[k] == old(dst[k])
    {
      got := if pos + n <= |data| then n else |data| - pos;
      forall k | at <= k < at + got {
        dst[k] := data[pos + k - at];
      }
      pos := pos + got;
    }
  }

  /** The groups per chunk, as every party computes them when it starts. */
  method ChunkMap(c: Config) returns (chunksGroupsMap: seq<nat>)
    requires c.Valid()
    ensures |chunksGroupsMap| == c.servers
    ensures forall i :: 0 <= i < c.servers ==> chunksGroupsMap[i] == c.Size(i)
  {
    chunksGroupsMap := [];
    var extraGroups := c.groups % c.servers;
    for i := 0 to c.servers
      invariant |chunksGroupsMap| == i
      invariant forall j :: 0 <= j < i ==> chunksGroupsMap[j] == c.Size(j)
    {
      var chunkGroups := c.groups / c.servers;
      if i < extraGroups {
        chunkGroups := chunkGroups + 1;
      }
      chunksGroupsMap := chunksGroupsMap + [chunkGroups];
    }
  }

  /** Groups in the window of server id. */
  function WindowGroups(c: Config, id: nat): nat
    requires c.Valid() && id < c.servers
  {
    c.Size(id) + c.MaskLength(id)
  }

  /** How many groups readDB reads after skipping, reads first, and skips in between. */
  method CountSpans(c: Config, id: nat, chunksGroupsMap: seq<nat>) returns (right: nat, left: nat, toIgnore: nat)
    requires c.Valid() && id < c.servers && |chunksGroupsMap| == c.servers
    requires forall i :: 0 <= i < c.servers ==> chunksGroupsMap[i] == c.Size(i)
    ensures right == c.Size(id) + c.RightGroups(id)
    ensures left == c.LeftGroups(id)
    ensures left + toIgnore == c.Start(id)
  {
    right, left := 0, 0;
    var chunksForServerLeft := 0;
    var i, j := 0, id;
    while i < c.chunks && j < |chunksGroupsMap|
      invariant i <= c.chunks && j == id + i <= c.servers
      invariant c.Start(id) + right == c.Start(j)
    {
      right := right + chunksGroupsMap[j];
      i := i + 1;
      j := j + 1;
    }
    if i < c.chunks {
      j := 0;
      while i < c.chunks
        invariant i <= c.chunks && j == chunksForServerLeft == id + i - c.servers
        invariant left == c.Start(j)
      {
        left := left + chunksGroupsMap[j];
        i := i + 1;
        chunksForServerLeft := chunksForServerLeft + 1;
        j := j + 1;
      }
    }
    assert chunksForServerLeft == c.Wrapped(id, c.chunks);
    var chunksToIgnore := id - chunksForServerLeft;
    toIgnore := 0;
    for n := 0 to chunksToIgnore
      invariant c.Start(id - n) + toIgnore == c.Start(id)
    {
      toIgnore := toIgnore + chunksGroupsMap[id - 1 - n];
    }
  }

  /** What a preprocessed file holds behind its header: a line feed, the generator, the
      server key, and one table per group. */
  ghost predicate IsDatabaseFile(data: seq<byte>, feSize: nat, groups: nat, size: nat) {
    |data| == 1 + 2 * feSize + Offset(groups, Offset(256, size))
  }

  ghost function FileTables(data: seq<byte>, feSize: nat, groups: nat, size: nat): (r: seq<Table>)
    requires IsDatabaseFile(data, feSize, groups, size)
    ensures |r| == groups && Wide(r, size)
  {
    Groups(data, 1 + 2 * feSize, groups, 256, size)
  }

  /** Two stretches of a file, the second one placed in front, are the tables of a window. */
  lemma LoadedWindow(c: Config, id: nat, data: seq<byte>, base: nat, db: seq<byte>, right: nat, left: nat, size: nat)
    requires c.Valid() && id < c.servers
    requires base + Offset(c.groups, Offset(256, size)) <= |data|
    requires right == c.Size(id) + c.RightGroups(id) && left == c.LeftGroups(id)
    requires Offset(c.Start(id), Offset(256, size)) + Offset(right, Offset(256, size)) <= Offset(c.groups, Offset(256, size))
    requires Offset(left, Offset(256, size)) <= Offset(c.groups, Offset(256, size))
    requires |db| == Offset(right + left, Offset(256, size)) == Offset(right, Offset(256, size)) + Offset(left, Offset(256, size))
    requires var w := Offset(256, size);
      && db[..Offset(right, w)] == data[base + Offset(c.Start(id), w)..base + Offset(c.Start(id), w) + Offset(right, w)]
      && db[Offset(right, w)..] == data[base..base + Offset(left, w)]
    ensures Groups(db, 0, right + left, 256, size)
         == Window(c, Groups(data, base, c.groups, 256, size), id, c.chunks)
  {
    hide Offset, Config.Size, Groups, Wide, Window, Config.Start, Config.RightGroups, Config.LeftGroups;
    var all, loaded := Groups(data, base, c.groups, 256, size), Groups(db, 0, right + left, 256, size);
    Layout.WindowSpans(c, all, id);
    TwoStretches(db, data, base, c.groups, c.Start(id), right, left, size);
    assert loaded == loaded[..right] + loaded[right..];
  }

  lemma TwoStretches(db: seq<byte>, data: seq<byte>, base: nat, groups: nat, first: nat, right: nat, left: nat, size: nat)
    requires base + Offset(groups, Offset(256, size)) <= |data| && first + right <= groups && left <= groups
    requires Offset(first, Offset(256, size)) + Offset(right, Offset(256, size)) <= Offset(groups, Offset(256, size))
    requires Offset(left, Offset(256, size)) <= Offset(groups, Offset(256, size))
    requires |db| == Offset(right + left, Offset(256, size)) == Offset(right, Offset(256, size)) + Offset(left, Offset(256, size))
    requires var w := Offset(256, size);
      && db[..Offset(right, w)] == data[base + Offset(first, w)..base + Offset(first, w) + Offset(right, w)]
      && db[Offset(right, w)..] == data[base..base + Offset(left, w)]
    ensures Groups(db, 0, right + left, 256, size)[..right] == Groups(data, base, groups, 256, size)[first..first + right]
    ensures Groups(db, 0, right + left, 256, size)[right..] == Groups(data, base, groups, 256, size)[..left]
  {
    hide Offset, Groups, Wide;
    var w, n := Offset(256, size), right + left;
    OffsetNext(0, w);
    GroupsFrom(db, 0, n, 0, right, 256, size);
    GroupsFrom(db, 0, n, right, n, 256, size);
    GroupsFrom(data, base, groups, first, first + right, 256, size);
    GroupsFrom(data, base, groups, 0, left, 256, size);
    GroupsSame(db, 0, data, base + Offset(first, w), right, size);
    GroupsSame(db, Offset(right, w), data, base, left, size);
  }

  lemma SpansInside(c: Config, id: nat)
    requires c.Valid() && id < c.servers
    ensures WindowGroups(c, id) == c.Size(id) + c.RightGroups(id) + c.LeftGroups(id)
    ensures c.Start(id) + c.Size(id) + c.RightGroups(id) <= c.groups
  {
    assert c.Start(id + 1) == c.Start(id) + c.Size(id);
  }

  lemma SpansFit(groups: nat, first: nat, right: nat, left: nat, toIgnore: nat, w: nat)
    requires left + toIgnore == first && first + right <= groups
    ensures Offset(right + left, w) == Offset(right, w) + Offset(left, w)
    ensures Offset(left, w) + Offset(toIgnore, w) == Offset(first, w)
    ensures Offset(first, w) + Offset(right, w) == Offset(first + right, w) <= Offset(groups, w)
  {
    hide Offset;
    Scaled(right, left, w);
    Scaled(left, toIgnore, w);
    Scaled(first, right, w);
    Scaled(first + right, groups - first - right, w);
  }

  /** Reads a stretch to the back of the buffer, skips one, reads another to the front. */
  method ReadRotated(file: FileReader, db: array<byte>, leftBytes: nat, skip: nat, rightBytes: nat)
    requires db.Length == rightBytes + leftBytes
    requires file.pos + leftBytes + skip + rightBytes <= |file.data|
    modifies file, db
    ensures file.pos == old(file.pos) + leftBytes + skip + rightBytes
    ensures db[rightBytes..] == file.data[old(file.pos)..old(file.pos) + leftBytes]
    ensures db[..rightBytes] == file.data[file.pos - rightBytes..file.pos]
  {
    var got := file.Read(db, rightBytes, leftBytes);
    ghost var back := db[rightBytes..];
    assert back == db[rightBytes..rightBytes + got];
    file.Ignore(skip);
    got := file.Read(db, 0, rightBytes);
    assert db[rightBytes..] == back;
    assert db[..rightBytes] == db[0..got];
  }

  /** Loads the window of server id: the wrapped part first, to the back of the buffer,
      then, behind the skipped chunks, the part that begins with its own chunk. */
  method ReadDB(file: FileReader, c: Config, id: nat, chunksGroupsMap: seq<nat>, size: nat, feSize: nat)
    returns (db: array<byte>, keyBytes: array<byte>)
    requires c.Valid() && id < c.servers && |chunksGroupsMap| == c.servers
    requires forall i :: 0 <= i < c.servers ==> chunksGroupsMap[i] == c.Size(i)
    requires IsDatabaseFile(file.data, feSize, c.groups, size) && file.pos == 0
    modifies file
    ensures fresh(db) && fresh(keyBytes) && db != keyBytes
    ensures db.Length == Offset(WindowGroups(c, id), Offset(256, size))
    ensures Groups(db[..], 0, WindowGroups(c, id), 256, size)
         == Window(c, FileTables(file.data, feSize, c.groups, size), id, c.chunks)
    ensures keyBytes[..] == file.data[1 + feSize..1 + 2 * feSize]
    ensures file.pos == 1 + 2 * feSize + Offset(c.Start(id) + c.Size(id) + c.RightGroups(id), Offset(256, size)) <= |file.data|
  {
    hide Offset, Config.Size, Groups, Wide, Window, Config.Start, Config.RightGroups, Config.LeftGroups, WindowGroups;
    var right, left, toIgnore := CountSpans(c, id, chunksGroupsMap);
    var groupbytes := Offset(256, size);
    SpansInside(c, id);
    SpansFit(c.groups, c.Start(id), right, left, toIgnore, groupbytes);
    var rightBytes, leftBytes := Offset(right, groupbytes), Offset(left, groupbytes);
    db := new byte[Offset(right + left, groupbytes)](_ => 0);
    keyBytes := new byte[feSize](_ => 0);
    ghost var base, own := 1 + 2 * feSize, Offset(c.Start(id), groupbytes);

    file.Ignore(1);
    file.Ignore(feSize);
    var got := file.Read(keyBytes, 0, feSize);
    assert got == feSize && file.pos == base;
    ReadRotated(file, db, leftBytes, Offset(toIgnore, groupbytes), rightBytes);
    LoadedWindow(c, id, file.data, base, db[..], right, left, size);
  }

  class PirServer {
    const c: Config
    const id: nat
    const size: nat       // bytes of a block
    const seedBytes: nat
    const seedSize: nat   // bytes of a (seed, value) tuple
    const maxSeeds: nat
    const expand: Expander
    const serverKey: seq<byte>

    var chunksGroupsMap: seq<nat>
    var db: array<byte>
    var precomputedSeeds: array<byte>
    var availableSeeds: nat
    var currentSeed: nat      // position of the tuple to hand out next
    var currentPreSeed: nat   // position of the tuple to fill next
    ghost var readSlot: nat
    ghost var writeSlot: nat

    ghost predicate Loaded()
      reads this
    {
      && c.Valid() && id < c.servers
      && |chunksGroupsMap| == c.servers
      && (forall i :: 0 <= i < c.servers ==> chunksGroupsMap[i] == c.Size(i))
      && db.Length == Offset(WindowGroups(c, id), Offset(256, size))
      && db != precomputedSeeds
      && seedSize == size + seedBytes && seedBytes > 0 && maxSeeds > 0
      && precomputedSeeds.Length == Offset(maxSeeds, seedSize)
    }

    ghost predicate Valid()
      reads this, precomputedSeeds
    {
      && Loaded()
      && Pool().Valid()
      && currentSeed == Offset(readSlot, seedSize)
      && currentPreSeed == Offset(writeSlot, seedSize)
    }

    /** The tables of the server's window. */
    ghost function Tables(): (r: seq<Table>)
      requires Loaded()
      reads this, db
      ensures |r| == WindowGroups(c, id) && Wide(r, size)
    {
      Groups(db[..], 0, WindowGroups(c, id), 256, size)
    }

    /** The pool of tuples, each the bytes of a seed followed by those of its value. */
    ghost function Pool(): Ring<seq<byte>>
      requires Loaded()
      reads this, precomputedSeeds
    {
      Ring(Slots(precomputedSeeds[..], 0, maxSeeds, seedSize), readSlot, writeSlot, availableSeeds)
    }

    /** The tuple that belongs to a seed: its mask looked up behind the own chunk. */
    ghost function TupleOf(window: seq<Table>, seed: seq<byte>): (t: seq<byte>)
      requires c.Valid() && id < c.servers && |window| == WindowGroups(c, id) && Wide(window, size)
      ensures |t| == |seed| + size
    {
      seed + Answer(window[c.Size(id)..], expand(seed, c.MaskLength(id)), size)
    }

    ghost function TuplesOf(window: seq<Table>, seeds: seq<seq<byte>>): (r: seq<seq<byte>>)
      requires c.Valid() && id < c.servers && |window| == WindowGroups(c, id) && Wide(window, size)
      ensures |r| == |seeds|
    {
      seq(|seeds|, n requires 0 <= n < |seeds| => TupleOf(window, seeds[n]))
    }

    /** How many mask bytes a seed expands to, summed chunk by chunk around the ring. */
    method GroupsToGenerate() returns (groupsToGenerate: nat)
      requires Loaded()
      ensures groupsToGenerate == c.MaskLength(id)
    {
      groupsToGenerate := 0;
      for i := 1 to c.chunks
        invariant groupsToGenerate == TailGroups(c, id, i)
      {
        var currentindex := (id + i) % |chunksGroupsMap|;
        groupsToGenerate := groupsToGenerate + chunksGroupsMap[currentindex];
      }
      TailGroupsParts(c, id, c.chunks);
    }

    /** Bytes of the query this server receives: one per group of its own chunk. */
    method GetQuerySize() returns (n: nat)
      requires Loaded()
      ensures n == c.Size(id)
    {
      n := chunksGroupsMap[id] * 8 / 8;
    }

    constructor (c: Config, id: nat, file: FileReader, size: nat, seedBytes: nat, feSize: nat, maxSeeds: nat, expand: Expander)
      requires c.Valid() && id < c.servers && maxSeeds > 0 && seedBytes > 0
      requires IsDatabaseFile(file.data, feSize, c.groups, size) && file.pos == 0
      modifies file
      ensures this.c == c && this.id == id && this.size == size && this.seedBytes == seedBytes
      ensures this.maxSeeds == maxSeeds && this.expand == expand
      ensures serverKey == file.data[1 + feSize..1 + 2 * feSize]
      ensures fresh(db) && fresh(precomputedSeeds) && Valid()
      ensures Tables() == Window(c, FileTables(file.data, feSize, c.groups, size), id, c.chunks)
      ensures Pool().Live() == []
    {
      hide Groups, Slots, Window, Offset, WindowGroups, Wide, Config.Size;
      var sizes := ChunkMap(c);
      var loaded, key := ReadDB(file, c, id, sizes, size, feSize);
      this.c, this.id, this.size, this.seedBytes := c, id, size, seedBytes;
      this.seedSize, this.maxSeeds, this.expand := size + seedBytes, maxSeeds, expand;
      serverKey := key[..];
      chunksGroupsMap, db := sizes, loaded;
      precomputedSeeds := new byte[Offset(maxSeeds, size + seedBytes)](_ => 0);
      availableSeeds, currentSeed, currentPreSeed := 0, 0, 0;
      readSlot, writeSlot := 0, 0;
      new;
      OffsetNext(0, seedSize);
    }

    /** Advances a position in the pool by one tuple, back to the front at the end. */
    method Advance(p: nat, ghost slot: nat) returns (p': nat)
      requires Valid() && slot < maxSeeds && p == Offset(slot, seedSize)
      ensures p' == Offset(Pool().Next(slot), seedSize)
    {
      hide Offset, Slots;
      p' := p + seedSize;
      OffsetNext(slot, seedSize);
      if slot + 1 < maxSeeds {
        SlotFits(slot + 1, maxSeeds, seedSize);
      }
      if p' == Offset(maxSeeds, seedSize) {
        p' := 0;
      }
    }

    /** Looks the mask of a seed up behind the own chunk, into a zeroed block. */
    method ComputeValue(seed: seq<byte>) returns (dest: array<byte>)
      requires Loaded() && |seed| == seedBytes
      ensures fresh(dest) && dest.Length == size
      ensures seed + dest[..] == TupleOf(Tables(), seed)
    {
      hide Offset, Groups, Lookup, XorBytes, Splice, Rect, Config.MaskLength, Config.Size;
      var bytesToGenerate := GroupsToGenerate();
      var mask := expand(seed, bytesToGenerate);
      var query := new byte[bytesToGenerate](i requires 0 <= i < bytesToGenerate => mask[i]);
      dest := new byte[size](_ => 0);
      var dbStartingPoint := Offset(chunksGroupsMap[id], Offset(256, size));
      TailTables(db[..], c.Size(id), WindowGroups(c, id), size);
      assert dest[0..size] == Zeros(size) && query[0..bytesToGenerate] == mask;
      ghost var value := Answer(Tables()[c.Size(id)..], mask, size);
      SpliceAll(dest[..], value);
      FastXor(dest, 0, db, dbStartingPoint, query, 0, bytesToGenerate, size);
      assert dest[..] == value;
    }

    /** Copies a seed and its value into the pool. */
    method StoreTuple(p: nat, seed: seq<byte>, dest: array<byte>)
      requires p + |seed| + dest.Length <= precomputedSeeds.Length && dest != precomputedSeeds
      modifies precomputedSeeds
      ensures precomputedSeeds[..] == Splice(old(precomputedSeeds[..]), p, seed + dest[..])
    {
      ghost var was := precomputedSeeds[..];
      forall k | p <= k < p + |seed| {
        precomputedSeeds[k] := seed[k - p];
      }
      forall k | p + |seed| <= k < p + |seed| + dest.Length {
        precomputedSeeds[k] := dest[k - p - |seed|];
      }
      assert precomputedSeeds[..] == Splice(was, p, seed + dest[..]);
    }

    /** The body of the precomputation loop, the part under the lock: computes the tuple
        of a fresh seed and appends it to the pool. */
    method PrecomputeOne(seed: seq<byte>)
      requires Valid() && |seed| == seedBytes && availableSeeds < maxSeeds
      modifies this`availableSeeds, this`currentPreSeed, this`writeSlot, precomputedSeeds
      ensures Valid() && Tables() == old(Tables())
      ensures Pool() == old(Pool()).Put(TupleOf(Tables(), seed))
    {
      hide Offset, Groups, Slots, Answer, Splice;
      var dest := ComputeValue(seed);
      ghost var ring, tuple := Pool(), TupleOf(Tables(), seed);
      ring.PutLive(tuple);
      SlotFits(writeSlot, maxSeeds, seedSize);
      SlotUpdate(precomputedSeeds[..], maxSeeds, writeSlot, tuple);
      StoreTuple(currentPreSeed, seed, dest);
      assert Pool().slots == ring.slots[writeSlot := tuple];
      var next := Advance(currentPreSeed, writeSlot);
      availableSeeds := availableSeeds + 1;
      currentPreSeed := next;
      writeSlot := ring.Next(writeSlot);
      assert Pool() == ring.Put(tuple);
    }

    /** The producer run on its own: fills the pool with the tuples of the seeds drawn. */
    method Precompute(seeds: seq<seq<byte>>)
      requires Valid() && |seeds| == maxSeeds - availableSeeds
      requires forall n :: 0 <= n < |seeds| ==> |seeds[n]| == seedBytes
      modifies this`availableSeeds, this`currentPreSeed, this`writeSlot, precomputedSeeds
      ensures Valid() && Tables() == old(Tables()) && availableSeeds == maxSeeds
      ensures Pool().Live() == old(Pool().Live()) + TuplesOf(Tables(), seeds)
    {
      hide Offset, Groups, Slots, Answer, Lookup, Ring.Live;
      ghost var live, window := Pool().Live(), Tables();
      ghost var n := 0;
      while availableSeeds < maxSeeds
        invariant Valid() && Tables() == window
        invariant 0 <= n <= |seeds| && n + maxSeeds == |seeds| + availableSeeds
        invariant Pool().Live() == live + TuplesOf(window, seeds)[..n]
        decreases maxSeeds - availableSeeds
      {
        var seed := seeds[|seeds| - (maxSeeds - availableSeeds)];
        Pool().PutLive(TupleOf(window, seed));
        PrecomputeOne(seed);
        ghost var tuples := TuplesOf(window, seeds);
        assert tuples[..n + 1] == tuples[..n] + [TupleOf(window, seed)];
        n := n + 1;
      }
      assert TuplesOf(window, seeds)[..n] == TuplesOf(window, seeds);
    }

    /** Hands out the oldest tuple, the part under the lock; the caller has waited until
        the pool is not empty. */
    method NextSeed(seed: array<byte>, at: nat)
      requires Valid() && availableSeeds > 0
      requires at + seedSize <= seed.Length && seed != precomputedSeeds && seed != db
      modifies this`availableSeeds, this`currentSeed, this`readSlot, seed
      ensures Valid() && Tables() == old(Tables())
      ensures Pool() == old(Pool()).Take()
      ensures at + seedSize <= seed.Length
      ensures seed[at..at + seedSize] == old(Pool().Live()[0])
      ensures forall k :: 0 <= k < seed.Length && !(at <= k < at + seedSize) ==> seed[k] == old(seed[k])
    {
      hide Offset, Groups, Slots, Ring.Live;
      ghost var ring, window := Pool(), db[..];
      ring.TakeLive();
      assert ring.Live()[0] == ring.slots[readSlot];
      SlotAt(precomputedSeeds[..], maxSeeds, readSlot, seedSize);
      forall k | at <= k < at + seedSize {
        seed[k] := precomputedSeeds[currentSeed + k - at];
      }
      assert seed[at..at + seedSize] == precomputedSeeds[currentSeed..currentSeed + seedSize];
      var next := Advance(currentSeed, readSlot);
      availableSeeds := availableSeeds - 1;
      currentSeed := next;
      readSlot := ring.Next(readSlot);
      assert Pool() == ring.Take();
      assert db[..] == window;
    }

    /** Answers a query in place on the value of the tuple handed out. */
    method Execute(dest: array<byte>, d: nat, query: array<byte>)
      requires Loaded() && d + size <= dest.Length && c.Size(id) <= query.Length
      requires dest != db && dest != query
      modifies dest
      ensures dest[..] == Splice(old(dest[..]), d,
        Lookup(old(dest[d..d + size]), Tables()[..c.Size(id)], query[..c.Size(id)]))
    {
      hide Offset, Groups, Lookup, Splice;
      GroupsFrom(db[..], 0, WindowGroups(c, id), 0, c.Size(id), 256, size);
      OffsetNext(0, Offset(256, size));
      assert query[0..c.Size(id)] == query[..c.Size(id)];
      FastXor(dest, d, db, 0, query, 0, chunksGroupsMap[id], size);
    }

    /** All groups of the window, summed chunk by chunk around the ring. */
    method GroupsInWindow() returns (groups: nat)
      requires Loaded()
      ensures groups == WindowGroups(c, id)
    {
      hide Config.Size;
      groups := 0;
      for i := 0 to c.chunks
        invariant groups == if i == 0 then 0 else c.Size(id) + TailGroups(c, id, i)
      {
        if i == 0 { Wrap(id, c.servers); }
        groups := groups + chunksGroupsMap[(id + i) % c.servers];
      }
      TailGroupsParts(c, id, c.chunks);
    }

    /** The form without precomputation: one lookup over the whole window. It is defined if
        the query has a byte for every group of the window; its caller passes one for every
        group of the own chunk. */
    method ExecuteOriginal(dest: array<byte>, d: nat, query: array<byte>) returns (defined: bool)
      requires Loaded() && d + size <= dest.Length
      requires dest != db && dest != query
      modifies dest
      ensures defined <==> WindowGroups(c, id) <= query.Length
      ensures query.Length == c.Size(id) ==> (defined <==> c.MaskLength(id) == 0)
      ensures dest[..] == if !defined then old(dest[..]) else Splice(old(dest[..]), d,
        Lookup(old(dest[d..d + size]), Tables(), query[..WindowGroups(c, id)]))
    {
      hide Offset, Groups, Lookup, Splice;
      var groups := GroupsInWindow();
      defined := groups <= query.Length;
      if !defined {
        return;
      }
      assert query[0..groups] == query[..groups];
      FastXor(dest, d, db, 0, query, 0, groups, size);
    }
  }

  lemma TailTables(db: seq<byte>, own: nat, all: nat, size: nat)
    requires own <= all && Offset(all, Offset(256, size)) <= |db|
    ensures Offset(own, Offset(256, size)) + Offset(all - own, Offset(256, size)) <= |db|
    ensures Groups(db, Offset(own, Offset(256, size)), all - own, 256, size) == Groups(db, 0, all, 256, size)[own..]
  {
    hide Offset, Groups;
    var tables := Groups(db, 0, all, 256, size);
    GroupsFrom(db, 0, all, own, all, 256, size);
    assert tables[own..all] == tables[own..];
  }

  lemma SpliceAll(m: seq<byte>, t: seq<byte>)
    requires |m| == |t|
    ensures Splice(m, 0, t) == t
  {
  }

  lemma SlotUpdate(m: seq<byte>, n: nat, i: nat, t: seq<byte>)
    requires i < n && |m| == Offset(n, |t|)
    ensures Offset(i, |t|) + |t| <= |m|
    ensures Slots(Splice(m, Offset(i, |t|), t), 0, n, |t|) == Slots(m, 0, n, |t|)[i := t]
  {
    hide Offset;
    var size := |t|;
    SlotFits(i, n, size);
    var m' := Splice(m, Offset(i, size), t);
    SpliceTwice(m, Offset(i, size), t, t);
    forall j | 0 <= j < n ensures Slots(m', 0, n, size)[j] == Slots(m, 0, n, size)[i := t][j] {
      SlotFits(j, n, size);
      if j != i {
        SlotsApart(i, j, size);
        SliceSame(m, m', Offset(j, size), Offset(j, size) + size);
      }
    }
  }
}
