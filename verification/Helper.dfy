/** The in-place exclusive-or routines: one block, one query over a flat database, a
    tree reduction over partial results, and the split over threads. A pointer is an
    array together with a position in it. */
module Helper {
  import opened ByteStrings
  import opened Tables
  import opened Layout
  import Protocol

  // ----- memory seen as blocks and as tables

  /** Block i of the blocks of the given size that begin at `at`. */
  function Slot(m: seq<byte>, at: nat, i: nat, size: nat): (r: Block)
    requires at + Offset(i, size) + size <= |m|
    ensures |r| == size
  {
    m[at + Offset(i, size)..at + Offset(i, size) + size]
  }

  function Slots(m: seq<byte>, at: nat, n: nat, size: nat): (r: seq<Block>)
    requires at + Offset(n, size) <= |m|
    ensures |r| == n && Rect(r, size)
  {
    seq(n, i requires 0 <= i < n => SlotFits(i, n, size); Slot(m, at, i, size))
  }

  lemma SlotFits(i: nat, n: nat, size: nat)
    requires i < n
    ensures Offset(i, size) + size <= Offset(n, size)
  {
    assert Offset(n, size) == Offset(i, size) + size + Offset(n - i - 1, size);
  }

  /** Table g of the tables with `codes` entries that begin at `at`. */
  function TableAt(m: seq<byte>, at: nat, g: nat, codes: nat, size: nat): (t: Table)
    requires at + Offset(g, Offset(codes, size)) + Offset(codes, size) <= |m|
    ensures |t| == codes && Rect(t, size)
  {
    Slots(m, at + Offset(g, Offset(codes, size)), codes, size)
  }

  function Groups(m: seq<byte>, at: nat, n: nat, codes: nat, size: nat): (r: seq<Table>)
    requires at + Offset(n, Offset(codes, size)) <= |m|
    ensures |r| == n
    ensures codes == 256 ==> Wide(r, size)
  {
    seq(n, g requires 0 <= g < n => SlotFits(g, n, Offset(codes, size)); TableAt(m, at, g, codes, size))
  }

  lemma OffsetNext(i: nat, w: nat)
    ensures Offset(0, w) == 0 && Offset(1, w) == w
    ensures Offset(i + 1, w) == Offset(i, w) + w
  {
  }

  lemma Scaled(a: nat, b: nat, w: nat)
    ensures Offset(a + b, w) == Offset(a, w) + Offset(b, w)
  {
  }

  lemma SlotsApart(i: nat, j: nat, size: nat)
    requires i != j
    ensures Offset(i, size) + size <= Offset(j, size) || Offset(j, size) + size <= Offset(i, size)
  {
    if i < j {
      Scaled(i, j - i, size);
      SlotFits(0, j - i, size);
    } else {
      Scaled(j, i - j, size);
      SlotFits(0, i - j, size);
    }
  }

  lemma SlotAt(m: seq<byte>, n: nat, i: nat, size: nat)
    requires i < n && |m| == Offset(n, size)
    ensures Offset(i, size) + size <= |m|
    ensures Slots(m, 0, n, size)[i] == m[Offset(i, size)..Offset(i, size) + size]
  {
    SlotFits(i, n, size);
  }

  lemma GroupsFrom(m: seq<byte>, at: nat, n: nat, a: nat, b: nat, codes: nat, size: nat)
    requires at + Offset(n, Offset(codes, size)) <= |m| && a <= b <= n
    ensures at + Offset(a, Offset(codes, size)) + Offset(b - a, Offset(codes, size)) <= |m|
    ensures Groups(m, at + Offset(a, Offset(codes, size)), b - a, codes, size) == Groups(m, at, n, codes, size)[a..b]
  {
    var w := Offset(codes, size);
    Scaled(a, b - a, w);
    Scaled(b, n - b, w);
    var part, all := Groups(m, at + Offset(a, w), b - a, codes, size), Groups(m, at, n, codes, size);
    forall g | 0 <= g < b - a ensures part[g] == all[a..b][g] {
      Scaled(a, g, w);
      SlotFits(a + g, n, w);
      assert part[g] == TableAt(m, at + Offset(a + g, w) - Offset(g, w), g, codes, size);
      assert all[a + g] == TableAt(m, at, a + g, codes, size);
    }
  }

  lemma SlotsEqual(m: seq<byte>, a: nat, m': seq<byte>, b: nat, n: nat, size: nat)
    requires a + Offset(n, size) <= |m| && b + Offset(n, size) <= |m'|
    requires m[a..a + Offset(n, size)] == m'[b..b + Offset(n, size)]
    ensures Slots(m, a, n, size) == Slots(m', b, n, size)
  {
    hide Offset;
    forall v | 0 <= v < n ensures Slots(m, a, n, size)[v] == Slots(m', b, n, size)[v] {
      SlotFits(v, n, size);
      SliceOfEqual(m, a, m', b, Offset(n, size), Offset(v, size), size);
    }
  }

  /** Equal stretches of memory hold equal tables. */
  lemma GroupsSame(m: seq<byte>, a: nat, m': seq<byte>, b: nat, n: nat, size: nat)
    requires a + Offset(n, Offset(256, size)) <= |m| && b + Offset(n, Offset(256, size)) <= |m'|
    requires m[a..a + Offset(n, Offset(256, size))] == m'[b..b + Offset(n, Offset(256, size))]
    ensures Groups(m, a, n, 256, size) == Groups(m', b, n, 256, size)
  {
    hide Offset, Slots;
    var w := Offset(256, size);
    forall g | 0 <= g < n ensures Groups(m, a, n, 256, size)[g] == Groups(m', b, n, 256, size)[g] {
      SlotFits(g, n, w);
      SliceOfEqual(m, a, m', b, Offset(n, w), Offset(g, w), w);
      SlotsEqual(m, a + Offset(g, w), m', b + Offset(g, w), 256, size);
    }
  }

  // ----- one block

  /** dest ^= data over one block: full 32-byte lanes first, then the rest bytewise. */
  method XorFullBlocks(dest: array<byte>, d: nat, data: array<byte>, s: nat, size: nat)
    requires d + size <= dest.Length && s + size <= data.Length
    requires dest == data ==> d + size <= s || s + size <= d
    modifies dest
    ensures dest[..] == XorInto(old(dest[..]), d, old(data[s..s + size]))
  {
    hide XorByte, XorBytes, Splice;
    ghost var was := dest[..];
    ghost var goal := XorInto(was, d, data[s..s + size]);
    var lane := 0;
    while lane < size / 32
      invariant lane <= size / 32
      invariant forall k :: 0 <= k < dest.Length ==> dest[k] == if d <= k < d + 32 * lane then goal[k] else was[k]
    {
      forall k | d + 32 * lane <= k < d + 32 * lane + 32 {
        dest[k] := XorByte(dest[k], data[k - d + s]);
      }
      lane := lane + 1;
    }
    var i := (size / 32) * 32;
    while i < size
      invariant i <= size
      invariant forall k :: 0 <= k < dest.Length ==> dest[k] == if d <= k < d + i then goal[k] else was[k]
    {
      dest[d + i] := XorByte(dest[d + i], data[s + i]);
      i := i + 1;
    }
    assert dest[..] == goal;
  }

  /** dest ^= data over any number of bytes of two different buffers. */
  method XorBytesInto(dest: array<byte>, d: nat, data: array<byte>, s: nat, bytes: nat)
    requires d + bytes <= dest.Length && s + bytes <= data.Length && dest != data
    modifies dest
    ensures dest[..] == XorInto(old(dest[..]), d, data[s..s + bytes])
  {
    hide XorByte, XorBytes, Splice;
    ghost var was := dest[..];
    ghost var goal := XorInto(was, d, data[s..s + bytes]);
    for i := 0 to bytes
      invariant forall k :: 0 <= k < dest.Length ==> dest[k] == if d <= k < d + i then goal[k] else was[k]
    {
      dest[d + i] := XorByte(dest[d + i], data[s + i]);
    }
    assert dest[..] == goal;
  }

  // ----- one query

  /** Exclusive-ors into dest, group by group, the table entry each query byte names. */
  method FastXor(dest: array<byte>, d: nat, data: array<byte>, base: nat, query: array<byte>, q: nat, groups: nat, size: nat)
    requires d + size <= dest.Length && base + Offset(groups, Offset(256, size)) <= data.Length && q + groups <= query.Length
    requires dest != data && dest != query
    modifies dest
    ensures dest[..] == Splice(old(dest[..]), d,
      Lookup(old(dest[d..d + size]), Groups(data[..], base, groups, 256, size), query[q..q + groups]))
  {
    hide Offset, Groups, Splice, XorInto, XorBytes, Lookup, Rect;
    SpliceNothing(dest[..], d, size);
    ghost var was, src := dest[..], data[..];
    ghost var start, tables, bytes := was[d..d + size], Groups(src, base, groups, 256, size), query[q..q + groups];
    ghost var acc := start;
    OffsetNext(0, Offset(256, size));
    LookupNone(start, tables[..0], bytes[..0]);
    var offset := 0;
    for i := 0 to groups
      invariant offset == Offset(i, Offset(256, size))
      invariant data[..] == src
      invariant |acc| == size && acc == Lookup(start, tables[..i], bytes[..i])
      invariant dest[..] == Splice(was, d, acc)
    {
      var code := query[q + i];
      EntryAt(src, base, groups, i, code, size);
      var temp := offset + Offset(code, size);
      offset := offset + Offset(256, size);
      ghost var entry := data[base + temp..base + temp + size];
      XorFullBlocks(dest, d, data, base + temp, size);
      SpliceStep(was, d, acc, entry, XorBytes(acc, entry));
      LookupStep(start, tables, bytes, i);
      acc := XorBytes(acc, entry);
      OffsetNext(i, Offset(256, size));
    }
    assert tables[..groups] == tables && bytes[..groups] == bytes;
  }

  lemma EntryAt(m: seq<byte>, base: nat, n: nat, g: nat, code: byte, size: nat)
    requires base + Offset(n, Offset(256, size)) <= |m| && g < n
    ensures Offset(g, Offset(256, size)) + Offset(code, size) + size <= Offset(n, Offset(256, size))
    ensures Groups(m, base, n, 256, size)[g][code]
         == m[base + (Offset(g, Offset(256, size)) + Offset(code, size))..base + (Offset(g, Offset(256, size)) + Offset(code, size)) + size]
  {
    SlotFits(g, n, Offset(256, size));
    SlotFits(code, 256, size);
    assert Groups(m, base, n, 256, size)[g] == TableAt(m, base, g, 256, size);
  }

  // ----- reducing partial results, and splitting a query over threads

  lemma SlotsSplit(m: seq<byte>, at: nat, n: nat, a: nat, size: nat)
    requires at + Offset(n, size) <= |m| && a <= n
    ensures at + Offset(a, size) <= |m| && at + Offset(a, size) + Offset(n - a, size) == at + Offset(n, size)
    ensures Slots(m, at, n, size) == Slots(m, at, a, size) + Slots(m, at + Offset(a, size), n - a, size)
  {
    Scaled(a, n - a, size);
    var all, right := Slots(m, at, n, size), Slots(m, at + Offset(a, size), n - a, size);
    forall i | 0 <= i < n - a ensures all[a + i] == right[i] {
      Scaled(a, i, size);
      SlotFits(a + i, n, size);
      SlotFits(i, n - a, size);
      assert right[i] == Slot(m, at + Offset(a + i, size) - Offset(i, size), i, size);
    }
    forall i | 0 <= i < a ensures all[i] == Slots(m, at, a, size)[i] {
      SlotFits(i, a, size);
      SlotFits(i, n, size);
    }
  }

  /** Slots depend only on the stretch of memory they cover. */
  lemma SlotsSame(m: seq<byte>, m': seq<byte>, at: nat, n: nat, size: nat)
    requires at + Offset(n, size) <= |m| && at + Offset(n, size) <= |m'|
    requires forall k :: at <= k < at + Offset(n, size) ==> m[k] == m'[k]
    ensures Slots(m, at, n, size) == Slots(m', at, n, size)
  {
    forall i | 0 <= i < n ensures Slots(m, at, n, size)[i] == Slots(m', at, n, size)[i] {
      SlotFits(i, n, size);
      SliceSame(m, m', at + Offset(i, size), at + Offset(i, size) + size);
    }
  }

  lemma SumSplit(m: seq<byte>, at: nat, n: nat, a: nat, size: nat)
    requires at + Offset(n, size) <= |m| && a <= n
    ensures at + Offset(a, size) <= |m| && at + Offset(a, size) + Offset(n - a, size) == at + Offset(n, size)
    ensures XorSum(Slots(m, at, n, size), size)
         == XorBytes(XorSum(Slots(m, at, a, size), size), XorSum(Slots(m, at + Offset(a, size), n - a, size), size))
  {
    SlotsSplit(m, at, n, a, size);
    SumConcat(Slots(m, at, a, size), Slots(m, at + Offset(a, size), n - a, size), size);
  }

  lemma SumSingle(m: seq<byte>, at: nat, size: nat)
    requires at + size <= |m|
    ensures at + Offset(1, size) == at + size
    ensures XorSum(Slots(m, at, 1, size), size) == m[at..at + size]
  {
    SumAppend([], m[at..at + size], size);
    assert Slots(m, at, 1, size) == [] + [m[at..at + size]];
    BytesZero(m[at..at + size]);
  }

  lemma SumTwo(m: seq<byte>, at: nat, size: nat)
    requires at + Offset(2, size) <= |m|
    ensures Offset(2, size) == 2 * size
    ensures XorSum(Slots(m, at, 2, size), size) == XorBytes(m[at..at + size], m[at + size..at + 2 * size])
  {
    hide Slots, XorSum, XorBytes;
    SumSplit(m, at, 2, 1, size);
    SumSingle(m, at, size);
    SumSingle(m, at + size, size);
  }

  lemma SumThree(m: seq<byte>, at: nat, size: nat)
    requires at + Offset(3, size) <= |m|
    ensures Offset(3, size) == 3 * size
    ensures XorSum(Slots(m, at, 3, size), size)
         == XorBytes(XorBytes(m[at..at + size], m[at + size..at + 2 * size]), m[at + 2 * size..at + 3 * size])
  {
    hide Slots, XorSum, XorBytes;
    SumSplit(m, at, 3, 2, size);
    SumTwo(m, at, size);
    SumSingle(m, at + 2 * size, size);
  }

  /** XorFullBlocks within one buffer, seen from the two blocks it works on. */
  method XorSlots(mem: array<byte>, at: nat, from: nat, size: nat)
    requires at + size <= from && from + size <= mem.Length
    modifies mem
    ensures mem[at..at + size] == XorBytes(old(mem[at..at + size]), old(mem[from..from + size]))
    ensures forall k :: 0 <= k < mem.Length && !(at <= k < at + size) ==> mem[k] == old(mem[k])
  {
    ghost var was := mem[..];
    ghost var block := was[from..from + size];
    XorFullBlocks(mem, at, mem, from, size);
    XorIntoRead(was, at, block);
    assert forall k :: 0 <= k < mem.Length ==> mem[k] == mem[..][k];
  }

  method CombineThree(mem: array<byte>, at: nat, size: nat)
    requires at + 3 * size <= mem.Length
    modifies mem
    ensures mem[at..at + size]
         == XorBytes(XorBytes(old(mem[at..at + size]), old(mem[at + size..at + 2 * size])), old(mem[at + 2 * size..at + 3 * size]))
    ensures forall k :: 0 <= k < mem.Length && !(at <= k < at + size) ==> mem[k] == old(mem[k])
  {
    hide XorBytes;
    ghost var was := mem[..];
    XorSlots(mem, at, at + size, size);
    SliceSame(was, mem[..], at + 2 * size, at + 3 * size);
    XorSlots(mem, at, at + 2 * size, size);
  }

  /** The branch of the reduction for two or three blocks. */
  method CombineSmall(mem: array<byte>, at: nat, entries: nat, size: nat)
    requires 2 <= entries <= 3 && at + Offset(entries, size) <= mem.Length
    modifies mem
    ensures mem[at..at + size] == XorSum(old(Slots(mem[..], at, entries, size)), size)
    ensures forall k :: 0 <= k < mem.Length && !(at <= k < at + Offset(entries, size)) ==> mem[k] == old(mem[k])
  {
    hide Offset, Slots, XorSum, XorBytes;
    if entries == 3 {
      SumThree(mem[..], at, size);
      CombineThree(mem, at, size);
    } else {
      SumTwo(mem[..], at, size);
      XorSlots(mem, at, at + size, size);
    }
  }

  /** Reduces the blocks from `at` on into the first of them, recursively by halves. The
      branch for fewer than four blocks is guarded by an unsigned comparison with zero;
      takeSmall says whether it is taken or, as that comparison evaluates, skipped. */
  method CombineDest(mem: array<byte>, at: nat, entries: nat, size: nat, takeSmall: bool)
    requires 1 <= entries && at + Offset(entries, size) <= mem.Length
    modifies mem
    ensures at + size <= mem.Length
    ensures mem[at..at + size] == XorSum(old(Slots(mem[..], at, entries, size)), size)
    ensures forall k :: 0 <= k < mem.Length && !(at <= k < at + Offset(entries, size)) ==> mem[k] == old(mem[k])
    decreases entries
  {
    hide Offset, Slots, XorSum;
    ghost var was := mem[..];
    SlotFits(0, entries, size);
    if entries == 1 {
      SumSingle(was, at, size);
      return;
    } else if takeSmall && entries < 4 {
      CombineSmall(mem, at, entries, size);
      return;
    }
    var left := entries / 2;
    var right := entries - left;
    var rightData := at + Offset(left, size);
    ghost var end := at + Offset(entries, size);
    SumSplit(was, at, entries, left, size);
    SlotFits(0, left, size);
    SlotFits(0, right, size);
    assert at + size <= rightData && rightData + size <= end && rightData + Offset(right, size) == end;
    ghost var l := XorSum(Slots(was, at, left, size), size);
    ghost var r := XorSum(Slots(was, rightData, right, size), size);
    assert XorSum(Slots(was, at, entries, size), size) == XorBytes(l, r);

    CombineDest(mem, at, left, size, takeSmall);
    assert mem[at..at + size] == l;
    SlotsSame(was, mem[..], rightData, right, size);
    ghost var mid := mem[..];

    CombineDest(mem, rightData, right, size, takeSmall);
    assert mem[rightData..rightData + size] == r;
    assert mem[at..at + size] == l by { SliceSame(mid, mem[..], at, at + size); }

    XorSlots(mem, at, rightData, size);
  }

  lemma SlotsAppend(m: seq<byte>, i: nat, n: nat, t: Block)
    requires i < n && |m| == Offset(n, |t|)
    ensures Offset(i, |t|) + |t| <= |m| && Offset(i + 1, |t|) <= |m|
    ensures Slots(Splice(m, Offset(i, |t|), t), 0, i + 1, |t|) == Slots(m, 0, i, |t|) + [t]
  {
    var size := |t|;
    SlotFits(i, n, size);
    Scaled(i, 1, size);
    var m' := Splice(m, Offset(i, size), t);
    SlotsSplit(m', 0, i + 1, i, size);
    SlotsSame(m, m', 0, i, size);
    SpliceTwice(m, Offset(i, size), t, t);
    assert Slots(m', Offset(i, size), 1, size) == [t];
  }

  /** Thread i's share of the query over its share of the groups. */
  lemma ShareOfThread(c: Config, data: seq<byte>, base: nat, query: seq<byte>, i: nat, first: nat, total: nat, size: nat)
    requires c.Valid() && i < c.servers && base + Offset(c.groups, Offset(256, size)) <= |data| && |query| == c.groups
    requires first == c.Start(i) && total == c.Size(i)
    ensures first + total <= c.groups
    ensures base + Offset(first, Offset(256, size)) + Offset(total, Offset(256, size)) <= |data|
    ensures Lookup(Zeros(size), Groups(data, base + Offset(first, Offset(256, size)), total, 256, size), query[first..first + total])
         == Protocol.Online(c, Groups(data, base, c.groups, 256, size), i, query, size)
  {
    hide Offset, Groups, Rect, Wide, Lookup, XorBytes, Config.Start, Config.Size;
    c.StartTotal();
    c.StartNext(i);
    c.StartMonotone(i + 1, c.servers);
    GroupsFrom(data, base, c.groups, first, first + total, 256, size);
    var tables := Groups(data, base, c.groups, 256, size);
    assert Chunk(c, tables, i) == tables[first..first + total] && Chunk(c, query, i) == query[first..first + total];
  }

  /** Thread i of completexor: reduces its share into its own, still zero, block. */
  method RunShare(results: array<byte>, i: nat, data: array<byte>, base: nat, query: array<byte>, q: nat,
                  ghost c: Config, first: nat, total: nat, size: nat)
    requires c.Valid() && i < c.servers && first == c.Start(i) && total == c.Size(i)
    requires base + Offset(c.groups, Offset(256, size)) <= data.Length && q + c.groups <= query.Length
    requires results != data && results != query && results.Length == Offset(c.servers, size)
    requires forall k :: Offset(i, size) <= k < results.Length ==> results[k] == 0
    modifies results
    ensures Offset(i, size) + size <= results.Length
    ensures results[..] == Splice(old(results[..]), Offset(i, size),
      Protocol.Online(c, Groups(data[..], base, c.groups, 256, size), i, query[q..q + c.groups], size))
  {
    hide Offset, Groups, Rect, Wide, Lookup, Answer;
    var at, skip := Offset(i, size), base + Offset(first, Offset(256, size));
    ShareOfThread(c, data[..], base, query[q..q + c.groups], i, first, total, size);
    SlotFits(i, c.servers, size);
    assert results[at..at + size] == Zeros(size);
    SliceOfSlice(query[..], q, c.groups, first, first + total);
    assert query[q + first..q + first + total] == query[..][q + first..q + (first + total)];
    assert query[q..q + c.groups] == query[..][q..q + c.groups];
    FastXor(results, at, data, skip, query, q + first, total, size);
  }

  /** What the first i threads leave in their blocks. */
  ghost predicate SharesDone(results: seq<byte>, i: nat, c: Config, tables: seq<Table>, query: seq<byte>, size: nat)
    requires c.Valid() && |tables| == |query| == c.groups && Wide(tables, size)
  {
    && |results| == Offset(c.servers, size)
    && i <= c.servers && Offset(i, size) <= |results|
    && (forall j :: 0 <= j < i ==> Slots(results, 0, i, size)[j] == Protocol.Online(c, tables, j, query, size))
    && (forall k :: Offset(i, size) <= k < |results| ==> results[k] == 0)
  }

  lemma NoShares(results: seq<byte>, c: Config, tables: seq<Table>, query: seq<byte>, size: nat)
    requires c.Valid() && |tables| == |query| == c.groups && Wide(tables, size)
    requires |results| == Offset(c.servers, size) && forall k :: 0 <= k < |results| ==> results[k] == 0
    ensures SharesDone(results, 0, c, tables, query, size)
  {
  }

  lemma ShareLeft(results: seq<byte>, i: nat, c: Config, tables: seq<Table>, query: seq<byte>, size: nat)
    requires c.Valid() && |tables| == |query| == c.groups && Wide(tables, size)
    requires SharesDone(results, i, c, tables, query, size)
    ensures forall k :: Offset(i, size) <= k < |results| ==> results[k] == 0
  {
  }

  lemma ShareDone(results: seq<byte>, i: nat, c: Config, tables: seq<Table>, query: seq<byte>, size: nat)
    requires c.Valid() && |tables| == |query| == c.groups && Wide(tables, size) && i < c.servers
    requires SharesDone(results, i, c, tables, query, size)
    ensures Offset(i, size) + size <= |results|
    ensures SharesDone(Splice(results, Offset(i, size), Protocol.Online(c, tables, i, query, size)), i + 1, c, tables, query, size)
  {
    var part := Protocol.Online(c, tables, i, query, size);
    SlotsAppend(results, i, c.servers, part);
    Scaled(i, 1, size);
    var done := Splice(results, Offset(i, size), part);
    assert forall k :: Offset(i + 1, size) <= k < |results| ==> done[k] == results[k];
  }

  lemma SharesSum(results: seq<byte>, c: Config, tables: seq<Table>, query: seq<byte>, size: nat)
    requires c.Valid() && |tables| == |query| == c.groups && Wide(tables, size)
    requires SharesDone(results, c.servers, c, tables, query, size)
    ensures XorSum(Slots(results, 0, c.servers, size), size) == Answer(tables, query, size)
  {
    Protocol.SumOfChunks(c, tables, query, Slots(results, 0, c.servers, size), c.servers, size);
    c.StartTotal();
    assert tables[..c.groups] == tables && query[..c.groups] == query;
  }

  /** All threads of completexor: afterwards the blocks sum to the answer of the query. */
  method RunShares(results: array<byte>, data: array<byte>, base: nat, query: array<byte>, q: nat, groups: nat,
                   size: nat, numThreads: nat)
    requires base + Offset(groups, Offset(256, size)) <= data.Length && q + groups <= query.Length
    requires results != data && results != query && 1 <= numThreads && results.Length == Offset(numThreads, size)
    requires forall k :: 0 <= k < results.Length ==> results[k] == 0
    modifies results
    ensures XorSum(Slots(results[..], 0, numThreads, size), size)
         == Answer(Groups(data[..], base, groups, 256, size), query[q..q + groups], size)
  {
    hide Offset, Groups, Lookup, XorSum, XorBytes, Protocol.Online, SharesDone, Config.Start;
    ghost var c, src, bytes := Config(groups, numThreads, 1), data[..], query[q..q + groups];
    ghost var tables := Groups(src, base, groups, 256, size);
    var groupsPerThread, remainingGroups := groups / numThreads, groups % numThreads;
    var currentGroup := 0;
    c.StartZero();
    NoShares(results[..], c, tables, bytes, size);
    for i := 0 to numThreads
      invariant data[..] == src && query[q..q + groups] == bytes
      invariant currentGroup == c.Start(i)
      invariant SharesDone(results[..], i, c, tables, bytes, size)
    {
      var totalGroups := groupsPerThread + if i < remainingGroups then 1 else 0;
      ghost var was, part := results[..], Protocol.Online(c, tables, i, bytes, size);
      c.StartNext(i);
      ShareDone(was, i, c, tables, bytes, size);
      ShareLeft(was, i, c, tables, bytes, size);
      RunShare(results, i, data, base, query, q, c, currentGroup, totalGroups, size);
      assert results[..] == Splice(was, Offset(i, size), part);
      currentGroup := currentGroup + totalGroups;
    }
    SharesSum(results[..], c, tables, bytes, size);
  }

  /** Copies the first n bytes of one buffer into another. */
  method CopyInto(dest: array<byte>, d: nat, from: array<byte>, n: nat)
    requires d + n <= dest.Length && n <= from.Length && dest != from
    modifies dest
    ensures dest[..] == Splice(old(dest[..]), d, from[..n])
  {
    ghost var was := dest[..];
    forall k | d <= k < d + n {
      dest[k] := from[k - d];
    }
    assert dest[..] == Splice(was, d, from[..n]);
  }

  /** Splits the query over threads, each reducing its share into its own block of a
      zeroed buffer, then combines the blocks. dest is overwritten, not accumulated into.
      For no thread at all the share of a thread is a division by zero: defined is false. */
  method CompleteXor(dest: array<byte>, d: nat, data: array<byte>, base: nat, query: array<byte>, q: nat, groups: nat,
                     size: nat, numThreads: nat, takeSmall: bool) returns (defined: bool)
    requires d + size <= dest.Length && base + Offset(groups, Offset(256, size)) <= data.Length && q + groups <= query.Length
    requires dest != data && dest != query
    modifies dest
    ensures defined <==> numThreads > 0
    ensures dest[..] == if !defined then old(dest[..]) else Splice(old(dest[..]), d,
      Answer(Groups(data[..], base, groups, 256, size), query[q..q + groups], size))
  {
    hide Groups, Answer, Slots, XorSum, Splice, Offset;
    defined := numThreads > 0;
    if !defined {
      return;
    }
    ghost var was, src, bytes := dest[..], data[..], query[q..q + groups];
    ghost var goal := Answer(Groups(src, base, groups, 256, size), bytes, size);
    var results := new byte[Offset(numThreads, size)](_ => 0);
    RunShares(results, data, base, query, q, groups, size, numThreads);
    assert data[..] == src && query[q..q + groups] == bytes && dest[..] == was;
    CombineDest(results, 0, numThreads, size, takeSmall);
    assert results[0..size] == results[..size];
    assert results[..size] == goal && data[..] == src && query[q..q + groups] == bytes && dest[..] == was;
    CopyInto(dest, d, results, size);
    assert data[..] == src && query[q..q + groups] == bytes;
  }

  /** Against fastxor: the two leave the same dest exactly when dest was zero before. */
  lemma CompleteXorMatches(dest: Block, tables: seq<Table>, query: seq<byte>)
    requires Wide(tables, |dest|) && |tables| == |query|
    ensures Answer(tables, query, |dest|) == Lookup(dest, tables, query) <==> dest == Zeros(|dest|)
  {
    var a := Answer(tables, query, |dest|);
    LookupFrom(dest, tables, query);
    BytesCancel(dest, a);
    BytesSelf(a);
    BytesZero(a);
  }
}
