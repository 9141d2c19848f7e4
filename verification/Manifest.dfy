/** The manifest, a sparse index over the sorted database: its construction, the client's
    search for a block, and the scan of the block retrieved. */
module Manifest {
  import opened Bits
  import opened ByteStrings
  import opened Helper
  import opened SortedDatabase

  /** What checkHash returns; Undefined where its search reads behind the manifest. */
  datatype Outcome = Found(present: bool) | Undefined

  /** n entries of `size` bytes, blocks of `block` bytes, manifest keys of `key` bytes. */
  datatype Form = Form(n: nat, size: nat, block: nat, key: nat) {

    predicate Valid() { n > 0 && size > 0 && block > 0 && key <= size }

    /** Bytes of the database. */
    function Bytes(): (b: nat)
      requires Valid()
      ensures b > 0
    {
      SlotFits(0, n, size);
      Offset(n, size)
    }

    /** Number of blocks, the last one possibly not full. */
    function Blocks(): (b: nat)
      requires Valid()
      ensures b > 0
    {
      BlockCount(Bytes(), block)
    }

    /** Entries the client looks for in a block. */
    function PerBlock(): nat
      requires Valid()
    {
      block / size
    }

    /** Entries between two keys of the manifest. */
    function Step(): nat
      requires Valid()
    {
      Stride(n, Blocks())
    }
  }

  // ----- the index

  /** Number of blocks of d units that n units take, the last one possibly not full. */
  function BlockCount(n: nat, d: nat): (blocks: nat)
    requires d > 0
    ensures n > 0 ==> 0 < blocks <= n
  {
    var blocks := (n + d - 1) / d;
    assert n > 0 ==> 0 < blocks <= n by { if n > 0 { BlockCountIs(n, d); } }
    blocks
  }

  lemma BlockCountIs(n: nat, d: nat)
    requires n > 0 && d > 0
    ensures var blocks := (n + d - 1) / d;
      0 < blocks <= n && (blocks - 1) * d < n <= blocks * d
  {
    var q, r := (n - 1) / d, (n - 1) % d;
    assert n - 1 == q * d + r;
    assert (q + 1) * d == q * d + d;
    DivUnique(n + d - 1, d, q + 1, r);
    Times(1, d, q);
  }

  /** The entries between two keys of the manifest, as its construction divides. */
  function Stride(n: nat, blocks: nat): nat
    requires blocks > 0
  {
    n / blocks
  }

  /** The first `key` bytes of every entry. */
  function Prefixes(entries: seq<Entry>, key: nat): (r: seq<Entry>)
    requires forall i :: 0 <= i < |entries| ==> key <= |entries[i]|
    ensures |r| == |entries| && Rect(r, key)
    ensures forall i :: 0 <= i < |r| ==> r[i] == entries[i][..key]
  {
    seq(|entries|, i requires 0 <= i < |entries| => entries[i][..key])
  }

  /** The items taken into the manifest, one for every block but the first. */
  function Keys(items: seq<Entry>, blocks: nat): (keys: seq<Entry>)
    requires blocks > 0 && items != []
    ensures |keys| == blocks - 1
  {
    seq(blocks - 1, i requires 0 <= i < blocks - 1 =>
      KeyInside(i + 1, |items|, blocks); items[(i + 1) * Stride(|items|, blocks)])
  }

  lemma KeyInside(i: nat, n: nat, blocks: nat)
    requires i < blocks && n > 0
    ensures i * Stride(n, blocks) < n
  {
    var q := Stride(n, blocks);
    assert n == blocks * q + n % blocks;
    MultiplesApart(i, blocks, q);
    if q == 0 {
      assert i * q == 0;
    }
  }

  /** Copies the first bytes of the entry at every multiple of the stride into the manifest. */
  method CreateManifest(db: array<byte>, n: nat, blocks: nat, size: nat, key: nat) returns (manifest: array<byte>)
    requires Flat(db, n, size) && n > 0 && blocks > 0 && key <= size
    ensures fresh(manifest) && manifest.Length == Offset(blocks - 1, key)
    ensures Slots(manifest[..], 0, blocks - 1, key) == Keys(Prefixes(Entries(db, n, size), key), blocks)
  {
    hide Offset, Slots, Keys, Stride, Prefixes, Splice;
    manifest := new byte[Offset(blocks - 1, key)](_ => 0);
    ghost var keys := Keys(Prefixes(Entries(db, n, size), key), blocks);
    NoSlots(manifest[..], key);
    for i := 1 to blocks
      invariant Offset(i - 1, key) <= manifest.Length
      invariant Slots(manifest[..], 0, i - 1, key) == keys[..i - 1]
    {
      KeyEntry(db[..], n, blocks, size, key, i);
      SlotFits(i - 1, blocks - 1, key);
      var indexManifest := Offset(i - 1, key);
      var indexDB := Offset(i * Stride(n, blocks), size);
      ghost var was, item := manifest[..], keys[i - 1];
      SlotsAppend(was, i - 1, blocks - 1, item);
      CopyBytes(manifest, indexManifest, db, indexDB, key);
      assert manifest[..] == Splice(was, indexManifest, item);
      assert keys[..i] == keys[..i - 1] + [item];
    }
    assert keys[..blocks - 1] == keys;
  }

  /** memcpy from one buffer to another. */
  method CopyBytes(dest: array<byte>, to: nat, src: array<byte>, from: nat, n: nat)
    requires to + n <= dest.Length && from + n <= src.Length && dest != src
    modifies dest
    ensures dest[..] == Splice(old(dest[..]), to, src[from..from + n])
  {
    ghost var was := dest[..];
    forall k | to <= k < to + n {
      dest[k] := src[k - to + from];
    }
    assert dest[..] == Splice(was, to, src[from..from + n]);
  }

  lemma KeyEntry(m: seq<byte>, n: nat, blocks: nat, size: nat, key: nat, i: nat)
    requires |m| == Offset(n, size) && n > 0 && 0 < i < blocks && key <= size
    ensures i * Stride(n, blocks) < n && Offset(i * Stride(n, blocks), size) + size <= |m|
    ensures Keys(Prefixes(Slots(m, 0, n, size), key), blocks)[i - 1]
         == m[Offset(i * Stride(n, blocks), size)..Offset(i * Stride(n, blocks), size) + key]
  {
    hide Offset, Slots;
    KeyInside(i, n, blocks);
    var at, entries := Offset(i * Stride(n, blocks), size), Slots(m, 0, n, size);
    SlotAt(m, n, i * Stride(n, blocks), size);
    SliceOfSlice(m, at, size, 0, key);
    assert entries[i * Stride(n, blocks)][..key] == entries[i * Stride(n, blocks)][0..key];
  }

  lemma NoSlots(m: seq<byte>, size: nat)
    ensures Offset(0, size) == 0 && Slots(m, 0, 0, size) == []
  {
  }

  // ----- the search

  /** Position of the first key not below x; the number of keys if there is none. */
  function SearchIndex(keys: seq<Entry>, x: Entry): (i: nat)
    ensures i <= |keys|
  {
    if keys != [] && Value(keys[0]) < Value(x) then 1 + SearchIndex(keys[1..], x) else 0
  }

  lemma {:induction false} SearchIndexIs(keys: seq<Entry>, x: Entry, i: nat)
    requires i <= |keys|
    requires forall j :: 0 <= j < i ==> Value(keys[j]) < Value(x)
    requires i < |keys| ==> Value(keys[i]) >= Value(x)
    ensures SearchIndex(keys, x) == i
    decreases i
  {
    if i > 0 {
      assert Value(keys[0]) < Value(x);
      forall j | 0 <= j < i - 1 ensures Value(keys[1..][j]) < Value(x) {
        assert keys[1..][j] == keys[j + 1];
      }
      SearchIndexIs(keys[1..], x, i - 1);
    }
  }

  /** How many keys are strictly below x. */
  function CountBelow(keys: seq<Entry>, x: Entry): nat {
    if keys == [] then 0 else (if Value(keys[0]) < Value(x) then 1 else 0) + CountBelow(keys[1..], x)
  }

  lemma {:induction false} SearchCounts(keys: seq<Entry>, x: Entry)
    requires Sorted(keys, 0, |keys|)
    ensures SearchIndex(keys, x) == CountBelow(keys, x)
    decreases |keys|
  {
    if keys != [] {
      SearchCounts(keys[1..], x);
      if Value(keys[0]) >= Value(x) {
        NoneBelow(keys[1..], x);
      }
    }
  }

  lemma {:induction false} NoneBelow(keys: seq<Entry>, x: Entry)
    requires forall j :: 0 <= j < |keys| ==> Value(keys[j]) >= Value(x)
    ensures CountBelow(keys, x) == 0
    decreases |keys|
  {
    if keys != [] {
      NoneBelow(keys[1..], x);
    }
  }

  /** The client's search for the first bytes of x. It has no test for the end of the
      manifest; inside tells whether every comparison it makes reads a key. */
  method FindBlock(x: Entry, manifest: array<byte>, count: nat, key: nat) returns (index: nat, inside: bool)
    requires key <= |x| && manifest.Length == Offset(count, key)
    ensures index == SearchIndex(Slots(manifest[..], 0, count, key), x[..key])
    ensures inside <==> index < count
  {
    hide Offset, Slots, SearchIndex, Value;
    ghost var keys, front := Slots(manifest[..], 0, count, key), x[..key];
    index, inside := 0, true;
    while inside
      invariant index <= count && (!inside ==> index == count)
      invariant forall j :: 0 <= j < index ==> Value(keys[j]) < Value(front)
      decreases count - index, inside
    {
      if index == count {
        inside := false;
      } else {
        SlotFits(index, count, key);
        SlotAt(manifest[..], count, index, key);
        var at := Offset(index, key);
        MemcmpIsValueOrder(front, keys[index]);
        if Memcmp(x[..key], manifest[at..at + key]) > 0 {
          index := index + 1;
        } else {
          break;
        }
      }
    }
    SearchIndexIs(keys, front, index);
  }

  // ----- the scan

  /** What a scan for x answers that stops at the first item above x. */
  function Scans(items: seq<Entry>, x: Entry): bool {
    items != [] && (items[0] == x || (Value(items[0]) < Value(x) && Scans(items[1..], x)))
  }

  /** Some item is x, and none before it is not below x. */
  lemma {:induction false} ScansIff(items: seq<Entry>, x: Entry, size: nat)
    requires Rect(items, size) && |x| == size
    ensures Scans(items, x) <==>
      exists t :: 0 <= t < |items| && items[t] == x && forall u :: 0 <= u < t ==> Value(items[u]) < Value(x)
    decreases |items|
  {
    hide Value;
    if items != [] {
      var rest := items[1..];
      ScansIff(rest, x, size);
      if items[0] != x && Scans(items, x) {
        var t :| 0 <= t < |rest| && rest[t] == x && forall u :: 0 <= u < t ==> Value(rest[u]) < Value(x);
        assert items[t + 1] == x;
        forall u | 0 <= u < t + 1 ensures Value(items[u]) < Value(x) {
          if u > 0 { assert items[u] == rest[u - 1]; }
        }
      }
      if items[0] != x && !Scans(items, x) {
        forall t | 0 <= t < |items| && items[t] == x ensures exists u :: 0 <= u < t && Value(items[u]) >= Value(x) {
          LaterItem(items, x, t);
        }
      }
    }
  }

  lemma LaterItem(items: seq<Entry>, x: Entry, t: nat)
    requires 0 < t < |items| && items[t] == x && items[0] != x
    requires Value(items[0]) < Value(x) ==> !(forall u :: 0 <= u < t - 1 ==> Value(items[1..][u]) < Value(x))
    ensures exists u :: 0 <= u < t && Value(items[u]) >= Value(x)
  {
    hide Value;
    if Value(items[0]) < Value(x) {
      var u :| 0 <= u < t - 1 && Value(items[1..][u]) >= Value(x);
      assert items[1..][u] == items[u + 1];
    }
  }

  /** In a sorted list the scan finds what is there. */
  lemma {:induction false} SortedScan(items: seq<Entry>, x: Entry, size: nat)
    requires Rect(items, size) && |x| == size && Sorted(items, 0, |items|)
    ensures Scans(items, x) <==> x in items
    decreases |items|
  {
    hide Value;
    if items != [] {
      var rest := items[1..];
      SortedScan(rest, x, size);
      MemcmpIsValueOrder(items[0], x);
      if x in rest {
        var t :| 0 <= t < |rest| && rest[t] == x;
        assert items[t + 1] == x;
      }
    }
  }

  /** Scans the front of a block for x, stopping behind its place. */
  method ScanBlock(x: Entry, block: array<byte>, per: nat, size: nat) returns (present: bool)
    requires |x| == size && Offset(per, size) <= block.Length
    ensures present <==> Scans(Slots(block[..], 0, per, size), x)
  {
    hide Offset, Slots, Value, Scans;
    ghost var items := Slots(block[..], 0, per, size);
    assert items[0..] == items;
    for i := 0 to per
      invariant Scans(items, x) == Scans(items[i..], x)
    {
      SlotFits(i, per, size);
      SlotIs(block[..], per, i, size);
      var at := Offset(i, size);
      MemcmpIsValueOrder(x, items[i]);
      ScansNext(items, x, i);
      var j := Memcmp(x, block[at..at + size]);
      if j == 0 {
        return true;
      } else if j < 0 {
        return false;
      }
    }
    ScansNone(items[per..], x);
    return false;
  }

  lemma ScansNext(items: seq<Entry>, x: Entry, i: nat)
    requires i < |items|
    ensures Scans(items[i..], x) == (items[i] == x || (Value(items[i]) < Value(x) && Scans(items[i + 1..], x)))
  {
    assert items[i..][1..] == items[i + 1..];
  }

  lemma ScansNone(items: seq<Entry>, x: Entry)
    requires items == []
    ensures !Scans(items, x)
  {
  }

  lemma SlotIs(m: seq<byte>, n: nat, i: nat, size: nat)
    requires i < n && Offset(n, size) <= |m|
    ensures Offset(i, size) + size <= |m|
    ensures Slots(m, 0, n, size)[i] == m[Offset(i, size)..Offset(i, size) + size]
  {
    SlotFits(i, n, size);
  }

  // ----- the outcome

  /** The entries of the database at the front of m. */
  function EntriesIn(f: Form, m: seq<byte>): (r: seq<Entry>)
    requires f.Valid() && f.Bytes() <= |m|
    ensures |r| == f.n && Rect(r, f.size)
  {
    Slots(m, 0, f.n, f.size)
  }

  /** What the client scans of block b: as many entries as fit a block, from its start on. */
  function Candidates(f: Form, m: seq<byte>, b: nat): (r: seq<Entry>)
    requires f.Valid() && f.Bytes() <= |m| && b + 1 < f.Blocks()
    ensures |r| == f.PerBlock() && Rect(r, f.size)
  {
    BlockInside(b, f.Bytes(), f.block);
    PerFits(f.block, f.size);
    Slots(m, b * f.block, f.PerBlock(), f.size)
  }

  lemma PerFits(block: nat, size: nat)
    requires size > 0
    ensures Offset(block / size, size) <= block
  {
    assert block == block / size * size + block % size;
  }

  lemma BlockInside(b: nat, n: nat, d: nat)
    requires d > 0 && n > 0 && b + 1 < BlockCount(n, d)
    ensures b * d + d <= n
  {
    BlockCountIs(n, d);
    MultiplesApart(b, BlockCount(n, d) - 1, d);
  }

  /** What the search compares with. */
  function Index(f: Form, m: seq<byte>, x: Entry): nat
    requires f.Valid() && f.Bytes() <= |m| && |x| == f.size
  {
    SearchIndex(Keys(Prefixes(EntriesIn(f, m), f.key), f.Blocks()), x[..f.key])
  }

  /** What the test says of x: undefined where the search leaves the manifest, otherwise
      what the scan of the block found answers. */
  function TestOutcome(f: Form, m: seq<byte>, x: Entry): Outcome
    requires f.Valid() && f.Bytes() <= |m| && |x| == f.size
  {
    var b := Index(f, m, x);
    if b + 1 < f.Blocks() then Found(Scans(Candidates(f, m, b), x)) else Undefined
  }

  /** Nothing behind the database matters. */
  lemma OutcomeSame(f: Form, m: seq<byte>, m': seq<byte>, x: Entry)
    requires f.Valid() && |x| == f.size && f.Bytes() <= |m| && f.Bytes() <= |m'| && m[..f.Bytes()] == m'[..f.Bytes()]
    ensures EntriesIn(f, m) == EntriesIn(f, m') && TestOutcome(f, m, x) == TestOutcome(f, m', x)
  {
    hide Offset, Slots, SearchIndex, Keys, Form.Blocks, Form.PerBlock;
    forall k | 0 <= k < f.Bytes() ensures m[k] == m'[k] {
      assert m[..f.Bytes()][k] == m'[..f.Bytes()][k];
    }
    SlotsSame(m, m', 0, f.n, f.size);
    var b := Index(f, m, x);
    if b + 1 < f.Blocks() {
      SameCandidates(f, m, m', b);
    }
  }

  lemma SameCandidates(f: Form, m: seq<byte>, m': seq<byte>, b: nat)
    requires f.Valid() && f.Bytes() <= |m| && f.Bytes() <= |m'| && b + 1 < f.Blocks()
    requires forall k :: 0 <= k < f.Bytes() ==> m[k] == m'[k]
    ensures Candidates(f, m, b) == Candidates(f, m', b)
  {
    hide Offset, Slots;
    BlockInside(b, f.Bytes(), f.block);
    PerFits(f.block, f.size);
    SlotsSame(m, m', b * f.block, f.PerBlock(), f.size);
  }

  // ----- the sizes, without naming a quotient

  lemma QuotientIs(n: nat, d: nat)
    requires d > 0
    ensures d * (n / d) <= n < d * (n / d + 1)
  {
    var q := n / d;
    assert n == d * q + n % d && d * (q + 1) == d * q + d;
  }

  /** The blocks just cover the bytes, as many whole entries are scanned as fit a block, and
      the stretches between two keys, one for every block, are as long as the entries allow. */
  lemma FormSizes(f: Form)
    requires f.Valid()
    ensures (f.Blocks() - 1) * f.block < f.Bytes() <= f.Blocks() * f.block
    ensures f.size * f.PerBlock() <= f.block < f.size * (f.PerBlock() + 1)
    ensures f.Blocks() * f.Step() <= f.n < f.Blocks() * (f.Step() + 1)
  {
    hide Offset;
    BlockCountIs(f.Bytes(), f.block);
    QuotientIs(f.block, f.size);
    QuotientIs(f.n, f.Blocks());
  }

  /** Key i of the manifest is the front of the entry (i + 1) * step, where step is the
      number of entries the blocks could each hold without exceeding their number. */
  lemma KeyAt(f: Form, m: seq<byte>, step: nat, i: nat)
    requires f.Valid() && f.Bytes() <= |m| && i + 1 < f.Blocks()
    requires f.Blocks() * step <= f.n < f.Blocks() * (step + 1)
    ensures (i + 1) * step < f.n && Offset((i + 1) * step, f.size) + f.size <= |m|
    ensures Keys(Prefixes(EntriesIn(f, m), f.key), f.Blocks())[i]
         == m[Offset((i + 1) * step, f.size)..Offset((i + 1) * step, f.size) + f.key]
  {
    hide Offset, Slots, Form.Blocks;
    FormSizes(f);
    StepUnique(f.n, f.Blocks(), step, f.Step());
    KeyInside(i + 1, f.n, f.Blocks());
    var at := Offset((i + 1) * step, f.size);
    SlotIs(m, f.n, (i + 1) * step, f.size);
    SliceOfSlice(m, at, f.size, 0, f.key);
    assert m[at..at + f.size][..f.key] == m[at..at + f.size][0..f.key];
  }

  lemma StepUnique(n: nat, b: nat, s: nat, t: nat)
    requires b > 0 && b * s <= n < b * (s + 1) && b * t <= n < b * (t + 1)
    ensures s == t
  {
    assert b * (s + 1) == s * b + b && b * (t + 1) == t * b + b;
    DivUnique(n, b, s, n - s * b);
    DivUnique(n, b, t, n - t * b);
  }

  // ----- does the client find what is stored?

  /** p is the first position of x, and q the last one. */
  ghost predicate Stored(entries: seq<Entry>, x: Entry, p: nat, q: nat) {
    p <= q < |entries| && entries[p] == x == entries[q] && x !in entries[..p] && x !in entries[q + 1..]
  }

  /** In a sorted list x is at exactly the positions from the first to the last one, and what
      is strictly below it is before the first. */
  lemma StoredBetween(entries: seq<Entry>, size: nat, x: Entry, p: nat, q: nat, k: nat)
    requires Rect(entries, size) && Sorted(entries, 0, |entries|) && Stored(entries, x, p, q) && k < |entries|
    ensures Value(entries[k]) < Value(x) <==> k < p
    ensures entries[k] == x <==> p <= k <= q
  {
    hide Value;
    MemcmpIsValueOrder(entries[k], x);
    if k < p {
      assert entries[..p][k] == entries[k];
    } else if k > q {
      assert entries[q + 1..][k - q - 1] == entries[k];
    }
  }

  /** Comparison of the first bytes follows comparison of the whole. */
  lemma {:induction false} PrefixOrder(a: Entry, b: Entry, key: nat)
    requires |a| == |b| && key <= |a| && Memcmp(a, b) <= 0
    ensures Memcmp(a[..key], b[..key]) <= 0
    decreases key
  {
    if key > 0 {
      assert a[..key][1..] == a[1..][..key - 1] && b[..key][1..] == b[1..][..key - 1];
      if a[0] == b[0] {
        PrefixOrder(a[1..], b[1..], key - 1);
      }
    }
  }

  lemma PrefixesSorted(entries: seq<Entry>, size: nat, key: nat)
    requires Rect(entries, size) && key <= size && Sorted(entries, 0, |entries|)
    ensures Sorted(Prefixes(entries, key), 0, |entries|)
  {
    hide Value, Memcmp;
    var front := Prefixes(entries, key);
    forall i, j | 0 <= i < j < |entries| ensures Value(front[i]) <= Value(front[j]) {
      MemcmpIsValueOrder(entries[i], entries[j]);
      PrefixOrder(entries[i], entries[j], key);
      MemcmpIsValueOrder(front[i], front[j]);
    }
  }

  /** The block in which an entry is looked for whose first bytes first occur at position p. */
  function Sought(p: nat, stride: nat): nat
    requires stride > 0
  {
    if p == 0 then 0 else (p - 1) / stride
  }

  lemma SoughtBounds(p: nat, stride: nat, j: nat)
    requires stride > 0
    ensures (j + 1) * stride < p <==> j < Sought(p, stride)
    ensures p > 0 ==> Sought(p, stride) * stride < p <= (Sought(p, stride) + 1) * stride
  {
    var i := Sought(p, stride);
    if p > 0 {
      assert p - 1 == i * stride + (p - 1) % stride;
      assert (i + 1) * stride == i * stride + stride;
    }
    if j < i {
      Times(j + 1, i, stride);
    } else {
      Times(i + 1, j + 1, stride);
    }
  }

  lemma StridePositive(n: nat, blocks: nat)
    requires 0 < blocks <= n
    ensures Stride(n, blocks) > 0
  {
    assert n == blocks * Stride(n, blocks) + n % blocks;
  }

  /** Where the search ends for a stored item. */
  lemma SearchOfStored(items: seq<Entry>, blocks: nat, size: nat, x: Entry, p: nat, q: nat)
    requires 0 < blocks <= |items|
    requires Rect(items, size) && Sorted(items, 0, |items|) && Stored(items, x, p, q)
    ensures Stride(|items|, blocks) > 0
    ensures var i := Sought(p, Stride(|items|, blocks));
      SearchIndex(Keys(items, blocks), x) == if i < blocks - 1 then i else blocks - 1
  {
    hide Value, SearchIndex, Sorted, Stored, Sought;
    var keys, stride := Keys(items, blocks), Stride(|items|, blocks);
    StridePositive(|items|, blocks);
    var i := Sought(p, stride);
    forall j | 0 <= j < blocks - 1 ensures Value(keys[j]) < Value(x) <==> j < i {
      KeyInside(j + 1, |items|, blocks);
      StoredBetween(items, size, x, p, q, (j + 1) * stride);
      SoughtBounds(p, stride, j);
    }
    SearchIndexIs(keys, x, if i < blocks - 1 then i else blocks - 1);
  }

  /** A block of at least one entry's size: there are no more blocks than entries. */
  lemma BlocksBelow(f: Form)
    requires f.Valid() && f.size <= f.block
    ensures f.Blocks() <= f.n && f.Step() > 0 && f.PerBlock() > 0
  {
    hide Stride;
    BlockCountIs(f.Bytes(), f.block);
    var b := f.Blocks();
    if b > f.n {
      Times(f.n, b - 1, f.block);
      Times(f.size, f.block, f.n);
      assert false;
    }
    StridePositive(f.n, b);
    assert f.block == f.block / f.size * f.size + f.block % f.size;
  }

  /** Block b starts with a whole entry, at this position. */
  predicate StartsAt(f: Form, b: nat, start: nat) { b * f.block == Offset(start, f.size) }

  /** What is scanned of such a block are entries of the database. */
  lemma CandidateEntries(f: Form, m: seq<byte>, b: nat, start: nat)
    requires f.Valid() && f.Bytes() <= |m| && b + 1 < f.Blocks() && StartsAt(f, b, start)
    ensures start + f.PerBlock() <= f.n
    ensures Candidates(f, m, b) == EntriesIn(f, m)[start..start + f.PerBlock()]
  {
    hide Offset, Slots, Form.Blocks;
    var per, size := f.PerBlock(), f.size;
    BlockFits(f, b);
    OffsetNext(0, size);
    Scaled(start, per, size);
    EntriesFit(start + per, f.n, size);
    SlotsSplit(m, 0, f.n, start, size);
    SlotsSplit(m, Offset(start, size), f.n - start, per, size);
  }

  lemma BlockFits(f: Form, b: nat)
    requires f.Valid() && b + 1 < f.Blocks()
    ensures b * f.block + Offset(f.PerBlock(), f.size) <= f.Bytes() == Offset(f.n, f.size)
  {
    BlockInside(b, f.Bytes(), f.block);
    PerFits(f.block, f.size);
  }

  lemma EntriesFit(a: nat, n: nat, size: nat)
    requires size > 0 && Offset(a, size) <= Offset(n, size)
    ensures a <= n
  {
    if a > n {
      SlotFits(n, a, size);
    }
  }

  /** Part of a sorted list. */
  lemma PartSorted(entries: seq<Entry>, a: nat, b: nat)
    requires Sorted(entries, 0, |entries|) && a <= b <= |entries|
    ensures Sorted(entries[a..b], 0, b - a)
  {
    hide Value;
  }

  /** A stretch holds x exactly when one of the positions of x is in it. */
  lemma InStretchIff(entries: seq<Entry>, size: nat, x: Entry, p: nat, q: nat, a: nat, b: nat)
    requires Rect(entries, size) && Sorted(entries, 0, |entries|) && Stored(entries, x, p, q)
    requires a < b <= |entries|
    ensures x in entries[a..b] <==> a <= q && p < b
  {
    hide Value, Sorted;
    var part := entries[a..b];
    if a <= q && p < b {
      var k := if p < a then a else p;
      StoredBetween(entries, size, x, p, q, k);
      assert part[k - a] == x;
    } else {
      forall k | 0 <= k < b - a ensures part[k] != x {
        StoredBetween(entries, size, x, p, q, a + k);
      }
    }
  }

  /** The search ends at the block sought, or at the end of the manifest. */
  lemma IndexOfStored(f: Form, m: seq<byte>, x: Entry, g: nat, h: nat)
    requires f.Valid() && f.size <= f.block && f.Bytes() <= |m| && |x| == f.size
    requires Sorted(EntriesIn(f, m), 0, f.n) && Stored(Prefixes(EntriesIn(f, m), f.key), x[..f.key], g, h)
    ensures f.Step() > 0
    ensures var i := Sought(g, f.Step());
      Index(f, m, x) == if i + 1 < f.Blocks() then i else f.Blocks() - 1
  {
    hide Offset, Slots, Value, Sorted, Stored, SearchIndex, Keys, Sought, Form.Blocks;
    var entries := EntriesIn(f, m);
    BlocksBelow(f);
    PrefixesSorted(entries, f.size, f.key);
    SearchOfStored(Prefixes(entries, f.key), f.Blocks(), f.key, x[..f.key], g, h);
  }

  /** An entry stored from position p to q, whose first bytes first occur at position g, is
      sought in block i. It is found exactly if that is not the last block and, where the
      block starts with a whole entry, covers one of the positions. Where it does not, the
      parts of entries that are scanned decide. */
  lemma FoundIff(f: Form, m: seq<byte>, x: Entry, g: nat, h: nat, p: nat, q: nat)
    requires f.Valid() && f.size <= f.block && f.Bytes() <= |m| && |x| == f.size
    requires Sorted(EntriesIn(f, m), 0, f.n)
    requires Stored(Prefixes(EntriesIn(f, m), f.key), x[..f.key], g, h) && Stored(EntriesIn(f, m), x, p, q)
    ensures f.Step() > 0
    ensures var i := Sought(g, f.Step());
      TestOutcome(f, m, x) == Found(true) <==> i + 1 < f.Blocks() && Scans(Candidates(f, m, i), x)
    ensures forall start: nat :: var i := Sought(g, f.Step());
      i + 1 < f.Blocks() && StartsAt(f, i, start) ==>
        (TestOutcome(f, m, x) == Found(true) <==> start <= q && p < start + f.PerBlock())
  {
    hide Offset, Slots, Value, Sorted, Stored, Scans, Candidates, Index, Sought, Form.Blocks, Form.PerBlock, Form.Step, StartsAt;
    IndexOfStored(f, m, x, g, h);
    BlocksBelow(f);
    var i := Sought(g, f.Step());
    forall start: nat | i + 1 < f.Blocks() && StartsAt(f, i, start)
      ensures TestOutcome(f, m, x) == Found(true) <==> start <= q && p < start + f.PerBlock()
    {
      CandidateEntries(f, m, i, start);
      PartSorted(EntriesIn(f, m), start, start + f.PerBlock());
      SortedScan(Candidates(f, m, i), x, f.size);
      InStretchIff(EntriesIn(f, m), f.size, x, p, q, start, start + f.PerBlock());
    }
  }

  /** Where the block found starts with a whole entry, only stored entries are found. */
  lemma NotStored(f: Form, m: seq<byte>, x: Entry, start: nat)
    requires f.Valid() && f.Bytes() <= |m| && |x| == f.size && x !in EntriesIn(f, m)
    requires Index(f, m, x) + 1 < f.Blocks() ==> StartsAt(f, Index(f, m, x), start)
    ensures TestOutcome(f, m, x) != Found(true)
  {
    hide Offset, Slots, Value, Scans, Candidates, Index, Form.Blocks, StartsAt;
    var b := Index(f, m, x);
    if b + 1 < f.Blocks() {
      CandidateEntries(f, m, b, start);
      OnlyMembers(Candidates(f, m, b), x);
    }
  }

  lemma {:induction false} OnlyMembers(items: seq<Entry>, x: Entry)
    ensures Scans(items, x) ==> x in items
    decreases |items|
  {
    hide Value;
    if items != [] {
      OnlyMembers(items[1..], x);
    }
  }

  /** Position of the entry of the last key, the first of all if there is none. */
  function LastKey(n: nat, blocks: nat): (k: nat)
    requires blocks > 0 && n > 0
    ensures k < n
  {
    KeyInside(blocks - 1, n, blocks);
    (blocks - 1) * Stride(n, blocks)
  }

  lemma LastKeyIs(items: seq<Entry>, blocks: nat)
    requires blocks > 1 && items != []
    ensures Keys(items, blocks)[blocks - 2] == items[LastKey(|items|, blocks)]
  {
  }

  lemma LastKeyGreatest(items: seq<Entry>, blocks: nat, j: nat)
    requires j < blocks - 1 && items != [] && Sorted(items, 0, |items|)
    ensures Value(Keys(items, blocks)[j]) <= Value(items[LastKey(|items|, blocks)])
  {
    hide Value, Stride;
    KeyInside(j + 1, |items|, blocks);
    Times(j + 1, blocks - 1, Stride(|items|, blocks));
  }

  /** The search stays inside the manifest exactly when there is a key and x is not above
      the last one. */
  lemma InsideIff(items: seq<Entry>, blocks: nat, x: Entry)
    requires blocks > 0 && items != [] && Sorted(items, 0, |items|)
    ensures SearchIndex(Keys(items, blocks), x) < blocks - 1
       <==> blocks > 1 && Value(x) <= Value(items[LastKey(|items|, blocks)])
  {
    hide Value, SearchIndex, Stride, Keys, LastKey, Sorted;
    var keys := Keys(items, blocks);
    if blocks > 1 {
      LastKeyIs(items, blocks);
      if Value(x) <= Value(items[LastKey(|items|, blocks)]) {
        SearchStops(keys, x, blocks - 2);
      } else {
        forall j | 0 <= j < blocks - 1 ensures Value(keys[j]) < Value(x) {
          LastKeyGreatest(items, blocks, j);
        }
        SearchIndexIs(keys, x, blocks - 1);
      }
    }
  }

  lemma {:induction false} SearchStops(keys: seq<Entry>, x: Entry, i: nat)
    requires i < |keys| && Value(keys[i]) >= Value(x)
    ensures SearchIndex(keys, x) <= i
    decreases i
  {
    if i > 0 {
      SearchStops(keys[1..], x, i - 1);
    }
  }

  /** The outcome is undefined exactly if the first bytes of x are above those of the entry
      of the last key, or there is no key. */
  lemma UndefinedIff(f: Form, m: seq<byte>, x: Entry)
    requires f.Valid() && f.Bytes() <= |m| && |x| == f.size && Sorted(EntriesIn(f, m), 0, f.n)
    ensures TestOutcome(f, m, x) == Undefined
       <==> f.Blocks() == 1 || Value(x[..f.key]) > Value(EntriesIn(f, m)[LastKey(f.n, f.Blocks())][..f.key])
  {
    hide Offset, Slots, Value, Sorted, SearchIndex, Keys, Scans, Candidates, Form.Blocks, LastKey;
    var entries := EntriesIn(f, m);
    PrefixesSorted(entries, f.size, f.key);
    InsideIff(Prefixes(entries, f.key), f.Blocks(), x[..f.key]);
  }

  lemma OffsetIs(a: nat, b: nat)
    ensures Offset(a, b) == a * b
  {
  }

  lemma OffsetOfBlock(b: nat, per: nat, size: nat)
    ensures Offset(b * per, size) == b * Offset(per, size)
  {
  }

  /** Of blocks of whole entries, one that is not the last and covers one of the positions
      from p to q is where an entry is sought whose first bytes first occur at position g. */
  predicate Reached(f: Form, g: nat, p: nat, q: nat)
    requires f.Valid() && f.size <= f.block
  {
    BlocksBelow(f);
    var i := Sought(g, f.Step());
    i + 1 < f.Blocks() && i * f.PerBlock() <= q && p < i * f.PerBlock() + f.PerBlock()
  }

  lemma WholeBlocks(f: Form, b: nat)
    requires f.Valid() && f.block % f.size == 0
    ensures f.size <= f.block && StartsAt(f, b, b * f.PerBlock())
  {
    hide Offset;
    assert f.block == f.PerBlock() * f.size + f.block % f.size;
    Times(1, f.PerBlock(), f.size);
    OffsetIs(f.PerBlock(), f.size);
    OffsetOfBlock(b, f.PerBlock(), f.size);
  }

  /** With blocks of whole entries, what the membership test says of x: which stored entries
      are found, that an entry that is not stored never is, and that the search leaves the
      manifest exactly for entries whose first bytes are above the last key, or when there
      is none. */
  lemma CheckHashMeaning(f: Form, m: seq<byte>, x: Entry)
    requires f.Valid() && f.block % f.size == 0 && f.Bytes() <= |m| && |x| == f.size
    requires Sorted(EntriesIn(f, m), 0, f.n)
    ensures f.size <= f.block
    ensures forall g: nat, h: nat, p: nat, q: nat ::
      Stored(Prefixes(EntriesIn(f, m), f.key), x[..f.key], g, h) && Stored(EntriesIn(f, m), x, p, q) ==>
        (TestOutcome(f, m, x) == Found(true) <==> Reached(f, g, p, q))
    ensures x !in EntriesIn(f, m) ==> TestOutcome(f, m, x) != Found(true)
    ensures TestOutcome(f, m, x) == Undefined
       <==> f.Blocks() == 1 || Value(x[..f.key]) > Value(EntriesIn(f, m)[LastKey(f.n, f.Blocks())][..f.key])
  {
    hide Offset, Slots, Value, Sorted, Stored, TestOutcome, Index, StartsAt, Sought, Prefixes, Form.Blocks, Form.PerBlock,
      Form.Step, LastKey;
    WholeBlocks(f, Index(f, m, x));
    UndefinedIff(f, m, x);
    if x !in EntriesIn(f, m) {
      NotStored(f, m, x, Index(f, m, x) * f.PerBlock());
    }
    BlocksBelow(f);
    forall g: nat, h: nat, p: nat, q: nat |
      Stored(Prefixes(EntriesIn(f, m), f.key), x[..f.key], g, h) && Stored(EntriesIn(f, m), x, p, q)
      ensures TestOutcome(f, m, x) == Found(true) <==> Reached(f, g, p, q)
    {
      FoundIff(f, m, x, g, h, p, q);
      WholeBlocks(f, Sought(g, f.Step()));
    }
  }

  // ----- blocks of whole entries, keys of whole entries

  /** Every key is taken where its block starts exactly when blocks hold whole entries and
      the entries fill the blocks, or there is no key. */
  lemma AlignedIff(f: Form)
    requires f.Valid()
    ensures (forall b: nat :: 0 < b < f.Blocks() ==> StartsAt(f, b, b * f.Step()))
       <==> (f.block % f.size == 0 && f.Bytes() % f.block == 0) || f.Blocks() == 1
  {
    hide Offset, Form.Blocks, Form.Bytes, Stride;
    if f.block % f.size == 0 && f.Bytes() % f.block == 0 {
      Filled(f);
      forall b: nat | 0 < b < f.Blocks() ensures StartsAt(f, b, b * f.Step()) {
        OffsetOfBlock(b, f.PerBlock(), f.size);
      }
    } else if f.Blocks() > 1 && StartsAt(f, 1, 1 * f.Step()) {
      StartsFilled(f);
    }
  }

  /** If the second block starts at the first key, blocks hold whole entries and are filled. */
  lemma StartsFilled(f: Form)
    requires f.Valid() && f.Blocks() > 1 && StartsAt(f, 1, f.Step())
    ensures f.block % f.size == 0 && f.Bytes() % f.block == 0
  {
    hide Offset;
    var b, stride := f.Blocks(), f.Step();
    OffsetIs(stride, f.size);
    DivUnique(f.block, f.size, stride, 0);
    assert f.block == f.block / f.size * f.size + f.block % f.size;
    BlockCountIs(f.Bytes(), f.block);
    assert f.n == b * stride + f.n % b;
    Scaled(b * stride, f.n % b, f.size);
    OffsetOfBlock(b, stride, f.size);
    assert f.Bytes() == b * f.block;
    DivUnique(f.Bytes(), f.block, b, 0);
    assert f.Bytes() == f.Bytes() / f.block * f.block + f.Bytes() % f.block;
  }

  /** Blocks of whole entries, all full: the keys are as far apart as the blocks. */
  lemma Filled(f: Form)
    requires f.Valid() && f.block % f.size == 0 && f.Bytes() % f.block == 0
    ensures f.block == Offset(f.PerBlock(), f.size) && f.PerBlock() > 0
    ensures f.n == f.Blocks() * f.PerBlock() && f.Step() == f.PerBlock()
  {
    hide Offset;
    var per, b := f.PerBlock(), f.Bytes() / f.block;
    assert f.block == per * f.size + f.block % f.size;
    assert f.Bytes() == b * f.block + f.Bytes() % f.block;
    OffsetIs(per, f.size);
    OffsetOfBlock(b, per, f.size);
    SameOffset(f.n, b * per, f.size);
    DivUnique(f.Bytes() + f.block - 1, f.block, b, f.block - 1);
    assert f.Blocks() == b;
    DivUnique(f.n, b, per, 0);
  }

  lemma SameOffset(a: nat, b: nat, size: nat)
    requires size > 0 && Offset(a, size) == Offset(b, size)
    ensures a == b
  {
    EntriesFit(a, b, size);
    EntriesFit(b, a, size);
  }

  /** With blocks of whole entries, all full, and whole entries as keys, a stored entry is
      found exactly when its first position is not in the last block and does not begin a
      block other than the first. */
  lemma AlignedFoundIff(f: Form, m: seq<byte>, x: Entry, p: nat, q: nat)
    requires f.Valid() && f.block % f.size == 0 && f.Bytes() % f.block == 0 && f.key == f.size
    requires f.Bytes() <= |m| && |x| == f.size && Sorted(EntriesIn(f, m), 0, f.n) && Stored(EntriesIn(f, m), x, p, q)
    ensures f.PerBlock() > 0
    ensures TestOutcome(f, m, x) == Found(true) <==> p / f.PerBlock() < f.Blocks() - 1 && (p == 0 || p % f.PerBlock() != 0)
  {
    hide Offset, Slots, Sorted, Stored, TestOutcome, Form.Blocks, Form.Bytes, Form.PerBlock, Stride;
    var per, entries := f.PerBlock(), EntriesIn(f, m);
    Filled(f);
    WholeKeys(entries, x, f.size, p, q);
    SlotFits(0, per, f.size);
    FoundIff(f, m, x, p, q, p, q);
    var i := Sought(p, per);
    OffsetOfBlock(i, per, f.size);
    assert StartsAt(f, i, i * per);
    SoughtBounds(p, per, 0);
    SoughtQuotient(p, per);
    StoredOrder(entries, x, p, q);
  }

  lemma WholeKeys(entries: seq<Entry>, x: Entry, size: nat, p: nat, q: nat)
    requires Rect(entries, size) && |x| == size && Stored(entries, x, p, q)
    ensures Prefixes(entries, size) == entries && x[..size] == x
  {
    forall i | 0 <= i < |entries| ensures entries[i][..size] == entries[i] {
    }
  }

  lemma StoredOrder(entries: seq<Entry>, x: Entry, p: nat, q: nat)
    requires Stored(entries, x, p, q)
    ensures p <= q < |entries|
  {
  }

  lemma SoughtQuotient(p: nat, per: nat)
    requires per > 0
    ensures p == 0 ==> p / per == 0
    ensures p > 0 && p % per != 0 ==> Sought(p, per) == p / per && p < p / per * per + per
    ensures p > 0 && p % per == 0 ==> p == Sought(p, per) * per + per
  {
    if p > 0 {
      var d, m := p / per, p % per;
      assert p == d * per + m;
      if m != 0 {
        DivUnique(p - 1, per, d, m - 1);
      } else {
        assert d > 0;
        assert d * per == (d - 1) * per + per;
        DivUnique(p - 1, per, d - 1, per - 1);
      }
    }
  }

  // ----- where the test goes wrong

  lemma EntriesAre(f: Form, m: seq<byte>, entries: seq<Entry>)
    requires f.Valid() && f.Bytes() <= |m| && |entries| == f.n && Rect(entries, f.size)
    requires forall i :: 0 <= i < f.n ==>
      Offset(i, f.size) + f.size <= |m| && entries[i] == m[Offset(i, f.size)..Offset(i, f.size) + f.size]
    ensures EntriesIn(f, m) == entries
  {
    forall i | 0 <= i < f.n ensures EntriesIn(f, m)[i] == entries[i] {
      SlotIs(m, f.n, i, f.size);
    }
  }

  /** A stored entry that is missed: the first one of the second of three blocks. */
  lemma MissedEntry()
    ensures var f, m := Form(3, 1, 1, 1), [0, 1, 2];
      && f.Valid() && EntriesIn(f, m) == [[0], [1], [2]] && Sorted(EntriesIn(f, m), 0, 3)
      && TestOutcome(f, m, [1]) == Found(false)
  {
    var f, m: seq<byte> := Form(3, 1, 1, 1), [0, 1, 2];
    EntriesAre(f, m, [[0], [1], [2]]);
    SingleValues(EntriesIn(f, m));
    assert Stored(EntriesIn(f, m), [1], 1, 1);
    AlignedFoundIff(f, m, [1], 1, 1);
    UndefinedIff(f, m, [1]);
    Filled(f);
    WholeKeys(EntriesIn(f, m), [1], 1, 1, 1);
  }

  lemma FourEntries()
    ensures var f, m := Form(4, 1, 2, 1), [0, 1, 2, 3];
      && f.Valid() && f.Bytes() == 4 && f.Blocks() == 2 && f.Step() == 2 && LastKey(4, 2) == 2
      && EntriesIn(f, m) == [[0], [1], [2], [3]]
  {
    var f, m: seq<byte> := Form(4, 1, 2, 1), [0, 1, 2, 3];
    assert Offset(0, 1) == 0 && Offset(1, 1) == 1 && Offset(2, 1) == 2 && Offset(3, 1) == 3;
    EntriesAre(f, m, [[0], [1], [2], [3]]);
  }

  /** A stored entry for which the search reads behind the manifest: one of the last block. */
  lemma UndefinedEntry()
    ensures var f, m := Form(4, 1, 2, 1), [0, 1, 2, 3];
      && f.Valid() && EntriesIn(f, m) == [[0], [1], [2], [3]] && Sorted(EntriesIn(f, m), 0, 4)
      && TestOutcome(f, m, [3]) == Undefined
  {
    hide Value, Slots, TestOutcome, Offset, Form.Bytes, Form.Blocks, BlockCount, Stride, LastKey, EntriesIn;
    var f, m: seq<byte> := Form(4, 1, 2, 1), [0, 1, 2, 3];
    var entries: seq<Entry>, front: seq<Entry> := [[0], [1], [2], [3]], [[3], [2]];
    FourEntries();
    SingleValues(entries);
    SingleValues(front);
    UndefinedIff(f, m, front[0]);
    assert front[0][..1] == front[0] && entries[2][..1] == front[1];
  }

  lemma SingleValues(entries: seq<Entry>)
    requires Rect(entries, 1)
    ensures forall i :: 0 <= i < |entries| ==> Value(entries[i]) == entries[i][0]
  {
    forall i | 0 <= i < |entries| ensures Value(entries[i]) == entries[i][0] {
      assert Pow2(0) == 1;
    }
  }

  lemma PairValue(a: byte, b: byte)
    ensures Value([a, b]) == a * 256 + b
  {
    var e: Entry := [a, b];
    assert e[1..] == [b] && [b][1..] == [];
    assert Pow2(8) == 256 && Pow2(0) == 1;
    assert Value([b]) == b;
    assert Value(e) == e[0] * Pow2(8) + Value(e[1..]);
  }

  /** Five entries of two bytes, in blocks of three. */
  const STRADDLED: seq<byte> := [0, 0, 1, 5, 5, 9, 6, 0, 7, 0]

  lemma StraddledEntries()
    ensures var f := Form(5, 2, 3, 2);
      && f.Valid() && f.Bytes() == 10 && f.Blocks() == 4 && f.Step() == 1 && f.PerBlock() == 1
      && EntriesIn(f, STRADDLED) == [[0, 0], [1, 5], [5, 9], [6, 0], [7, 0]]
  {
    hide SearchIndex, Keys;
    var f, entries: seq<Entry> := Form(5, 2, 3, 2), [[0, 0], [1, 5], [5, 9], [6, 0], [7, 0]];
    assert Offset(0, 2) == 0 && Offset(1, 2) == 2 && Offset(2, 2) == 4 && Offset(3, 2) == 6 && Offset(4, 2) == 8;
    EntriesAre(f, STRADDLED, entries);
  }

  lemma StraddledValues()
    ensures Value([0, 0]) == 0 && Value([1, 5]) == 261 && Value([5, 9]) == 1289 && Value([6, 0]) == 1536
    ensures Value([7, 0]) == 1792 && Value([5, 5]) == 1285
  {
    hide Value;
    PairValue(0, 0);
    PairValue(1, 5);
    PairValue(5, 9);
    PairValue(6, 0);
    PairValue(7, 0);
    PairValue(5, 5);
  }

  lemma StraddledIndex()
    ensures var f := Form(5, 2, 3, 2);
      f.Valid() && f.Bytes() == 10 && Index(f, STRADDLED, [5, 5]) == 1
  {
    hide Value, Slots, SearchIndex;
    var f, x: Entry := Form(5, 2, 3, 2), [5, 5];
    StraddledEntries();
    StraddledValues();
    var entries := EntriesIn(f, STRADDLED);
    var keys := Keys(Prefixes(entries, 2), 4);
    assert entries[1][..2] == [1, 5] && entries[2][..2] == [5, 9] && x[..2] == x;
    assert keys[0] == [1, 5] && keys[1] == [5, 9];
    SearchIndexIs(keys, x, 1);
  }

  /** An entry that is not stored, made of the last byte of one and the first byte of the
      next, is found. */
  lemma FalseEntry()
    ensures var f := Form(5, 2, 3, 2);
      && f.Valid() && f.Bytes() == 10 && Sorted(EntriesIn(f, STRADDLED), 0, 5) && [5, 5] !in EntriesIn(f, STRADDLED)
      && TestOutcome(f, STRADDLED, [5, 5]) == Found(true)
  {
    hide Value, Index, Prefixes, Keys;
    var f := Form(5, 2, 3, 2);
    StraddledEntries();
    StraddledValues();
    StraddledIndex();
    assert Slot(STRADDLED, 3, 0, 2) == STRADDLED[3..5] == [5, 5];
    assert Candidates(f, STRADDLED, 1)[0] == [5, 5];
  }

  /** The default configuration, 1,000,000 entries of 8 bytes in blocks of 1024 bytes: keys
      are taken every 127 entries, blocks hold 128. */
  lemma DefaultConfiguration()
    ensures var f := Form(1_000_000, 8, 1024, 8);
      && f.Valid() && f.Bytes() % f.block != 0 && f.Blocks() == 7813 && f.PerBlock() == 128 && f.Step() == 127
  {
  }

  /** There, an entry stored once is found exactly when it is the first of all or when the
      number of the block it is sought in does not exceed its place in the stretch between
      two keys; no such entry is found from position 16,257 on. */
  lemma DefaultFoundIff(m: seq<byte>, x: Entry, p: nat)
    requires var f := Form(1_000_000, 8, 1024, 8);
      f.Bytes() <= |m| && |x| == 8 && Sorted(EntriesIn(f, m), 0, f.n) && Stored(EntriesIn(f, m), x, p, p)
    ensures var f := Form(1_000_000, 8, 1024, 8);
      && (TestOutcome(f, m, x) == Found(true) <==> p == 0 || (p - 1) / 127 <= (p - 1) % 127 + 1)
      && (p > 16_256 ==> TestOutcome(f, m, x) != Found(true))
  {
    hide Sorted, Rect, TestOutcome, Stored, Slots;
    var f := Form(1_000_000, 8, 1024, 8);
    DefaultConfiguration();
    WholeKeys(EntriesIn(f, m), x, 8, p, p);
    FoundIff(f, m, x, p, p, p, p);
    StoredOrder(EntriesIn(f, m), x, p, p);
    var i := Sought(p, 127);
    assert StartsAt(f, i, 128 * i);
  }
}
