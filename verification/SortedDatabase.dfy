/** The raw database of fixed-size entries: comparison by memcmp, and the quicksort that
    works in place on the flat bytes. */
module SortedDatabase {
  import opened Bits
  import opened ByteStrings
  import opened Helper

  type Entry = seq<byte>

  // ----- the order of entries

  /** Sign of memcmp on strings of one length: the first difference decides. */
  function Memcmp(a: Entry, b: Entry): int
    requires |a| == |b|
  {
    if a == [] then 0
    else if a[0] != b[0] then a[0] - b[0]
    else Memcmp(a[1..], b[1..])
  }

  /** The entry read as a big-endian number. */
  function Value(a: Entry): nat
    decreases |a|
  {
    if a == [] then 0 else a[0] * Pow2(8 * (|a| - 1)) + Value(a[1..])
  }

  lemma {:induction false} ValueBound(a: Entry)
    ensures Value(a) < Pow2(8 * |a|)
    decreases |a|
  {
    if a != [] {
      var n := 8 * (|a| - 1);
      ValueBound(a[1..]);
      PowerSum(8, n);
      assert Pow2(8) == 256;
      assert Pow2(8 * |a|) == 256 * Pow2(n) by { assert 8 * |a| == 8 + n; }
      MultiplesApart(a[0], 256, Pow2(n));
    }
  }

  lemma LeadingByte(x: nat, y: nat, p: nat, v: nat, w: nat)
    requires x < y && v < p
    ensures x * p + v < y * p + w
  {
    MultiplesApart(x, y, p);
  }

  /** memcmp compares the big-endian values. */
  lemma {:induction false} MemcmpIsValueOrder(a: Entry, b: Entry)
    requires |a| == |b|
    ensures Memcmp(a, b) < 0 <==> Value(a) < Value(b)
    ensures Memcmp(a, b) == 0 <==> Value(a) == Value(b)
    ensures Memcmp(a, b) == 0 <==> a == b
    decreases |a|
  {
    hide Pow2;
    if a != [] {
      var p, v, w := Pow2(8 * (|a| - 1)), Value(a[1..]), Value(b[1..]);
      ValueBound(a[1..]);
      ValueBound(b[1..]);
      assert Value(a) == a[0] * p + v && Value(b) == b[0] * p + w;
      assert a == [a[0]] + a[1..] && b == [b[0]] + b[1..];
      if a[0] < b[0] {
        LeadingByte(a[0], b[0], p, v, w);
      } else if b[0] < a[0] {
        LeadingByte(b[0], a[0], p, w, v);
      } else {
        MemcmpIsValueOrder(a[1..], b[1..]);
      }
    }
  }

  /** Entries lo, ..., hi-1 are in order. */
  ghost predicate Sorted(s: seq<Entry>, lo: nat, hi: nat)
    requires hi <= |s|
  {
    forall i, j :: lo <= i < j < hi ==> Value(s[i]) <= Value(s[j])
  }

  // ----- permutations of a stretch

  /** t is s with the stretch from lo to hi permuted. */
  ghost predicate Permuted(s: seq<Entry>, t: seq<Entry>, lo: nat, hi: nat) {
    && |s| == |t| && lo <= hi <= |s|
    && s[..lo] == t[..lo] && s[hi..] == t[hi..]
    && multiset(s[lo..hi]) == multiset(t[lo..hi])
  }

  function Swap<T>(s: seq<T>, i: nat, j: nat): (r: seq<T>)
    requires i < |s| && j < |s|
    ensures |r| == |s|
  {
    s[i := s[j]][j := s[i]]
  }

  lemma SwapMultiset<T>(s: seq<T>, i: nat, j: nat)
    requires i <= j < |s|
    ensures multiset(Swap(s, i, j)) == multiset(s)
  {
    var t := s[i := s[j]];
    UpdateMultiset(s, i, s[j]);
    UpdateMultiset(t, j, s[i]);
  }

  lemma UpdateMultiset<T>(s: seq<T>, i: nat, y: T)
    requires i < |s|
    ensures multiset(s[i := y]) + multiset{s[i]} == multiset(s) + multiset{y}
  {
    assert s[i] in multiset(s);
    assert multiset(s[i := y]) == multiset(s) - multiset{s[i]} + multiset{y};
  }

  lemma SwapPermutes(s: seq<Entry>, i: nat, j: nat, lo: nat, hi: nat)
    requires lo <= i <= j < hi <= |s|
    ensures Permuted(s, Swap(s, i, j), lo, hi)
  {
    SwapMultiset(s[lo..hi], i - lo, j - lo);
    assert Swap(s, i, j)[lo..hi] == Swap(s[lo..hi], i - lo, j - lo);
  }

  lemma PermutedTwice(s: seq<Entry>, t: seq<Entry>, u: seq<Entry>, lo: nat, hi: nat)
    requires Permuted(s, t, lo, hi) && Permuted(t, u, lo, hi)
    ensures Permuted(s, u, lo, hi)
  {
  }

  /** Permuting part of a stretch permutes the stretch. */
  lemma PermutedWider(s: seq<Entry>, t: seq<Entry>, lo: nat, hi: nat, lo': nat, hi': nat)
    requires Permuted(s, t, lo, hi) && lo' <= lo && hi <= hi' <= |s|
    ensures Permuted(s, t, lo', hi')
  {
    assert s[lo'..lo] == s[..lo][lo'..] && t[lo'..lo] == t[..lo][lo'..];
    assert s[hi..hi'] == s[hi..][..hi' - hi] && t[hi..hi'] == t[hi..][..hi' - hi];
    assert s[lo'..hi'] == s[lo'..lo] + s[lo..hi] + s[hi..hi'];
    assert t[lo'..hi'] == t[lo'..lo] + t[lo..hi] + t[hi..hi'];
    assert s[..lo'] == s[..lo][..lo'] && t[..lo'] == t[..lo][..lo'];
    assert s[hi'..] == s[hi..][hi' - hi..] && t[hi'..] == t[hi..][hi' - hi..];
  }

  /** Every entry of a permuted stretch was in it before. */
  lemma PermutedFrom(s: seq<Entry>, t: seq<Entry>, lo: nat, hi: nat, k: nat) returns (k': nat)
    requires Permuted(s, t, lo, hi) && lo <= k < hi
    ensures lo <= k' < hi && s[k'] == t[k]
  {
    assert t[k] == t[lo..hi][k - lo];
    assert t[k] in multiset(t[lo..hi]);
    assert t[k] in s[lo..hi];
    var m :| 0 <= m < hi - lo && s[lo..hi][m] == t[k];
    k' := lo + m;
  }

  lemma PermutedOutside(s: seq<Entry>, t: seq<Entry>, lo: nat, hi: nat, k: nat)
    requires Permuted(s, t, lo, hi) && k < |s| && !(lo <= k < hi)
    ensures s[k] == t[k]
  {
    if k < lo {
      assert s[..lo][k] == t[..lo][k];
    } else {
      assert s[hi..][k - hi] == t[hi..][k - hi];
    }
  }

  // ----- in place, on flat bytes

  /** Conversion to uint32_t. */
  function U32(x: nat): (r: nat)
    ensures r <= x && r < 0x1_0000_0000
  {
    x % 0x1_0000_0000
  }

  /** The byte position, of 32 bits, at which entry i is looked for. */
  function Position(i: nat, size: nat): nat { U32(Offset(i, size)) }

  /** Every entry of n is looked for where it is. */
  predicate Fits(n: nat, size: nat) { n == 0 || Offset(n - 1, size) < 0x1_0000_0000 }

  lemma PositionIff(i: nat, size: nat)
    ensures Position(i, size) == Offset(i, size) <==> Offset(i, size) < 0x1_0000_0000
  {
  }

  /** Wrapped or not, a position is the byte offset less a multiple of 2^32. */
  lemma PositionIs(i: nat, size: nat)
    ensures Position(i, size) < 0x1_0000_0000
    ensures exists k: nat :: Offset(i, size) == Position(i, size) + Offset(k, 0x1_0000_0000)
  {
    var x := Offset(i, size);
    var k := x / 0x1_0000_0000;
    assert x == Position(i, size) + Offset(k, 0x1_0000_0000);
  }

  lemma FitsIff(n: nat, size: nat)
    ensures Fits(n, size) <==> forall i: nat :: i < n ==> Position(i, size) == Offset(i, size)
  {
    hide Offset;
    forall i: nat | i < n ensures Offset(i, size) <= Offset(n - 1, size) {
      Scaled(i, n - 1 - i, size);
    }
    if n > 0 {
      PositionIff(n - 1, size);
    }
  }

  /** Entry 2^29 of eight bytes is taken for the very first one. */
  lemma PositionWraps()
    ensures Position(0x2000_0000, 8) == Position(0, 8) == 0
    ensures !Fits(0x2000_0001, 8)
  {
  }

  /** A flat database of n entries. */
  ghost predicate Flat(db: array<byte>, n: nat, size: nat) {
    size > 0 && db.Length == Offset(n, size)
  }

  /** The entries of the flat database. */
  ghost function Entries(db: array<byte>, n: nat, size: nat): (r: seq<Entry>)
    requires Flat(db, n, size)
    reads db
    ensures |r| == n && Rect(r, size)
  {
    Slots(db[..], 0, n, size)
  }

  /** Wrapped or not, a position is inside the database. */
  lemma PositionInside(db: array<byte>, n: nat, size: nat, i: nat)
    requires Flat(db, n, size) && i < n
    ensures Position(i, size) + size <= db.Length && Position(i, size) < 0x1_0000_0000
    ensures Fits(n, size) ==> Position(i, size) == Offset(i, size)
  {
    hide Offset;
    SlotFits(i, n, size);
    Scaled(i, n - 1 - i, size);
    PositionIff(i, size);
  }

  lemma IndexFits(db: array<byte>, n: nat, size: nat, i: nat)
    requires Flat(db, n, size) && i < n && Fits(n, size)
    ensures Position(i, size) == Offset(i, size)
    ensures Offset(i, size) + size <= db.Length
    ensures Entries(db, n, size)[i] == db[Offset(i, size)..Offset(i, size) + size]
  {
    hide Offset, Slots;
    PositionInside(db, n, size, i);
    SlotAt(db[..], n, i, size);
  }

  method CompareDBEntries(db: array<byte>, l: nat, r: nat, ghost n: nat, size: nat) returns (c: int)
    requires Flat(db, n, size) && l < n && r < n
    ensures Position(l, size) + size <= db.Length && Position(r, size) + size <= db.Length
    ensures c == Memcmp(db[Position(l, size)..Position(l, size) + size], db[Position(r, size)..Position(r, size) + size])
    ensures Position(l, size) == Position(r, size) ==> c == 0
    ensures Fits(n, size) ==> c == Memcmp(Entries(db, n, size)[l], Entries(db, n, size)[r])
  {
    hide Offset, Slots, Memcmp, Entries, Fits;
    PositionInside(db, n, size, l);
    PositionInside(db, n, size, r);
    var index1, index2 := Position(l, size), Position(r, size);
    c := Memcmp(db[index1..index1 + size], db[index2..index2 + size]);
    MemcmpIsValueOrder(db[index1..index1 + size], db[index2..index2 + size]);
    if Fits(n, size) {
      IndexFits(db, n, size, l);
      IndexFits(db, n, size, r);
    }
  }

  /** The two stretches are the same or do not overlap. */
  predicate Apart(a: nat, b: nat, size: nat) { a == b || a + size <= b || b + size <= a }

  /** Byte p after the first k bytes at a and b have been exchanged. */
  ghost function Exchanged(m: seq<byte>, a: nat, b: nat, k: nat, p: nat): byte
    requires a + k <= |m| && b + k <= |m| && p < |m|
  {
    if a <= p < a + k then m[p - a + b] else if b <= p < b + k then m[p - b + a] else m[p]
  }

  /** swap_ranges: exchanges two stretches byte by byte. */
  method SwapRanges(db: array<byte>, a: nat, b: nat, size: nat)
    requires a + size <= db.Length && b + size <= db.Length
    modifies db
    ensures Apart(a, b, size) ==>
      forall p :: 0 <= p < db.Length ==> db[p] == Exchanged(old(db[..]), a, b, size, p)
    ensures forall p :: 0 <= p < db.Length && !(a <= p < a + size) && !(b <= p < b + size) ==> db[p] == old(db[p])
  {
    ghost var was := db[..];
    for k := 0 to size
      invariant forall p :: 0 <= p < db.Length && !(a <= p < a + size) && !(b <= p < b + size) ==> db[p] == was[p]
      invariant Apart(a, b, size) ==> forall p :: 0 <= p < db.Length ==> db[p] == Exchanged(was, a, b, k, p)
    {
      db[a + k], db[b + k] := db[b + k], db[a + k];
    }
  }

  /** Exchanges what is at two positions: two entries, if the positions have not wrapped. */
  method DBswap(db: array<byte>, l: nat, r: nat, ghost n: nat, size: nat)
    requires Flat(db, n, size) && l < n && r < n
    modifies db
    ensures Fits(n, size) ==> Entries(db, n, size) == Swap(old(Entries(db, n, size)), l, r)
    ensures forall p :: 0 <= p < db.Length ==>
      db[p] == old(db[p])
      || Position(l, size) <= p < Position(l, size) + size || Position(r, size) <= p < Position(r, size) + size
    ensures Position(l, size) + size <= db.Length && Position(r, size) + size <= db.Length
    ensures Apart(Position(l, size), Position(r, size), size) ==>
      forall p :: 0 <= p < db.Length ==> db[p] == Exchanged(old(db[..]), Position(l, size), Position(r, size), size, p)
  {
    hide Offset, Slots, Fits, Swap, Position, Exchanged, Apart;
    PositionInside(db, n, size, l);
    PositionInside(db, n, size, r);
    var indexl, indexr := Position(l, size), Position(r, size);
    ghost var was := db[..];
    SwapRanges(db, indexl, indexr, size);
    if Fits(n, size) {
      SwapEntries(was, db[..], l, r, n, size);
    }
  }

  /** Entry o of the one is where entry i of the other is. */
  lemma EntryMoved(m: seq<byte>, m': seq<byte>, l: nat, r: nat, n: nat, size: nat, i: nat, o: nat)
    requires |m| == |m'| == Offset(n, size) && l < n && r < n && i < n
    requires Offset(l, size) + size <= |m| && Offset(r, size) + size <= |m|
    requires forall p :: 0 <= p < |m| ==> m'[p] == Exchanged(m, Offset(l, size), Offset(r, size), size, p)
    requires o == if i == l then r else if i == r then l else i
    ensures Slots(m', 0, n, size)[i] == Slots(m, 0, n, size)[o]
  {
    hide Offset, Slots;
    SlotAt(m', n, i, size);
    SlotAt(m, n, o, size);
    if i != l { SlotsApart(i, l, size); }
    if i != r { SlotsApart(i, r, size); }
    var to, from := Offset(i, size), Offset(o, size);
    forall k | to <= k < to + size ensures m'[k] == m[k - to + from] {
      assert m'[k] == Exchanged(m, Offset(l, size), Offset(r, size), size, k);
    }
    SlicesAgree(m', to, m, from, size);
  }

  lemma EntriesExchanged(m: seq<byte>, m': seq<byte>, l: nat, r: nat, n: nat, size: nat)
    requires |m| == |m'| == Offset(n, size) && l < n && r < n
    requires Offset(l, size) + size <= |m| && Offset(r, size) + size <= |m|
    requires forall p :: 0 <= p < |m| ==> m'[p] == Exchanged(m, Offset(l, size), Offset(r, size), size, p)
    ensures Slots(m', 0, n, size) == Swap(Slots(m, 0, n, size), l, r)
  {
    hide Offset, Slots, Swap, Exchanged;
    var swapped := Swap(Slots(m, 0, n, size), l, r);
    SwapAt(Slots(m, 0, n, size), l, r);
    forall i | 0 <= i < n ensures Slots(m', 0, n, size)[i] == swapped[i] {
      EntryMoved(m, m', l, r, n, size, i, if i == l then r else if i == r then l else i);
    }
  }

  lemma SwapEntries(m: seq<byte>, m': seq<byte>, l: nat, r: nat, n: nat, size: nat)
    requires |m| == |m'| == Offset(n, size) && l < n && r < n && Fits(n, size)
    requires Position(l, size) + size <= |m| && Position(r, size) + size <= |m|
    requires Apart(Position(l, size), Position(r, size), size) ==>
      forall p :: 0 <= p < |m| ==> m'[p] == Exchanged(m, Position(l, size), Position(r, size), size, p)
    ensures Slots(m', 0, n, size) == Swap(Slots(m, 0, n, size), l, r)
  {
    hide Offset, Slots, Swap, Exchanged, Position, Fits;
    FitsIff(n, size);
    if l != r { SlotsApart(l, r, size); }
    EntriesExchanged(m, m', l, r, n, size);
  }

  // ----- the loop of quicksort

  /** Entries l, ..., i-1 have been compared with the pivot, was[r]: those before cnt are
      not above it, the others are; the pivot itself is moved last. */
  ghost predicate Scanned(was: seq<Entry>, now: seq<Entry>, l: nat, cnt: nat, i: nat, r: nat) {
    && l <= cnt <= i <= r + 1 <= |was| == |now|
    && Permuted(was, now, l, r + 1)
    && (if i <= r then now[r] == was[r] else l < cnt && now[cnt - 1] == was[r])
    && (forall k :: l <= k < cnt ==> Value(now[k]) <= Value(was[r]))
    && (forall k :: cnt <= k < i ==> Value(now[k]) > Value(was[r]))
  }

  /** The pivot ends at cnt - 1, nothing above it in front, everything above it behind. */
  ghost predicate Partitioned(was: seq<Entry>, now: seq<Entry>, l: nat, cnt: nat, r: nat) {
    && l < cnt <= r + 1 <= |was| == |now|
    && Permuted(was, now, l, r + 1)
    && now[cnt - 1] == was[r]
    && (forall k :: l <= k < cnt ==> Value(now[k]) <= Value(now[cnt - 1]))
    && (forall k :: cnt <= k <= r ==> Value(now[k]) > Value(now[cnt - 1]))
  }

  lemma ScanStarts(was: seq<Entry>, l: nat, r: nat)
    requires l <= r < |was|
    ensures Scanned(was, was, l, l, l, r)
  {
    PermutedItself(was, l, r + 1);
  }

  lemma ScanKeeps(was: seq<Entry>, now: seq<Entry>, l: nat, cnt: nat, i: nat, r: nat)
    requires Scanned(was, now, l, cnt, i, r) && i <= r && Value(now[i]) > Value(now[r])
    ensures Scanned(was, now, l, cnt, i + 1, r)
  {
    hide Permuted, Value;
  }

  lemma ScanMoves(was: seq<Entry>, now: seq<Entry>, l: nat, cnt: nat, i: nat, r: nat)
    requires Scanned(was, now, l, cnt, i, r) && i <= r && Value(now[i]) <= Value(now[r])
    ensures Scanned(was, Swap(now, cnt, i), l, cnt + 1, i + 1, r)
  {
    hide Permuted, Value, Swap;
    SwapAt(now, cnt, i);
    SwapPermutes(now, cnt, i, l, r + 1);
    PermutedTwice(was, now, Swap(now, cnt, i), l, r + 1);
  }

  lemma ScanEnds(was: seq<Entry>, now: seq<Entry>, l: nat, cnt: nat, r: nat)
    requires Scanned(was, now, l, cnt, r + 1, r)
    ensures Partitioned(was, now, l, cnt, r)
  {
    hide Permuted, Value;
  }

  /** Entries not above the pivot, the last one, are moved to the front in turn. Whether
      the positions wrap or not, no byte from position 2^32 + size - 1 on is touched. */
  method Partition(db: array<byte>, l: nat, r: nat, ghost n: nat, size: nat) returns (cnt: nat)
    requires Flat(db, n, size) && l < r < n
    modifies db
    ensures l < cnt <= r + 1
    ensures Fits(n, size) ==> Partitioned(old(Entries(db, n, size)), Entries(db, n, size), l, cnt, r)
    ensures forall p :: 0xffff_ffff + size <= p < db.Length ==> db[p] == old(db[p])
  {
    hide Offset, Slots, Value, Memcmp, Permuted, Entries, Swap, Scanned, Partitioned, Fits, Position;
    ghost var was := Entries(db, n, size);
    var pivot := r;
    cnt := l;
    ScanStarts(was, l, r);
    for i := l to r + 1
      invariant l <= cnt <= i && (i == r + 1 ==> l < cnt)
      invariant Fits(n, size) ==> Scanned(was, Entries(db, n, size), l, cnt, i, r)
      invariant forall p :: 0xffff_ffff + size <= p < db.Length ==> db[p] == old(db[p])
    {
      ghost var before := Entries(db, n, size);
      MemcmpIsValueOrder(before[i], before[pivot]);
      PositionInside(db, n, size, cnt);
      PositionInside(db, n, size, i);
      var c := CompareDBEntries(db, i, pivot, n, size);
      if Fits(n, size) {
        if c <= 0 { ScanMoves(was, before, l, cnt, i, r); } else { ScanKeeps(was, before, l, cnt, i, r); }
      }
      if c <= 0 {
        DBswap(db, cnt, i, n, size);
        cnt := cnt + 1;
      }
    }
    if Fits(n, size) {
      ScanEnds(was, Entries(db, n, size), l, cnt, r);
    }
  }

  lemma PermutedItself(s: seq<Entry>, lo: nat, hi: nat)
    requires lo <= hi <= |s|
    ensures Permuted(s, s, lo, hi)
  {
  }

  lemma SwapAt<T>(s: seq<T>, i: nat, j: nat)
    requires i < |s| && j < |s|
    ensures Swap(s, i, j)[i] == s[j] && Swap(s, i, j)[j] == s[i]
    ensures forall k :: 0 <= k < |s| && k != i && k != j ==> Swap(s, i, j)[k] == s[k]
  {
  }

  /** Sorts entries l, ..., r in place, if no position wraps. The indices are int32_t. */
  method Quicksort(db: array<byte>, l: nat, r: int, ghost n: nat, size: nat)
    requires Flat(db, n, size) && n < 0x8000_0000 && l <= n && -1 <= r < n && l <= r + 1
    modifies db
    ensures Fits(n, size) ==> Permuted(old(Entries(db, n, size)), Entries(db, n, size), l, r + 1)
    ensures Fits(n, size) ==> Sorted(Entries(db, n, size), l, r + 1)
    ensures forall p :: 0xffff_ffff + size <= p < db.Length ==> db[p] == old(db[p])
    decreases r - l
  {
    hide Offset, Slots, Value, Permuted, Entries, Sorted, Partitioned, Fits;
    ghost var was := Entries(db, n, size);
    PermutedItself(was, l, r + 1);
    if l >= r {
      SortedShort(was, l, r + 1);
      return;
    }
    var cnt: int := Partition(db, l, r, n, size);
    ghost var split := Entries(db, n, size);
    Quicksort(db, l, cnt - 2, n, size);
    ghost var left := Entries(db, n, size);
    Quicksort(db, cnt, r, n, size);
    if Fits(n, size) {
      SortedBySplit(was, split, left, Entries(db, n, size), l, cnt, r + 1);
    }
  }

  lemma SortedShort(s: seq<Entry>, lo: nat, hi: nat)
    requires hi <= |s| && hi <= lo + 1
    ensures Sorted(s, lo, hi)
  {
  }

  /** Below the pivot sorted, the pivot, above it sorted: the whole stretch is sorted. */
  lemma SortedBySplit(was: seq<Entry>, split: seq<Entry>, left: seq<Entry>, now: seq<Entry>, lo: nat, cnt: nat, hi: nat)
    requires lo < cnt <= hi <= |was|
    requires Partitioned(was, split, lo, cnt, hi - 1)
    requires |left| == |now| == |was| && Permuted(split, left, lo, cnt - 1) && Permuted(left, now, cnt, hi)
    requires Sorted(left, lo, cnt - 1) && Sorted(now, cnt, hi)
    ensures Permuted(was, now, lo, hi) && Sorted(now, lo, hi)
  {
    hide Value, Permuted;
    PermutedWider(split, left, lo, cnt - 1, lo, hi);
    PermutedWider(left, now, cnt, hi, lo, hi);
    PermutedTwice(was, split, left, lo, hi);
    PermutedTwice(was, left, now, lo, hi);
    var p := Value(split[cnt - 1]);
    forall k | lo <= k < cnt ensures now[k] == left[k] && Value(now[k]) <= p {
      PermutedOutside(left, now, cnt, hi, k);
      if k < cnt - 1 {
        var k' := PermutedFrom(split, left, lo, cnt - 1, k);
      } else {
        PermutedOutside(split, left, lo, cnt - 1, k);
      }
    }
    forall k | cnt <= k < hi ensures Value(now[k]) > p {
      var k' := PermutedFrom(left, now, cnt, hi, k);
      PermutedOutside(split, left, lo, cnt - 1, k');
    }
    PermutedOutside(split, left, lo, cnt - 1, cnt - 1);
    assert Value(now[cnt - 1]) == p;
  }

  // ----- where positions wrap

  /** A database of zero entries but for the first, whose last byte is one. */
  function OneAbove(n: nat, size: nat): (m: seq<byte>)
    requires n > 0 && size > 0
    ensures |m| == Offset(n, size) >= size && m[size - 1] == 1
    ensures forall p :: 0 <= p < |m| && p != size - 1 ==> m[p] == 0
  {
    SlotFits(0, n, size);
    Zeros(Offset(n, size))[size - 1 := 1]
  }

  lemma {:induction false} ZeroValue(n: nat)
    ensures Value(Zeros(n)) == 0
    decreases n
  {
    if n > 0 {
      ZeroValue(n - 1);
      assert Zeros(n)[1..] == Zeros(n - 1);
    }
  }

  lemma OneAboveEntry(n: nat, size: nat, i: nat)
    requires 0 < i < n && size > 0
    ensures Slots(OneAbove(n, size), 0, n, size)[i] == Zeros(size)
  {
    hide Offset, Slots;
    SlotAt(OneAbove(n, size), n, i, size);
    Scaled(1, i - 1, size);
    OffsetNext(0, size);
  }

  /** Where the last position wraps, sorting fails on some database: the last byte is never
      touched, and the greatest entry, which is the first one, cannot get there. */
  lemma WrapBreaksSort(n: nat, size: nat, m': seq<byte>)
    requires n > 0 && size > 0 && !Fits(n, size) && |m'| == Offset(n, size)
    requires forall p :: 0xffff_ffff + size <= p < |m'| ==> m'[p] == OneAbove(n, size)[p]
    ensures var s, t := Slots(OneAbove(n, size), 0, n, size), Slots(m', 0, n, size);
      !(Permuted(s, t, 0, n) && Sorted(t, 0, n))
  {
    hide Offset, Slots, Value;
    var m := OneAbove(n, size);
    var s, t, end := Slots(m, 0, n, size), Slots(m', 0, n, size), Offset(n - 1, size);
    OffsetNext(n - 1, size);
    OffsetNext(0, size);
    SlotAt(m, n, 0, size);
    SlotAt(m', n, n - 1, size);
    assert s[0][size - 1] == m[size - 1] == 1;
    assert t[n - 1][size - 1] == m'[end + size - 1] == m[end + size - 1] == 0;
    if Permuted(s, t, 0, n) && Sorted(t, 0, n) {
      PermutedBack(s, t, 0, n);
      var k := PermutedFrom(t, s, 0, n, 0);
      var o := PermutedFrom(s, t, 0, n, n - 1);
      OneAboveEntry(n, size, o);
      ZeroValue(size);
      MemcmpIsValueOrder(t[n - 1], s[0]);
      assert false;
    }
  }

  lemma PermutedBack(s: seq<Entry>, t: seq<Entry>, lo: nat, hi: nat)
    requires Permuted(s, t, lo, hi)
    ensures Permuted(t, s, lo, hi)
  {
  }
}
