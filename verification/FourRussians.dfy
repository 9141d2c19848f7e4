/** Building the Four-Russians tables: for each group all combinations of its rows, in
    Gray-code order, one block exclusive or per table entry. */
module FourRussians {
  import opened Bits
  import opened ByteStrings
  import opened Tables
  import opened Helper

  // ----- the Gray code

  function Gray(n: nat): nat { Xor(n, n / 2) }

  /** Position of the lowest set bit. */
  function LowBit(n: nat): nat
    requires n > 0
  {
    if n % 2 == 1 then 0 else 1 + LowBit(n / 2)
  }

  /** The number whose Gray code is g. */
  function Ungray(g: nat): nat {
    if g == 0 then 0 else Xor(g, Ungray(g / 2))
  }

  lemma GrayHalves(n: nat)
    ensures Gray(n) / 2 == Gray(n / 2)
    ensures Gray(n) % 2 == if n % 2 != (n / 2) % 2 then 1 else 0
  {
    XorHalves(n, n / 2);
  }

  /** Consecutive codes differ in exactly one bit, the lowest set bit of the larger number. */
  lemma {:induction false} GrayStep(n: nat)
    requires n > 0
    ensures Xor(Gray(n), Gray(n - 1)) == Pow2(LowBit(n))
    decreases n
  {
    hide Xor, Gray;
    GrayHalves(n);
    GrayHalves(n - 1);
    XorHalves(Gray(n), Gray(n - 1));
    var d := Xor(Gray(n), Gray(n - 1));
    if n % 2 == 1 {
      XorSelf(Gray(n / 2));
      SameHalves(d, 1);
    } else {
      GrayStep(n / 2);
      assert (n - 1) / 2 == n / 2 - 1;
      SameHalves(d, Pow2(LowBit(n)));
    }
  }

  lemma {:induction false} BitOfPower(b: nat, j: nat)
    ensures Bit(Pow2(b), j) <==> j == b
    decreases b
  {
    if b > 0 && j > 0 {
      BitOfPower(b - 1, j - 1);
    } else if b == 0 && j > 0 {
      BitOfZero(j - 1);
    }
  }

  lemma {:induction false} BitOfZero(j: nat)
    ensures !Bit(0, j)
    decreases j
  {
    if j > 0 {
      BitOfZero(j - 1);
    }
  }

  /** The same, bit by bit. */
  lemma GrayOneBit(n: nat, j: nat)
    requires n > 0
    ensures Bit(Gray(n), j) != Bit(Gray(n - 1), j) <==> j == LowBit(n)
  {
    XorBit(Gray(n), Gray(n - 1), j);
    GrayStep(n);
    BitOfPower(LowBit(n), j);
  }

  lemma {:induction false} LowBitBound(n: nat, k: nat)
    requires 0 < n < Pow2(k)
    ensures LowBit(n) < k
    decreases k
  {
    if n % 2 == 0 {
      LowBitBound(n / 2, k - 1);
    }
  }

  lemma GrayBound(n: nat, k: nat)
    requires n < Pow2(k)
    ensures Gray(n) < Pow2(k)
  {
    XorBound(n, n / 2, k);
  }

  lemma {:induction false} UngrayGray(n: nat)
    ensures Ungray(Gray(n)) == n
    decreases n
  {
    GrayHalves(n);
    if n > 0 {
      UngrayGray(n / 2);
      XorZero(0);
      XorAssoc(n, n / 2, n / 2);
      XorSelf(n / 2);
      XorZero(n);
    }
  }

  lemma {:induction false} GrayUngray(g: nat, k: nat)
    requires g < Pow2(k)
    ensures Ungray(g) < Pow2(k) && Gray(Ungray(g)) == g
    decreases k
  {
    if g == 0 {
      XorZero(0);
    } else {
      GrayUngray(g / 2, k - 1);
      var u := Ungray(g / 2);
      XorBound(g, u, k);
      XorHalfOf(g, u);
    }
  }

  /** If g/2 is the Gray code of u, then g ^ u halves to u. */
  lemma XorHalfOf(g: nat, u: nat)
    requires Gray(u) == g / 2
    ensures Xor(g, u) / 2 == u && Gray(Xor(g, u)) == g
  {
    var h := u / 2;
    XorHalves(g, u);
    XorAssoc(u, h, h);
    XorSelf(h);
    XorZero(u);
    assert Xor(g, u) / 2 == u;
    XorAssoc(g, u, u);
    XorSelf(u);
    XorZero(g);
  }

  /** Counting through 0, ..., 2^k - 1 visits every code below 2^k exactly once. */
  lemma GrayVisitsOnce(g: nat, k: nat)
    requires g < Pow2(k)
    ensures Ungray(g) < Pow2(k) && Gray(Ungray(g)) == g
    ensures forall n: nat :: Gray(n) == g ==> n == Ungray(g)
  {
    GrayUngray(g, k);
    forall n: nat | Gray(n) == g ensures n == Ungray(g) {
      UngrayGray(n);
    }
  }

  // ----- one table

  /** The rows of the group that begins at row `first`. */
  function RowsAt(m: seq<byte>, base: nat, first: nat, k: nat, size: nat): (r: seq<Block>)
    requires base + Offset(first, size) + Offset(k, size) <= |m|
    ensures |r| == k && Rect(r, size)
  {
    Slots(m, base + Offset(first, size), k, size)
  }

  /** The inner search: the row that a code difference of one bit stands for. */
  method FindRow(diff: nat, k: nat, ghost b: nat) returns (offset: nat)
    requires b < k && diff == Pow2(b)
    ensures offset == k - 1 - b
  {
    offset := k - 1;
    var j, end := 1, Pow2(k);
    ghost var e := 0;
    PowerMonotone(b, k);
    PowerMonotone(0, b);
    while j < end
      invariant e <= b && j == Pow2(e) <= diff && offset == k - 1 - e
      decreases b - e
    {
      PowerMonotone(e, b);
      if j == diff { break; }
      PowerMonotone(e + 1, b);
      offset := offset - 1;
      j := 2 * j;
      e := e + 1;
    }
    PowerMonotone(e, b);
  }

  /** One step of the table: copy the entry of the previous code, exclusive-or one row. */
  method NextEntry(predb: array<byte>, to: nat, from: nat, db: array<byte>, row: nat, size: nat)
    requires to + size <= predb.Length && from + size <= predb.Length && row + size <= db.Length && predb != db
    requires to + size <= from || from + size <= to
    modifies predb
    ensures predb[to..to + size] == XorBytes(old(predb[from..from + size]), db[row..row + size])
    ensures forall p :: 0 <= p < predb.Length && !(to <= p < to + size) ==> predb[p] == old(predb[p])
  {
    hide XorByte, XorBytes, XorInto;
    ghost var was, entry := predb[..], predb[from..from + size];
    CopyWithin(predb, to, from, size);
    ghost var mid, r := predb[..], db[row..row + size];
    XorFullBlocks(predb, to, db, row, size);
    XorIntoRead(mid, to, r);
    assert mid[to..to + size] == entry;
    assert forall p :: 0 <= p < predb.Length ==> predb[p] == XorInto(mid, to, r)[p];
  }

  /** memcpy within one buffer. */
  method CopyWithin(mem: array<byte>, to: nat, from: nat, size: nat)
    requires to + size <= mem.Length && from + size <= mem.Length
    requires to + size <= from || from + size <= to
    modifies mem
    ensures mem[to..to + size] == old(mem[from..from + size])
    ensures forall p :: 0 <= p < mem.Length && !(to <= p < to + size) ==> mem[p] == old(mem[p])
  {
    forall p | to <= p < to + size {
      mem[p] := mem[p - to + from];
    }
  }

  /** The entries of the first n Gray codes are in place. */
  ghost predicate Filled(m: seq<byte>, at: nat, rows: seq<Block>, n: nat, size: nat)
    requires Rect(rows, size)
  {
    forall i: nat :: i < n ==>
      && at + Offset(Gray(i), size) + size <= |m|
      && Slot(m, at, Gray(i), size) == Combination(rows, Gray(i), size)
  }

  /** Fills the table of one group, whose first entry is still zero. */
  method FillTable(predb: array<byte>, at: nat, db: array<byte>, base: nat, first: nat, k: nat, size: nat)
    requires base + Offset(first, size) + Offset(k, size) <= db.Length && predb != db
    requires at + Offset(Pow2(k), size) <= predb.Length
    requires forall p :: at <= p < at + size && p < predb.Length ==> predb[p] == 0
    modifies predb
    ensures Slots(predb[..], at, Pow2(k), size) == TableOf(RowsAt(db[..], base, first, k, size), size)
    ensures forall p :: 0 <= p < predb.Length && !(at <= p < at + Offset(Pow2(k), size)) ==> predb[p] == old(predb[p])
  {
    hide Offset, Filled, Slots, RowsAt, Gray, TableOf, Pow2;
    ghost var was, src := predb[..], db[..];
    ghost var rows := RowsAt(src, base, first, k, size);
    var graycode := 0;
    FirstEntry(was, at, rows, k, size);
    for groupelement := 1 to Pow2(k)
      invariant db[..] == src
      invariant graycode == Gray(groupelement - 1)
      invariant Filled(predb[..], at, rows, groupelement, size)
      invariant forall p :: 0 <= p < predb.Length && !(at <= p < at + Offset(Pow2(k), size)) ==> predb[p] == was[p]
    {
      graycode := FillEntry(predb, at, db, base, first, k, size, groupelement, graycode);
    }
    TableFilled(predb[..], at, rows, k, size);
  }

  /** The body of its loop: the entry of one more Gray code. */
  method FillEntry(predb: array<byte>, at: nat, db: array<byte>, base: nat, first: nat, k: nat, size: nat,
                   groupelement: nat, prevgraycode: nat) returns (graycode: nat)
    requires base + Offset(first, size) + Offset(k, size) <= db.Length && predb != db
    requires at + Offset(Pow2(k), size) <= predb.Length
    requires 0 < groupelement < Pow2(k) && prevgraycode == Gray(groupelement - 1)
    requires Filled(predb[..], at, RowsAt(db[..], base, first, k, size), groupelement, size)
    modifies predb
    ensures graycode == Gray(groupelement)
    ensures Filled(predb[..], at, RowsAt(db[..], base, first, k, size), groupelement + 1, size)
    ensures forall p :: 0 <= p < predb.Length && !(at <= p < at + Offset(Pow2(k), size)) ==> predb[p] == old(predb[p])
  {
    hide Offset, Filled, Slots, RowsAt, Xor, XorBytes, Combination, LowBit, Pow2;
    ghost var rows := RowsAt(db[..], base, first, k, size);
    graycode := Xor(groupelement, groupelement / 2);
    var diffgraycode := Xor(graycode, prevgraycode);
    GrayStep(groupelement);
    LowBitBound(groupelement, k);
    var offset := FindRow(diffgraycode, k, LowBit(groupelement));
    CodesFit(groupelement, k, size);
    RowFits(db[..], base, first, offset, k, size);
    ghost var before, row := predb[..], rows[offset];
    var to, from := at + Offset(graycode, size), at + Offset(prevgraycode, size);
    NextEntry(predb, to, from, db, base + Offset(first + offset, size), size);
    assert predb[..][to..to + size] == XorBytes(before[from..from + size], row);
    EntryFilled(before, predb[..], at, rows, groupelement, k, size);
  }

  lemma FirstEntry(m: seq<byte>, at: nat, rows: seq<Block>, k: nat, size: nat)
    requires Rect(rows, size) && at + Offset(Pow2(k), size) <= |m|
    requires forall p :: at <= p < at + size && p < |m| ==> m[p] == 0
    ensures Gray(0) == 0 && Filled(m, at, rows, 1, size)
  {
    XorZero(0);
    SlotFits(0, Pow2(k), size);
    CombinationZero(rows, size);
    assert Slot(m, at, 0, size) == Zeros(size);
  }

  lemma CodesFit(n: nat, k: nat, size: nat)
    requires 0 < n < Pow2(k)
    ensures Gray(n) < Pow2(k) && Gray(n - 1) < Pow2(k) && Gray(n) != Gray(n - 1)
    ensures Offset(Gray(n), size) + size <= Offset(Pow2(k), size)
    ensures Offset(Gray(n - 1), size) + size <= Offset(Pow2(k), size)
    ensures Offset(Gray(n), size) + size <= Offset(Gray(n - 1), size)
         || Offset(Gray(n - 1), size) + size <= Offset(Gray(n), size)
  {
    hide Offset, Gray, Ungray, Pow2;
    GrayBound(n, k);
    GrayBound(n - 1, k);
    UngrayGray(n);
    UngrayGray(n - 1);
    SlotFits(Gray(n), Pow2(k), size);
    SlotFits(Gray(n - 1), Pow2(k), size);
    SlotsApart(Gray(n), Gray(n - 1), size);
  }

  lemma RowFits(m: seq<byte>, base: nat, first: nat, offset: nat, k: nat, size: nat)
    requires base + Offset(first, size) + Offset(k, size) <= |m| && offset < k
    ensures base + Offset(first + offset, size) + size <= |m|
    ensures RowsAt(m, base, first, k, size)[offset]
         == m[base + Offset(first + offset, size)..base + Offset(first + offset, size) + size]
  {
    Scaled(first, offset, size);
    SlotFits(offset, k, size);
  }

  /** Entry n of the sequence is filled from entry n-1, and the earlier ones stay. */
  lemma EntryFilled(m: seq<byte>, m': seq<byte>, at: nat, rows: seq<Block>, n: nat, k: nat, size: nat)
    requires Rect(rows, size) && |rows| == k && 0 < n < Pow2(k)
    requires |m| == |m'| && at + Offset(Pow2(k), size) <= |m|
    requires Filled(m, at, rows, n, size)
    requires LowBit(n) < k && Offset(Gray(n), size) + size <= Offset(Pow2(k), size)
    requires Offset(Gray(n - 1), size) + size <= Offset(Pow2(k), size)
    requires Slot(m', at, Gray(n), size) == XorBytes(Slot(m, at, Gray(n - 1), size), rows[k - 1 - LowBit(n)])
    requires forall p :: 0 <= p < |m| && !(at + Offset(Gray(n), size) <= p < at + Offset(Gray(n), size) + size) ==> m'[p] == m[p]
    ensures Filled(m', at, rows, n + 1, size)
  {
    hide Combination, XorBytes, Offset, Xor, LowBit;
    GrayCombination(rows, n, size);
    forall i: nat | i < n
      ensures at + Offset(Gray(i), size) + size <= |m'| && Slot(m', at, Gray(i), size) == Combination(rows, Gray(i), size)
    {
      UngrayGray(i);
      UngrayGray(n);
      SlotsApart(Gray(i), Gray(n), size);
      SliceSame(m, m', at + Offset(Gray(i), size), at + Offset(Gray(i), size) + size);
    }
  }

  /** The combination for a Gray code is that of the previous one and one row more. */
  lemma GrayCombination(rows: seq<Block>, n: nat, size: nat)
    requires Rect(rows, size) && n > 0 && LowBit(n) < |rows|
    ensures Combination(rows, Gray(n), size)
         == XorBytes(Combination(rows, Gray(n - 1), size), rows[|rows| - 1 - LowBit(n)])
  {
    hide Combination, XorBytes;
    var b, prev := LowBit(n), Gray(n - 1);
    GrayStep(n);
    CombinationOneBit(rows, b, size);
    XorAssoc(Gray(n), prev, prev);
    XorSelf(prev);
    XorZero(Gray(n));
    XorComm(Pow2(b), prev);
    CombinationXor(rows, prev, Pow2(b), size);
    assert Gray(n) == Xor(prev, Pow2(b));
  }

  lemma TableFilled(m: seq<byte>, at: nat, rows: seq<Block>, k: nat, size: nat)
    requires Rect(rows, size) && |rows| == k && at + Offset(Pow2(k), size) <= |m|
    requires Filled(m, at, rows, Pow2(k), size)
    ensures Slots(m, at, Pow2(k), size) == TableOf(rows, size)
  {
    forall g | 0 <= g < Pow2(k) ensures Slots(m, at, Pow2(k), size)[g] == TableOf(rows, size)[g] {
      GrayVisitsOnce(g, k);
      SlotFits(g, Pow2(k), size);
    }
  }

  // ----- all tables

  /** The rows of group g of k rows each. */
  function GroupAt(m: seq<byte>, base: nat, g: nat, n: nat, k: nat, size: nat): (r: seq<Block>)
    requires g < n && base + Offset(n * k, size) <= |m|
    ensures |r| == k && Rect(r, size)
  {
    GroupFits(g, n, k, size);
    RowsAt(m, base, g * k, k, size)
  }

  lemma GroupFits(g: nat, n: nat, k: nat, size: nat)
    requires g < n
    ensures Offset(g * k, size) + Offset(k, size) <= Offset(n * k, size)
  {
    hide Offset;
    MultiplesApart(g, n, k);
    Scaled(g * k, k, size);
    Scaled(g * k + k, n * k - (g * k + k), size);
  }

  /** Tables of the first n groups are built; the rest of the buffer is still zero. */
  ghost predicate Built(m: seq<byte>, src: seq<byte>, base: nat, n: nat, groups: nat, k: nat, size: nat)
    requires base + Offset(groups * k, size) <= |src|
  {
    && |m| == Offset(groups, Offset(Pow2(k), size))
    && n <= groups
    && (forall g :: 0 <= g < n ==>
          && Offset(g, Offset(Pow2(k), size)) + Offset(Pow2(k), size) <= |m|
          && TableAt(m, 0, g, Pow2(k), size) == TableOf(GroupAt(src, base, g, groups, k, size), size))
    && (forall p :: Offset(n, Offset(Pow2(k), size)) <= p < |m| ==> m[p] == 0)
  }

  lemma BuiltNext(m: seq<byte>, m': seq<byte>, src: seq<byte>, base: nat, n: nat, groups: nat, k: nat, size: nat)
    requires base + Offset(groups * k, size) <= |src| && n < groups
    requires Built(m, src, base, n, groups, k, size) && |m'| == |m|
    requires Offset(n, Offset(Pow2(k), size)) + Offset(Pow2(k), size) <= |m|
    requires TableAt(m', 0, n, Pow2(k), size) == TableOf(GroupAt(src, base, n, groups, k, size), size)
    requires var w := Offset(Pow2(k), size);
      forall p :: 0 <= p < |m| && !(Offset(n, w) <= p < Offset(n, w) + w) ==> m'[p] == m[p]
    ensures Built(m', src, base, n + 1, groups, k, size)
  {
    hide TableOf, GroupAt;
    var w := Offset(Pow2(k), size);
    OffsetNext(n, w);
    forall g | 0 <= g < n
      ensures TableAt(m', 0, g, Pow2(k), size) == TableAt(m, 0, g, Pow2(k), size)
    {
      SlotsApart(g, n, w);
      SlotsSame(m, m', Offset(g, w), Pow2(k), size);
    }
  }

  /** Number of groups of k blocks, the last one possibly incomplete. */
  function GroupsOf(blocks: nat, k: nat): nat
    requires k > 0
  {
    (blocks + k - 1) / k
  }

  /** They just cover the blocks. */
  lemma GroupsOfIs(blocks: nat, k: nat)
    requires k > 0
    ensures blocks <= GroupsOf(blocks, k) * k < blocks + k
  {
    DestIndex(blocks, k);
  }

  /** The tables of the first n groups of the raw database. */
  ghost function TablesOf(m: seq<byte>, base: nat, n: nat, k: nat, size: nat): (r: seq<Table>)
    requires base + Offset(n * k, size) <= |m|
    ensures |r| == n
  {
    seq(n, g requires 0 <= g < n => TableOf(GroupAt(m, base, g, n, k, size), size))
  }

  lemma AllBuilt(m: seq<byte>, src: seq<byte>, base: nat, n: nat, k: nat, size: nat)
    requires base + Offset(n * k, size) <= |src|
    requires Built(m, src, base, n, n, k, size)
    ensures Groups(m, 0, n, Pow2(k), size) == TablesOf(src, base, n, k, size)
  {
    hide TableOf, GroupAt, Slots;
    forall g | 0 <= g < n ensures Groups(m, 0, n, Pow2(k), size)[g] == TablesOf(src, base, n, k, size)[g] {
      SlotFits(g, n, Offset(Pow2(k), size));
    }
  }

  /** Builds the preprocessed database from the raw one. The rows needed to complete the
      last group are read behind the last block; defined tells whether the buffer goes that
      far, and where it does not, nothing is said of the result. */
  method Preprocess(db: array<byte>, base: nat, blocks: nat, k: nat, size: nat) returns (predb: array<byte>, defined: bool)
    requires k > 0
    ensures fresh(predb) && db[..] == old(db[..])
    ensures defined <==> base + Offset(GroupsOf(blocks, k) * k, size) <= db.Length
    ensures predb.Length == Offset(GroupsOf(blocks, k), Offset(Pow2(k), size))
    ensures defined ==>
      Groups(predb[..], 0, GroupsOf(blocks, k), Pow2(k), size) == TablesOf(db[..], base, GroupsOf(blocks, k), k, size)
  {
    hide Offset, TableOf, RowsAt, Groups, TablesOf, Built, GroupsOf, Pow2;
    var groups := GroupsOf(blocks, k);
    var groupBytes := Offset(Pow2(k), size);
    predb := new byte[Offset(groups, groupBytes)](_ => 0);
    ghost var src := db[..];
    var extrarows := blocks % k;
    var expand := if extrarows > 0 then k - extrarows else 0;
    var destindex := blocks + expand;
    DestIndex(blocks, k);
    defined := base + Offset(destindex, size) <= db.Length;
    if !defined {
      return;
    }
    NothingBuilt(predb[..], src, base, groups, k, size);
    var i := 0;
    ghost var g := 0;
    while i < destindex
      invariant db[..] == src
      invariant g <= groups && i == g * k
      invariant Built(predb[..], src, base, g, groups, k, size)
      decreases groups - g
    {
      GroupBelow(g, groups, k);
      var currentGroup := i / k;
      BuildNext(predb, db, base, i, currentGroup, groups, k, size);
      i := i + k;
      g := g + 1;
    }
    GroupBelow(g, groups, k);
    AllBuilt(predb[..], src, base, groups, k, size);
  }

  lemma NothingBuilt(m: seq<byte>, src: seq<byte>, base: nat, groups: nat, k: nat, size: nat)
    requires base + Offset(groups * k, size) <= |src|
    requires |m| == Offset(groups, Offset(Pow2(k), size)) && forall p :: 0 <= p < |m| ==> m[p] == 0
    ensures Built(m, src, base, 0, groups, k, size)
  {
  }

  /** One round of the outer loop: the table of one group is built. */
  method BuildNext(predb: array<byte>, db: array<byte>, base: nat, i: nat, g: nat, groups: nat, k: nat, size: nat)
    requires predb != db && base + Offset(groups * k, size) <= db.Length && g < groups && i == g * k
    requires Built(predb[..], db[..], base, g, groups, k, size)
    modifies predb
    ensures Built(predb[..], db[..], base, g + 1, groups, k, size)
  {
    hide Offset, TableOf, RowsAt, Pow2;
    var groupoffset := Offset(g, Offset(Pow2(k), size));
    SlotFits(g, groups, Offset(Pow2(k), size));
    GroupFits(g, groups, k, size);
    SlotFits(0, Pow2(k), size);
    ghost var before := predb[..];
    FillTable(predb, groupoffset, db, base, i, k, size);
    BuiltNext(before, predb[..], db[..], base, g, groups, k, size);
  }

  lemma DestIndex(blocks: nat, k: nat)
    requires k > 0
    ensures blocks + (if blocks % k > 0 then k - blocks % k else 0) == GroupsOf(blocks, k) * k
  {
    var q, r := blocks / k, blocks % k;
    assert blocks == q * k + r;
    if r > 0 {
      assert (q + 1) * k == q * k + k;
      DivUnique(blocks + k - 1, k, q + 1, r - 1);
    } else {
      DivUnique(blocks + k - 1, k, q, k - 1);
    }
  }

  lemma GroupBelow(g: nat, n: nat, k: nat)
    requires k > 0
    ensures g * k < n * k <==> g < n
    ensures (g + 1) * k == g * k + k
    ensures (g * k) / k == g
  {
    DivUnique(g * k, k, g, 0);
    if g < n {
      MultiplesApart(g, n, k);
    } else if n < g {
      MultiplesApart(n, g, k);
    }
  }

  /** For groups of eight and zero rows behind the last block, the file holds exactly the
      tables the protocol looks up. */
  lemma PreprocessedDatabase(m: seq<byte>, base: nat, blocks: nat, size: nat)
    requires base + Offset(GroupsOf(blocks, 8) * 8, size) <= |m|
    requires forall p :: base + Offset(blocks, size) <= p < base + Offset(GroupsOf(blocks, 8) * 8, size) ==> m[p] == 0
    ensures base + Offset(blocks, size) <= |m|
    ensures TablesOf(m, base, GroupsOf(blocks, 8), 8, size) == DatabaseTables(Slots(m, base, blocks, size), size)
  {
    hide Offset, Slots, GroupAt, RawBlock, TableOf;
    var n := GroupsOf(blocks, 8);
    Scaled(blocks, n * 8 - blocks, size);
    var raw := Slots(m, base, blocks, size);
    forall g | 0 <= g < n ensures GroupAt(m, base, g, n, 8, size) == GroupRows(raw, g, size) {
      forall j | 0 <= j < 8 ensures GroupAt(m, base, g, n, 8, size)[j] == RawBlock(raw, 8 * g + j, size) {
        RowInDatabase(m, base, blocks, g, n, j, size);
      }
    }
  }

  /** Row j of group g is block 8g + j, or zero where there is no such block. */
  lemma RowInDatabase(m: seq<byte>, base: nat, blocks: nat, g: nat, n: nat, j: nat, size: nat)
    requires base + Offset(n * 8, size) <= |m| && g < n && j < 8 && blocks <= n * 8
    requires base + Offset(blocks, size) <= |m|
    requires forall p :: base + Offset(blocks, size) <= p < base + Offset(n * 8, size) ==> m[p] == 0
    ensures GroupAt(m, base, g, n, 8, size)[j] == RawBlock(Slots(m, base, blocks, size), 8 * g + j, size)
  {
    hide Offset, RowsAt;
    var i := g * 8 + j;
    GroupFits(g, n, 8, size);
    RowFits(m, base, g * 8, j, 8, size);
    SlotFits(i, n * 8, size);
    var at := base + Offset(i, size);
    if i < blocks {
      SlotFits(i, blocks, size);
    } else {
      Scaled(blocks, i - blocks, size);
      assert m[at..at + size] == Zeros(size);
    }
  }
}
