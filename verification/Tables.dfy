/** Four-Russians tables: what one holds, and what looking up a query in a list of
    them means. The flat bytes of a database file are read as such a list by Groups. */
module Tables {
  import opened Bits
  import opened ByteStrings

  type Block = seq<byte>
  type Table = seq<Block>

  /** The exclusive or of the rows whose bit is set in code; the first row answers
      to the most significant bit. */
  function Combination(rows: seq<Block>, code: nat, size: nat): (r: Block)
    requires Rect(rows, size)
    ensures |r| == size
    decreases |rows|
  {
    if rows == [] then Zeros(size)
    else
      var k := |rows| - 1;
      var rest := Combination(rows[..k], code / 2, size);
      if code % 2 == 1 then XorBytes(rest, rows[k]) else rest
  }

  /** All combinations of a group of rows, indexed by code. */
  function TableOf(rows: seq<Block>, size: nat): (t: Table)
    requires Rect(rows, size)
    ensures |t| == Pow2(|rows|) && Rect(t, size)
  {
    seq(Pow2(|rows|), v requires 0 <= v < Pow2(|rows|) => Combination(rows, v, size))
  }

  lemma {:induction false} CombinationXor(rows: seq<Block>, a: nat, b: nat, size: nat)
    requires Rect(rows, size)
    ensures Combination(rows, Xor(a, b), size)
         == XorBytes(Combination(rows, a, size), Combination(rows, b, size))
    decreases |rows|
  {
    if rows == [] {
      BytesZero(Zeros(size));
    } else {
      var k := |rows| - 1;
      var row, ra, rb := rows[k], Combination(rows[..k], a / 2, size), Combination(rows[..k], b / 2, size);
      XorHalves(a, b);
      CombinationXor(rows[..k], a / 2, b / 2, size);
      if a % 2 == 1 && b % 2 == 1 {
        BytesSwap(ra, row, rb, row);
        BytesSelf(row);
        BytesZero(XorBytes(ra, rb));
      } else if a % 2 == 1 {
        BytesAssoc(ra, row, rb);
        BytesComm(row, rb);
        BytesAssoc(ra, rb, row);
      } else if b % 2 == 1 {
        BytesAssoc(ra, rb, row);
      }
    }
  }

  lemma {:induction false} CombinationZero(rows: seq<Block>, size: nat)
    requires Rect(rows, size)
    ensures Combination(rows, 0, size) == Zeros(size)
    decreases |rows|
  {
    if rows != [] {
      CombinationZero(rows[..|rows| - 1], size);
    }
  }

  /** A code with the single bit b selects row k-1-b. */
  lemma {:induction false} CombinationOneBit(rows: seq<Block>, b: nat, size: nat)
    requires Rect(rows, size) && b < |rows|
    ensures Combination(rows, Pow2(b), size) == rows[|rows| - 1 - b]
    decreases |rows|
  {
    var k := |rows| - 1;
    if b == 0 {
      assert Pow2(0) == 1;
      CombinationZero(rows[..k], size);
      BytesZero(rows[k]);
    } else {
      CombinationOneBit(rows[..k], b - 1, size);
    }
  }

  // ----- looking up a query

  /** A table of a group of eight rows: exclusive or of codes is exclusive or of entries. */
  ghost predicate Linear(t: Table, size: nat) {
    && |t| == 256
    && Rect(t, size)
    && forall a: byte, b: byte :: t[XorByte(a, b)] == XorBytes(t[a], t[b])
  }

  /** Every table has 256 entries of one size. */
  predicate Wide(tables: seq<Table>, size: nat) {
    forall g :: 0 <= g < |tables| ==> |tables[g]| == 256 && Rect(tables[g], size)
  }

  ghost predicate AllLinear(tables: seq<Table>, size: nat) {
    forall g :: 0 <= g < |tables| ==> Linear(tables[g], size)
  }

  /** dest after exclusive-oring into it, for each group, the entry its query byte names. */
  function Lookup(dest: Block, tables: seq<Table>, query: seq<byte>): (r: Block)
    requires Wide(tables, |dest|) && |tables| == |query|
    ensures |r| == |dest|
    decreases |query|
  {
    if query == [] then dest
    else
      var n := |query| - 1;
      XorBytes(Lookup(dest, tables[..n], query[..n]), tables[n][query[n]])
  }

  /** What a query selects from the tables on its own. */
  function Answer(tables: seq<Table>, query: seq<byte>, size: nat): (r: Block)
    requires Wide(tables, size) && |tables| == |query|
    ensures |r| == size
  {
    Lookup(Zeros(size), tables, query)
  }

  lemma LookupNone(dest: Block, tables: seq<Table>, query: seq<byte>)
    requires Wide(tables, |dest|) && |tables| == |query| == 0
    ensures Lookup(dest, tables, query) == dest
  {
  }

  lemma LookupStep(dest: Block, tables: seq<Table>, query: seq<byte>, i: nat)
    requires Wide(tables, |dest|) && |tables| == |query| && i < |query|
    ensures Lookup(dest, tables[..i + 1], query[..i + 1])
         == XorBytes(Lookup(dest, tables[..i], query[..i]), tables[i][query[i]])
  {
    hide XorByte, XorBytes, Rect;
    var t, q := tables[..i + 1], query[..i + 1];
    assert t[..i] == tables[..i] && q[..i] == query[..i];
    assert q != [] && |q| - 1 == i && t[i] == tables[i] && q[i] == query[i];
  }

  lemma {:induction false} LookupConcat(dest: Block, t: seq<Table>, t': seq<Table>, q: seq<byte>, q': seq<byte>)
    requires Wide(t, |dest|) && Wide(t', |dest|) && |t| == |q| && |t'| == |q'|
    ensures Wide(t + t', |dest|)
    ensures Lookup(dest, t + t', q + q') == Lookup(Lookup(dest, t, q), t', q')
    decreases |q'|
  {
    hide Lookup, XorByte, XorBytes, Rect;
    if q' == [] {
      LookupNone(Lookup(dest, t, q), t', q');
      assert t + t' == t && q + q' == q;
    } else {
      var n, u, p := |q'| - 1, t + t', q + q';
      LookupConcat(dest, t, t'[..n], q, q'[..n]);
      assert u[..|q| + n] == t + t'[..n] && p[..|q| + n] == q + q'[..n];
      assert u[..|q| + n + 1] == u && p[..|q| + n + 1] == p && t'[..n + 1] == t' && q'[..n + 1] == q';
      assert u[|q| + n] == t'[n] && p[|q| + n] == q'[n];
      LookupStep(dest, u, p, |q| + n);
      LookupStep(Lookup(dest, t, q), t', q', n);
    }
  }

  /** The starting value of dest passes through a lookup unchanged. */
  lemma {:induction false} LookupFrom(dest: Block, tables: seq<Table>, query: seq<byte>)
    requires Wide(tables, |dest|) && |tables| == |query|
    ensures Lookup(dest, tables, query) == XorBytes(dest, Answer(tables, query, |dest|))
    decreases |query|
  {
    if query == [] {
      BytesZero(dest);
    } else {
      var n := |query| - 1;
      LookupFrom(dest, tables[..n], query[..n]);
      BytesAssoc(dest, Answer(tables[..n], query[..n], |dest|), tables[n][query[n]]);
    }
  }

  lemma AnswerConcat(t: seq<Table>, t': seq<Table>, q: seq<byte>, q': seq<byte>, size: nat)
    requires Wide(t, size) && Wide(t', size) && |t| == |q| && |t'| == |q'|
    ensures Wide(t + t', size)
    ensures Answer(t + t', q + q', size) == XorBytes(Answer(t, q, size), Answer(t', q', size))
  {
    LookupConcat(Zeros(size), t, t', q, q');
    LookupFrom(Answer(t, q, size), t', q');
  }

  lemma LinearZero(t: Table, size: nat)
    requires Linear(t, size)
    ensures t[0] == Zeros(size)
  {
    XorZero(0);
    assert t[XorByte(0, 0)] == XorBytes(t[0], t[0]);
    BytesSelf(t[0]);
  }

  lemma {:induction false} AnswerZero(tables: seq<Table>, size: nat)
    requires AllLinear(tables, size)
    ensures Wide(tables, size)
    ensures Answer(tables, Zeros(|tables|), size) == Zeros(size)
    decreases |tables|
  {
    if tables != [] {
      var n := |tables| - 1;
      AnswerZero(tables[..n], size);
      LinearZero(tables[n], size);
      assert Zeros(|tables|)[..n] == Zeros(n);
      BytesZero(Zeros(size));
    }
  }

  /** Groups whose query byte is zero do not contribute. */
  lemma AnswerGap(t: seq<Table>, gap: seq<Table>, q: seq<byte>, size: nat)
    requires Wide(t, size) && AllLinear(gap, size) && |t| == |q|
    ensures Wide(t + gap, size)
    ensures Answer(t + gap, q + Zeros(|gap|), size) == Answer(t, q, size)
  {
    AnswerZero(gap, size);
    AnswerConcat(t, gap, q, Zeros(|gap|), size);
    BytesZero(Answer(t, q, size));
  }

  /** Lookup is linear in the query. */
  lemma {:induction false} AnswerXor(tables: seq<Table>, p: seq<byte>, q: seq<byte>, size: nat)
    requires AllLinear(tables, size) && |tables| == |p| == |q|
    ensures Wide(tables, size)
    ensures Answer(tables, XorBytes(p, q), size)
         == XorBytes(Answer(tables, p, size), Answer(tables, q, size))
    decreases |tables|
  {
    if tables == [] {
      BytesZero(Zeros(size));
    } else {
      var n := |tables| - 1;
      AnswerXor(tables[..n], p[..n], q[..n], size);
      assert XorBytes(p, q)[..n] == XorBytes(p[..n], q[..n]);
      BytesSwap(Answer(tables[..n], p[..n], size), Answer(tables[..n], q[..n], size),
                tables[n][p[n]], tables[n][q[n]]);
    }
  }

  // ----- the tables of a raw database

  /** Block n of the database, read as zero when there is none. */
  function RawBlock(raw: seq<Block>, n: nat, size: nat): (r: Block)
    requires Rect(raw, size)
    ensures |r| == size
  {
    if n < |raw| then raw[n] else Zeros(size)
  }

  /** The raw blocks of group g, eight of them, the missing ones read as zero. */
  function GroupRows(raw: seq<Block>, g: nat, size: nat): (rows: seq<Block>)
    requires Rect(raw, size)
    ensures |rows| == 8 && Rect(rows, size)
  {
    var rows := seq(8, j requires 0 <= j < 8 => RawBlock(raw, 8 * g + j, size));
    assert forall j :: 0 <= j < 8 ==> rows[j] == RawBlock(raw, 8 * g + j, size);
    rows
  }

  /** Number of groups of eight a database of n blocks needs. */
  function GroupCount(n: nat): (g: nat)
    ensures n <= 8 * g < n + 8
  {
    (n + 7) / 8
  }

  function DatabaseTables(raw: seq<Block>, size: nat): (tables: seq<Table>)
    requires Rect(raw, size)
    ensures |tables| == GroupCount(|raw|) && Wide(tables, size)
  {
    assert Pow2(8) == 256;
    seq(GroupCount(|raw|), g requires 0 <= g => TableOf(GroupRows(raw, g, size), size))
  }

  lemma DatabaseLinear(raw: seq<Block>, size: nat)
    requires Rect(raw, size)
    ensures AllLinear(DatabaseTables(raw, size), size)
  {
    assert Pow2(8) == 256;
    var tables := DatabaseTables(raw, size);
    forall g, a: byte, b: byte | 0 <= g < |tables|
      ensures tables[g][XorByte(a, b)] == XorBytes(tables[g][a], tables[g][b])
    {
      CombinationXor(GroupRows(raw, g, size), a, b, size);
    }
  }

  /** dest after exclusive-oring into it every raw block whose query bit is set: the
      bits of a byte are counted from the most significant one, and a missing block
      counts as zero. This is the selection the tables speed up. */
  function Selection(dest: Block, raw: seq<Block>, query: seq<byte>, n: nat): (r: Block)
    requires Rect(raw, |dest|) && n <= 8 * |query|
    ensures |r| == |dest|
    decreases n
  {
    if n == 0 then dest
    else
      var s := Selection(dest, raw, query, n - 1);
      if n - 1 < |raw| && Bit(query[(n - 1) / 8], 7 - (n - 1) % 8) then XorBytes(s, raw[n - 1]) else s
  }

  lemma HighBits(code: nat, b: nat)
    ensures Bit(code, b + 1) == Bit(code / 2, b)
  {
  }

  lemma SelectionNext(dest: Block, raw: seq<Block>, query: seq<byte>, g: nat, m: nat)
    requires Rect(raw, |dest|) && g < |query| && 0 < m <= 8
    ensures var s := Selection(dest, raw, query, 8 * g + m - 1);
      Selection(dest, raw, query, 8 * g + m)
        == if Bit(query[g], 8 - m) then XorBytes(s, RawBlock(raw, 8 * g + m - 1, |dest|)) else s
  {
    hide Bit, XorBytes;
    assert (8 * g + m - 1) / 8 == g && 7 - (8 * g + m - 1) % 8 == 8 - m;
    BytesZero(Selection(dest, raw, query, 8 * g + m - 1));
  }

  lemma CombinationNext(rows: seq<Block>, m: nat, code: nat, size: nat)
    requires Rect(rows, size) && 0 < m <= |rows|
    ensures var c := Combination(rows[..m - 1], code / 2, size);
      Combination(rows[..m], code, size) == if Bit(code, 0) then XorBytes(c, rows[m - 1]) else c
  {
    hide XorBytes;
    assert rows[..m][..m - 1] == rows[..m - 1];
  }

  lemma CombinationNone(rows: seq<Block>, code: nat, size: nat)
    requires rows == []
    ensures Combination(rows, code, size) == Zeros(size)
  {
  }

  lemma GroupRow(raw: seq<Block>, g: nat, j: nat, size: nat)
    requires Rect(raw, size) && j < 8
    ensures GroupRows(raw, g, size)[j] == RawBlock(raw, 8 * g + j, size)
  {
  }

  /** One table entry is the selection over its rows, one row after the other. */
  lemma {:induction false} EntrySelects(raw: seq<Block>, query: seq<byte>, dest: Block, g: nat, m: nat, code: nat)
    requires Rect(raw, |dest|) && g < |query| && m <= 8
    requires forall b :: 0 <= b < m ==> Bit(code, b) == Bit(query[g], 8 - m + b)
    ensures Selection(dest, raw, query, 8 * g + m)
         == XorBytes(Selection(dest, raw, query, 8 * g), Combination(GroupRows(raw, g, |dest|)[..m], code, |dest|))
    decreases m
  {
    hide XorByte, XorBytes, Bit, RawBlock, GroupRows, Selection, Combination;
    var size := |dest|;
    var before, rows := Selection(dest, raw, query, 8 * g), GroupRows(raw, g, size);
    if m == 0 {
      CombinationNone(rows[..0], code, size);
      BytesZero(before);
    } else {
      forall b | 0 <= b < m - 1
        ensures Bit(code / 2, b) == Bit(query[g], 8 - (m - 1) + b)
      {
        HighBits(code, b);
      }
      EntrySelects(raw, query, dest, g, m - 1, code / 2);
      SelectionNext(dest, raw, query, g, m);
      CombinationNext(rows, m, code, size);
      GroupRow(raw, g, m - 1, size);
      assert Bit(code, 0) == Bit(query[g], 8 - m);
      BytesAssoc(before, Combination(rows[..m - 1], code / 2, size), rows[m - 1]);
    }
  }

  lemma DatabaseEntry(raw: seq<Block>, g: nat, code: byte, size: nat)
    requires Rect(raw, size) && g < GroupCount(|raw|)
    ensures DatabaseTables(raw, size)[g][code] == Combination(GroupRows(raw, g, size)[..8], code, size)
  {
    var rows := GroupRows(raw, g, size);
    assert rows[..8] == rows;
  }

  lemma NothingSelected(dest: Block, raw: seq<Block>, query: seq<byte>, tables: seq<Table>)
    requires Rect(raw, |dest|) && Wide(tables, |dest|)
    ensures Lookup(dest, tables[..0], query[..0]) == dest == Selection(dest, raw, query, 0)
  {
  }

  /** Looking up a query in the tables selects exactly the raw blocks whose bit is set. */
  lemma {:induction false} LookupIsSelection(dest: Block, raw: seq<Block>, query: seq<byte>, g: nat)
    requires Rect(raw, |dest|) && |query| == GroupCount(|raw|) && g <= |query|
    ensures Lookup(dest, DatabaseTables(raw, |dest|)[..g], query[..g]) == Selection(dest, raw, query, 8 * g)
    decreases g
  {
    hide Combination, GroupRows, XorByte, XorBytes, DatabaseTables, GroupCount, Bit, Lookup, Selection;
    var tables := DatabaseTables(raw, |dest|);
    if g == 0 {
      NothingSelected(dest, raw, query, tables);
    } else {
      LookupIsSelection(dest, raw, query, g - 1);
      LookupStep(dest, tables, query, g - 1);
      EntrySelects(raw, query, dest, g - 1, 8, query[g - 1]);
      DatabaseEntry(raw, g - 1, query[g - 1], |dest|);
    }
  }

  /** The query byte for block index: one bit, the most significant for the first of a group. */
  function OneHot(index: nat, groups: nat): (q: seq<byte>)
    requires index / 8 < groups
    ensures |q| == groups
  {
    assert Pow2(7 - index % 8) <= 128 by { PowerMonotone(7 - index % 8, 7); assert Pow2(7) == 128; }
    Zeros(groups)[index / 8 := Pow2(7 - index % 8)]
  }

  lemma AnswerSingle(t: Table, v: byte, size: nat)
    requires |t| == 256 && Rect(t, size)
    ensures Answer([t], [v], size) == t[v]
  {
    assert Answer([t], [v], size) == XorBytes(Answer([t][..0], [v][..0], size), t[v]);
    BytesZero(t[v]);
  }

  /** A query that is zero but for one group answers with that group's entry. */
  lemma OneGroup(tables: seq<Table>, g: nat, v: byte, size: nat)
    requires AllLinear(tables, size) && g < |tables|
    ensures Wide(tables, size)
    ensures Answer(tables, Zeros(|tables|)[g := v], size) == tables[g][v]
  {
    var left, t, right, entry := tables[..g], tables[g], tables[g + 1..], tables[g][v];
    var q := Zeros(|tables|)[g := v];
    AnswerZero(left, size);
    AnswerSingle(t, v, size);
    BytesZero(entry);
    AnswerGap([t], right, [v], size);
    AnswerConcat(left, [t] + right, Zeros(g), [v] + Zeros(|right|), size);
    assert tables == left + ([t] + right);
    assert q == Zeros(g) + ([v] + Zeros(|right|));
  }

  /** The one-hot query selects exactly the block it names. */
  lemma OneHotSelects(raw: seq<Block>, index: nat, size: nat)
    requires Rect(raw, size) && index < |raw|
    ensures Answer(DatabaseTables(raw, size), OneHot(index, GroupCount(|raw|)), size) == raw[index]
  {
    hide Answer, XorByte, AllLinear;
    var tables, g := DatabaseTables(raw, size), index / 8;
    DatabaseLinear(raw, size);
    OneGroup(tables, g, OneHot(index, |tables|)[g], size);
    var rows := GroupRows(raw, g, size);
    CombinationOneBit(rows, 7 - index % 8, size);
    assert rows[index % 8] == RawBlock(raw, 8 * g + index % 8, size);
  }
}
