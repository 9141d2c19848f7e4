/** Bit prefixes and leading zero bits of an entry, against the big-endian value that the
    order of the sorted database is about. */
module EntryBits {
  import opened Bits
  import opened ByteStrings
  import opened SortedDatabase

  function Or(a: nat, b: nat): nat
    decreases a + b
  {
    if a == 0 && b == 0 then 0
    else (if a % 2 == 1 || b % 2 == 1 then 1 else 0) + 2 * Or(a / 2, b / 2)
  }

  function And(a: nat, b: nat): nat
    decreases a + b
  {
    if a == 0 || b == 0 then 0
    else (if a % 2 == 1 && b % 2 == 1 then 1 else 0) + 2 * And(a / 2, b / 2)
  }

  /** Shifts of 64-bit words. */
  function ShiftLeft(v: nat, k: nat): nat { v * Pow2(k) % Pow2(64) }

  function ShiftRight(v: nat, k: nat): nat { Quotient(v, Pow2(k)) }

  lemma {:induction false} OrZero(a: nat)
    ensures Or(a, 0) == a && Or(0, a) == a
    decreases a
  {
    if a > 0 {
      OrZero(a / 2);
    }
  }

  /** Or of a number and one below its lowest set bit is their sum. */
  lemma {:induction false} OrDisjoint(a: nat, k: nat, v: nat)
    requires v < Pow2(k)
    ensures Or(a * Pow2(k), v) == a * Pow2(k) + v
    decreases k
  {
    if k == 0 {
      OrZero(a);
    } else {
      var p := Pow2(k - 1);
      var x := a * Pow2(k);
      assert x == 2 * (a * p);
      OrDisjoint(a, k - 1, v / 2);
      assert x / 2 == a * p;
      if x == 0 && v == 0 {
      } else {
        assert Or(x, v) == v % 2 + 2 * Or(a * p, v / 2);
      }
    }
  }

  lemma {:induction false} AndMask(v: nat, q: nat)
    requires v < Pow2(q)
    ensures And(v, Pow2(q) - 1) == v
    decreases q
  {
    if v > 0 {
      var m := Pow2(q) - 1;
      assert m == 2 * (Pow2(q - 1) - 1) + 1;
      AndMask(v / 2, q - 1);
      assert m / 2 == Pow2(q - 1) - 1 && m % 2 == 1;
    }
  }

  // ----- values of prefixes

  lemma {:induction false} ValueConcat(a: Entry, b: Entry)
    ensures Value(a + b) == Value(a) * Pow2(8 * |b|) + Value(b)
    decreases |a|
  {
    if a == [] {
      assert a + b == b;
    } else {
      var t := a[1..];
      ValueConcat(t, b);
      assert (a + b)[1..] == t + b && (a + b)[0] == a[0];
      assert 8 * (|a| + |b| - 1) == 8 * |t| + 8 * |b|;
      PowerSum(8 * |t|, 8 * |b|);
      Distribute(a[0], Pow2(8 * |t|), Value(t), Pow2(8 * |b|));
    }
  }

  lemma Distribute(x: nat, p: nat, v: nat, w: nat)
    ensures (x * p + v) * w == x * (p * w) + v * w
  {
    assert (x * p) * w == x * (p * w);
  }

  lemma ValueSingle(e: byte)
    ensures Value([e]) == e
  {
    assert Pow2(0) == 1;
    assert Value([e]) == e * Pow2(0) + Value([e][1..]);
  }

  lemma ValueNext(entry: Entry, j: nat)
    requires j < |entry|
    ensures Value(entry[..j + 1]) == 256 * Value(entry[..j]) + entry[j]
  {
    assert entry[..j + 1] == entry[..j] + [entry[j]];
    ValueConcat(entry[..j], [entry[j]]);
    ValueSingle(entry[j]);
    assert Pow2(8) == 256;
  }

  /** The first p bits of an entry, read as a number. */
  function Prefix(entry: Entry, p: nat): nat
    requires p <= 8 * |entry|
  {
    ShiftRight(Value(entry), 8 * |entry| - p)
  }

  lemma PrefixOfBytes(entry: Entry, j: nat)
    requires j <= |entry|
    ensures Prefix(entry, 8 * j) == Value(entry[..j])
  {
    var rest := entry[j..];
    assert entry == entry[..j] + rest;
    ValueConcat(entry[..j], rest);
    ValueBound(rest);
    assert 8 * |entry| - 8 * j == 8 * |rest|;
    DivUnique(Value(entry), Pow2(8 * |rest|), Value(entry[..j]), Value(rest));
  }

  /** Dropping the lowest bits of a prefix gives the shorter prefix. */
  lemma PrefixShorter(entry: Entry, p: nat, q: nat)
    requires p <= q <= 8 * |entry|
    ensures Prefix(entry, p) == Prefix(entry, q) / Pow2(q - p)
  {
    var n := 8 * |entry|;
    PowerSum(n - q, q - p);
    DivTwice(Value(entry), Pow2(n - q), Pow2(q - p));
  }

  lemma DivTwice(x: nat, a: nat, b: nat)
    requires a > 0 && b > 0
    ensures a * b > 0 && x / (a * b) == x / a / b
  {
    var y, r := x / a, x % a;
    var z, s := y / b, y % b;
    assert x == y * a + r;
    assert y == z * b + s;
    Distribute(z, b, s, a);
    Commute(a, b);
    MultiplesApart(s, b, a);
    DivUnique(x, a * b, z, s * a + r);
  }

  lemma Commute(a: nat, b: nat)
    requires a > 0 && b > 0
    ensures a * b == b * a && a * b > 0
  {
    MultiplesApart(0, b, a);
  }

  lemma NoOverflow(e: byte, q: nat)
    requires 8 <= q <= 64
    ensures ShiftLeft(e, q - 8) == e * Pow2(q - 8) < Pow2(q)
  {
    hide Pow2;
    PowerEight();
    PowerSum(8, q - 8);
    var r := Pow2(q - 8);
    MultiplesApart(e, 256, r);
    PowerMonotone(q, 64);
    ModSmall(e * r, Pow2(64));
  }

  lemma ModSmall(v: nat, m: nat)
    requires v < m
    ensures v % m == v
  {
  }

  /** Appending a whole byte to a prefix that is to be extended by q bits in all. */
  lemma WholeByte(a: nat, e: byte, q: nat)
    requires 8 <= q <= 64
    ensures Or(a * Pow2(q), ShiftLeft(e, q - 8)) == (256 * a + e) * Pow2(q - 8)
  {
    hide Or;
    var r := Pow2(q - 8);
    NoOverflow(e, q);
    OrDisjoint(a, q, e * r);
    PowerSum(8, q - 8);
    assert Pow2(8) == 256;
    assert a * Pow2(q) == a * (256 * r);
    Distribute(a, 256, e, r);
    assert a * 256 == 256 * a;
  }

  /** Appending the q highest bits of a byte. */
  lemma PartialByte(a: nat, e: byte, q: nat)
    requires 0 < q < 8
    ensures Or(a * Pow2(q), And(ShiftRight(e, 8 - q), Pow2(q) - 1)) == ShiftRight(256 * a + e, 8 - q)
  {
    hide Or, And, Pow2;
    PowerEight();
    PowerSum(q, 8 - q);
    var low := Pow2(8 - q);
    var hi, lo := e / low, e % low;
    DivBelow(e, Pow2(q), low);
    AndMask(hi, q);
    OrDisjoint(a, q, hi);
    Distribute(a, Pow2(q), hi, low);
    assert a * (Pow2(q) * low) == 256 * a;
    assert e == hi * low + lo;
    DivUnique(256 * a + e, low, a * Pow2(q) + hi, lo);
  }

  /** The prefix is the value with the bits left out cut off. */
  lemma PrefixBounds(entry: Entry, p: nat)
    requires p <= 8 * |entry|
    ensures Prefix(entry, p) * Pow2(8 * |entry| - p) <= Value(entry) < (Prefix(entry, p) + 1) * Pow2(8 * |entry| - p)
  {
    hide Value, Pow2;
    var d := Pow2(8 * |entry| - p);
    var q := Value(entry) / d;
    assert Value(entry) == q * d + Value(entry) % d && (q + 1) * d == q * d + d;
  }

  /** The first prefixlength bits of an entry, gathered byte by byte into one word. */
  method GetPrefix(entry: Entry, prefixlength: int) returns (prefix: nat)
    requires prefixlength <= 64 && prefixlength <= 8 * |entry|
    ensures prefix == if prefixlength <= 0 then 0 else Prefix(entry, prefixlength)
    ensures prefixlength > 0 ==>
      prefix * Pow2(8 * |entry| - prefixlength) <= Value(entry) < (prefix + 1) * Pow2(8 * |entry| - prefixlength)
  {
    hide Or, And, ShiftLeft, ShiftRight, Prefix, Value;
    if prefixlength > 0 { PrefixBounds(entry, prefixlength); }
    var j := 0;
    prefix := 0;
    var left := prefixlength;
    ValueNone(entry);
    while left > 0
      invariant j <= |entry| && left == prefixlength - 8 * j
      invariant left > 0 ==> prefix == Value(entry[..j]) * Pow2(left)
      invariant left <= 0 ==> prefix == if prefixlength <= 0 then 0 else Prefix(entry, prefixlength)
    {
      var val: nat := entry[j];
      ghost var front := Value(entry[..j]);
      ValueNext(entry, j);
      PrefixOfBytes(entry, j + 1);
      if left >= 8 {
        WholeByte(front, val, left);
        val := ShiftLeft(val, left - 8);
        PowerEight();
      } else {
        PartialByte(front, val, left);
        PrefixShorterShift(entry, prefixlength, 8 * (j + 1));
        var mask := Pow2(left);
        mask := mask - 1;
        val := And(ShiftRight(val, 8 - left), mask);
      }
      prefix := Or(prefix, val);
      j := j + 1;
      left := left - 8;
    }
  }

  lemma ValueNone(entry: Entry)
    ensures Value(entry[..0]) == 0
  {
  }

  lemma PrefixShorterShift(entry: Entry, p: nat, q: nat)
    requires p <= q <= 8 * |entry|
    ensures Prefix(entry, p) == ShiftRight(Prefix(entry, q), q - p)
  {
    PrefixShorter(entry, p, q);
  }

  /** Prefixes follow the order of the sorted database. */
  lemma PrefixMonotone(a: Entry, b: Entry, p: nat)
    requires |a| == |b| && p <= 8 * |a|
    ensures Memcmp(a, b) <= 0 ==> Prefix(a, p) <= Prefix(b, p)
  {
    MemcmpIsValueOrder(a, b);
    if Memcmp(a, b) <= 0 {
      DivMonotone(Value(a), Value(b), Pow2(8 * |a| - p));
    }
  }

  lemma DivMonotone(x: nat, y: nat, d: nat)
    requires d > 0 && x <= y
    ensures x / d <= y / d
  {
    var q, r := x / d, y / d;
    assert x == q * d + x % d && y == r * d + y % d;
    if r < q {
      MultiplesApart(r, q, d);
    }
  }

  // ----- leading zeros

  /** Multiplying by 2^k and adding less than that takes k bits more. */
  lemma {:induction false} BitsShifted(b: nat, k: nat, r: nat)
    requires b > 0 && r < Pow2(k)
    ensures BitsToRepresent(b * Pow2(k) + r) == BitsToRepresent(b) + k
    decreases k
  {
    hide BitsToRepresent;
    if k > 0 {
      var y := b * Pow2(k - 1);
      assert b * Pow2(k) == 2 * y;
      Commute(b, Pow2(k - 1));
      BitsShifted(b, k - 1, r / 2);
      BitsDouble(y, r);
    }
  }

  lemma BitsDouble(y: nat, r: nat)
    requires y > 0
    ensures BitsToRepresent(2 * y + r) == 1 + BitsToRepresent(y + r / 2)
  {
    assert (2 * y + r) / 2 == y + r / 2;
  }

  /** A number needs as many bits as the power of two above it says. */
  lemma {:induction false} BitLength(n: nat)
    requires n > 0
    ensures BitsToRepresent(n) > 0 && Pow2(BitsToRepresent(n) - 1) <= n < Pow2(BitsToRepresent(n))
    decreases n
  {
    if n > 1 {
      BitLength(n / 2);
    } else {
      assert Pow2(0) == 1 && Pow2(1) == 2;
    }
  }

  /** Counts the zero bits in front of the first one bit: all of them for a zero entry, and
      otherwise as many as the powers of two around the value say. */
  method Count0bits(db: Entry) returns (length: nat)
    ensures length <= 8 * |db|
    ensures 8 * |db| - length == BitsToRepresent(Value(db))
    ensures Value(db) == 0 ==> length == 8 * |db|
    ensures Value(db) > 0 ==> length < 8 * |db| && Pow2(8 * |db| - length - 1) <= Value(db) < Pow2(8 * |db| - length)
  {
    hide Value, Pow2;
    if Value(db) > 0 { BitLength(Value(db)); }
    length := 0;
    var n := |db|;
    ValueAll(db);
    var i := 0;
    while i < n
      invariant i <= n && length == 8 * i
      invariant Value(db) == Value(db[i..])
    {
      length := length + 8;
      var val: nat := db[i];
      ValueHead(db, i);
      if val != 0 {
        ByteBits(val);
        BitsShifted(val, 8 * (n - i - 1), Value(db[i + 1..]));
        while val != 0
          invariant length >= BitsToRepresent(val)
          invariant length - BitsToRepresent(val) == 8 * (i + 1) - BitsToRepresent(db[i])
        {
          val := val / 2;
          length := length - 1;
        }
        return;
      }
      i := i + 1;
    }
    ValueEmpty(db[i..]);
  }

  lemma ValueAll(a: Entry)
    ensures a[0..] == a
  {
  }

  lemma ValueEmpty(a: Entry)
    requires a == []
    ensures Value(a) == 0
  {
  }

  lemma ValueHead(a: Entry, i: nat)
    requires i < |a|
    ensures Value(a[i..]) == a[i] * Pow2(8 * (|a| - i - 1)) + Value(a[i + 1..])
    ensures Value(a[i + 1..]) < Pow2(8 * (|a| - i - 1))
  {
    assert a[i..][1..] == a[i + 1..];
    ValueBound(a[i + 1..]);
  }

  lemma ByteBits(v: nat)
    requires v < 256
    ensures BitsToRepresent(v) <= 8
  {
    assert Pow2(8) == 256;
    BitsBound(v, 8);
  }

  lemma {:induction false} BitsBound(v: nat, k: nat)
    requires v < Pow2(k)
    ensures BitsToRepresent(v) <= k
    decreases k
  {
    if v > 1 {
      BitsBound(v / 2, k - 1);
    }
  }
}
