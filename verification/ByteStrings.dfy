/** Byte strings, their exclusive or, and the effect of an in-place write. */
module ByteStrings {
  import opened Bits

  type byte = b: nat | b < 256

  function XorByte(a: byte, b: byte): byte {
    assert Pow2(8) == 256;
    XorBound(a, b, 8);
    Xor(a, b)
  }

  function XorBytes(s: seq<byte>, t: seq<byte>): (r: seq<byte>)
    requires |s| == |t|
    ensures |r| == |s|
    ensures forall i :: 0 <= i < |r| ==> r[i] == XorByte(s[i], t[i])
  {
    seq(|s|, i requires 0 <= i < |s| => XorByte(s[i], t[i]))
  }

  function Zeros(n: nat): (z: seq<byte>)
    ensures |z| == n && forall i :: 0 <= i < n ==> z[i] == 0
  {
    seq(n, _ => 0)
  }

  /** Position of item n in an array of items of one width. */
  function Offset(n: nat, width: nat): nat { n * width }

  /** The string m after t has been written into it from position `at` on. */
  function Splice(m: seq<byte>, at: nat, t: seq<byte>): (r: seq<byte>)
    requires at + |t| <= |m|
    ensures |r| == |m|
  {
    m[..at] + t + m[at + |t|..]
  }

  /** The string m after t has been exclusive-ored into it from position `at` on. */
  function XorInto(m: seq<byte>, at: nat, t: seq<byte>): (r: seq<byte>)
    requires at + |t| <= |m|
    ensures |r| == |m|
    ensures forall k :: 0 <= k < |m| ==> r[k] == if at <= k < at + |t| then XorByte(m[k], t[k - at]) else m[k]
  {
    Splice(m, at, XorBytes(m[at..at + |t|], t))
  }

  /** Every string of the list has length n. */
  predicate Rect(items: seq<seq<byte>>, n: nat) {
    forall i :: 0 <= i < |items| ==> |items[i]| == n
  }

  /** The exclusive or of a list of strings of length n. */
  function XorSum(items: seq<seq<byte>>, n: nat): (r: seq<byte>)
    requires Rect(items, n)
    ensures |r| == n
  {
    if items == [] then Zeros(n)
    else XorBytes(XorSum(items[..|items| - 1], n), items[|items| - 1])
  }

  // ----- the algebra of XorBytes

  lemma XorByteZero(a: byte)
    ensures XorByte(a, 0) == a && XorByte(0, a) == a
  {
    XorZero(a);
  }

  lemma BytesZero(s: seq<byte>)
    ensures XorBytes(s, Zeros(|s|)) == s && XorBytes(Zeros(|s|), s) == s
  {
    forall i | 0 <= i < |s| ensures XorByte(s[i], 0) == s[i] && XorByte(0, s[i]) == s[i] {
      XorByteZero(s[i]);
    }
  }

  lemma BytesSelf(s: seq<byte>)
    ensures XorBytes(s, s) == Zeros(|s|)
  {
    forall i | 0 <= i < |s| ensures XorByte(s[i], s[i]) == 0 {
      XorSelf(s[i]);
    }
  }

  lemma BytesComm(s: seq<byte>, t: seq<byte>)
    requires |s| == |t|
    ensures XorBytes(s, t) == XorBytes(t, s)
  {
    forall i | 0 <= i < |s| ensures XorByte(s[i], t[i]) == XorByte(t[i], s[i]) {
      XorComm(s[i], t[i]);
    }
  }

  lemma BytesAssoc(s: seq<byte>, t: seq<byte>, u: seq<byte>)
    requires |s| == |t| == |u|
    ensures XorBytes(XorBytes(s, t), u) == XorBytes(s, XorBytes(t, u))
  {
    forall i | 0 <= i < |s|
      ensures XorByte(XorByte(s[i], t[i]), u[i]) == XorByte(s[i], XorByte(t[i], u[i]))
    {
      XorAssoc(s[i], t[i], u[i]);
    }
  }

  /** Two exclusive ors of two terms each, regrouped. */
  lemma BytesSwap(a: seq<byte>, b: seq<byte>, c: seq<byte>, d: seq<byte>)
    requires |a| == |b| == |c| == |d|
    ensures XorBytes(XorBytes(a, b), XorBytes(c, d)) == XorBytes(XorBytes(a, c), XorBytes(b, d))
  {
    BytesAssoc(a, b, XorBytes(c, d));
    BytesAssoc(b, c, d);
    BytesComm(b, c);
    BytesAssoc(c, b, d);
    BytesAssoc(a, c, XorBytes(b, d));
  }

  /** A mask applied twice is gone. */
  lemma BytesCancel(s: seq<byte>, m: seq<byte>)
    requires |s| == |m|
    ensures XorBytes(XorBytes(s, m), m) == s && XorBytes(m, XorBytes(m, s)) == s
  {
    BytesAssoc(s, m, m);
    BytesAssoc(m, m, s);
    BytesSelf(m);
    BytesZero(s);
  }

  lemma BytesSlice(s: seq<byte>, t: seq<byte>, lo: nat, hi: nat)
    requires |s| == |t| && lo <= hi <= |s|
    ensures XorBytes(s, t)[lo..hi] == XorBytes(s[lo..hi], t[lo..hi])
  {
  }

  // ----- writes

  /** A write is read back, and a second write to the same place replaces it. */
  lemma SpliceTwice(m: seq<byte>, at: nat, t: seq<byte>, u: seq<byte>)
    requires at + |t| <= |m| && |t| == |u|
    ensures Splice(m, at, t)[at..at + |t|] == t
    ensures Splice(Splice(m, at, t), at, u) == Splice(m, at, u)
  {
  }

  lemma SpliceNothing(m: seq<byte>, at: nat, n: nat)
    requires at + n <= |m|
    ensures Splice(m, at, m[at..at + n]) == m
  {
  }

  /** Exclusive-oring into a place just written is writing the exclusive or. */
  lemma SpliceStep(m: seq<byte>, at: nat, t: seq<byte>, u: seq<byte>, r: seq<byte>)
    requires at + |t| <= |m| && |t| == |u| && r == XorBytes(t, u)
    ensures XorInto(Splice(m, at, t), at, u) == Splice(m, at, r)
  {
    SpliceTwice(m, at, t, r);
  }

  lemma XorIntoRead(m: seq<byte>, at: nat, t: seq<byte>)
    requires at + |t| <= |m|
    ensures XorInto(m, at, t)[at..at + |t|] == XorBytes(m[at..at + |t|], t)
  {
  }

  lemma SliceSame(m: seq<byte>, m': seq<byte>, lo: nat, hi: nat)
    requires lo <= hi <= |m| && hi <= |m'|
    requires forall k :: lo <= k < hi ==> m[k] == m'[k]
    ensures m[lo..hi] == m'[lo..hi]
  {
  }

  lemma SliceOfSlice<T>(s: seq<T>, lo: nat, n: nat, a: nat, b: nat)
    requires a <= b <= n && lo + n <= |s|
    ensures s[lo..lo + n][a..b] == s[lo + a..lo + b]
  {
    var w := s[lo..lo + n];
    var x, y := w[a..b], s[lo + a..lo + b];
    forall i | 0 <= i < b - a ensures x[i] == y[i] {
      assert x[i] == w[a + i] == s[lo + (a + i)];
    }
  }

  lemma SlicesAgree(m: seq<byte>, a: nat, m': seq<byte>, b: nat, n: nat)
    requires a + n <= |m| && b + n <= |m'|
    requires forall k :: a <= k < a + n ==> m[k] == m'[k - a + b]
    ensures m[a..a + n] == m'[b..b + n]
  {
    var x, y := m[a..a + n], m'[b..b + n];
    forall i | 0 <= i < n ensures x[i] == y[i] {
      assert x[i] == m[a + i];
    }
  }

  lemma SliceOfEqual(m: seq<byte>, a: nat, m': seq<byte>, b: nat, w: nat, o: nat, n: nat)
    requires a + w <= |m| && b + w <= |m'| && m[a..a + w] == m'[b..b + w] && o + n <= w
    ensures m[a + o..a + o + n] == m'[b + o..b + o + n]
  {
    var x, y := m[a + o..a + o + n], m'[b + o..b + o + n];
    forall i | 0 <= i < n ensures x[i] == y[i] {
      assert m[a..a + w][o + i] == m'[b..b + w][o + i];
    }
  }

  // ----- sums

  lemma SumAppend(items: seq<seq<byte>>, s: seq<byte>, n: nat)
    requires Rect(items, n) && |s| == n
    ensures Rect(items + [s], n)
    ensures XorSum(items + [s], n) == XorBytes(XorSum(items, n), s)
  {
    assert (items + [s])[..|items|] == items;
  }

  lemma {:induction false} SumConcat(a: seq<seq<byte>>, b: seq<seq<byte>>, n: nat)
    requires Rect(a, n) && Rect(b, n)
    ensures Rect(a + b, n)
    ensures XorSum(a + b, n) == XorBytes(XorSum(a, n), XorSum(b, n))
    decreases |b|
  {
    if b == [] {
      assert a + b == a;
      BytesZero(XorSum(a, n));
    } else {
      var b', s := b[..|b| - 1], b[|b| - 1];
      assert a + b == (a + b') + [s];
      SumConcat(a, b', n);
      SumAppend(a + b', s, n);
      BytesAssoc(XorSum(a, n), XorSum(b', n), s);
    }
  }

  lemma {:induction false} SumPairwise(a: seq<seq<byte>>, b: seq<seq<byte>>, c: seq<seq<byte>>, n: nat)
    requires Rect(a, n) && Rect(b, n) && |a| == |b| == |c|
    requires forall i :: 0 <= i < |a| ==> c[i] == XorBytes(a[i], b[i])
    ensures Rect(c, n)
    ensures XorSum(c, n) == XorBytes(XorSum(a, n), XorSum(b, n))
    decreases |a|
  {
    if a == [] {
      BytesZero(Zeros(n));
    } else {
      var k := |a| - 1;
      SumPairwise(a[..k], b[..k], c[..k], n);
      BytesSwap(XorSum(a[..k], n), XorSum(b[..k], n), a[k], b[k]);
    }
  }

  /** The last element of a permuted list, found in the other list and removed. */
  lemma RemoveLast<T>(a: seq<T>, b: seq<T>) returns (j: nat)
    requires a != [] && multiset(a) == multiset(b)
    ensures j < |b| && b[j] == a[|a| - 1]
    ensures multiset(a[..|a| - 1]) == multiset(b[..j] + b[j + 1..])
  {
    var x, front := a[|a| - 1], a[..|a| - 1];
    assert a == front + [x];
    assert x in multiset(b);
    j :| 0 <= j < |b| && b[j] == x;
    assert b == b[..j] + [x] + b[j + 1..];
    assert multiset(front) + multiset{x} == multiset(b[..j] + b[j + 1..]) + multiset{x};
    assert multiset(front) == multiset(a) - multiset{x};
  }

  /** The sum does not depend on the order in which its terms arrive. */
  lemma {:induction false} SumPermuted(a: seq<seq<byte>>, b: seq<seq<byte>>, n: nat)
    requires Rect(a, n) && Rect(b, n)
    requires multiset(a) == multiset(b)
    ensures XorSum(a, n) == XorSum(b, n)
    decreases |a|
  {
    if a == [] {
      assert |multiset(b)| == |b|;
    } else {
      var j := RemoveLast(a, b);
      SumPermuted(a[..|a| - 1], b[..j] + b[j + 1..], n);
      SumPullOut(b[..j], b[j], b[j + 1..], n);
      assert b == b[..j] + ([b[j]] + b[j + 1..]);
    }
  }

  lemma SumPullOut(left: seq<seq<byte>>, s: seq<byte>, right: seq<seq<byte>>, n: nat)
    requires Rect(left, n) && |s| == n && Rect(right, n)
    ensures Rect(left + ([s] + right), n) && Rect(left + right, n)
    ensures XorSum(left + ([s] + right), n) == XorBytes(XorSum(left + right, n), s)
  {
    var l, r := XorSum(left, n), XorSum(right, n);
    SumConcat([s], right, n);
    SumAppend([], s, n);
    assert [] + [s] == [s];
    BytesZero(s);
    SumConcat(left, [s] + right, n);
    SumConcat(left, right, n);
    BytesComm(s, r);
    BytesAssoc(l, r, s);
  }

  /** One term of a sum changed. */
  lemma SumUpdated(items: seq<seq<byte>>, k: nat, v: seq<byte>, n: nat)
    requires Rect(items, n) && k < |items| && |v| == n
    ensures Rect(items[k := XorBytes(items[k], v)], n)
    ensures XorSum(items[k := XorBytes(items[k], v)], n) == XorBytes(XorSum(items, n), v)
  {
    hide XorSum, XorBytes;
    var l, x, r := items[..k], items[k], items[k + 1..];
    var y := XorBytes(x, v);
    assert items == l + ([x] + r) && items[k := y] == l + ([y] + r);
    SumPullOut(l, x, r, n);
    SumPullOut(l, y, r, n);
    BytesAssoc(XorSum(l + r, n), x, v);
  }
}
