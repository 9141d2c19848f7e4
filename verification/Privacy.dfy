/** What one server sees of a retrieval, and that with at least two chunks per server it
    does not depend on the index asked for. */
module Privacy {
  import opened Bits
  import opened ByteStrings
  import opened Tables
  import opened Layout
  import opened Protocol

  /** A server's view: its own mask and the query chunk it receives. */
  datatype View = View(mask: seq<byte>, query: seq<byte>)

  ghost function ViewOf(c: Config, s: nat, masks: seq<seq<byte>>, index: nat): View
    requires Masks(c, masks) && s < c.servers && index / 8 < c.groups
  {
    View(masks[s], Chunk(c, ClientQuery(c, masks, index), s))
  }

  /** The server before s, whose mask begins with chunk s. */
  function Before(c: Config, s: nat): (p: nat)
    requires c.Valid() && s < c.servers
    ensures p < c.servers
  {
    if s == 0 then c.servers - 1 else s - 1
  }

  /** How the one-hot queries for i and j differ in chunk s. */
  function Difference(c: Config, s: nat, i: nat, j: nat): (d: seq<byte>)
    requires c.Valid() && s < c.servers && i / 8 < c.groups && j / 8 < c.groups
    ensures |d| == c.Size(s)
  {
    XorBytes(Chunk(c, OneHot(i, c.groups), s), Chunk(c, OneHot(j, c.groups), s))
  }

  lemma MaskBeginsWith(c: Config, s: nat)
    requires c.Valid() && s < c.servers && c.chunks >= 2
    ensures c.Size(s) <= c.MaskLength(Before(c, s))
    ensures Before(c, s) != s
    ensures if s == 0 then c.RightGroups(Before(c, s)) == 0 && c.Size(s) <= c.LeftGroups(Before(c, s))
            else c.Size(s) <= c.RightGroups(Before(c, s))
    ensures forall m :: 0 <= m < c.Size(s) ==> MaskPosition(c, Before(c, s), m) == c.Start(s) + m
  {
    hide Config.Start, Config.Size;
    var p := Before(c, s);
    c.StartZero();
    c.StartNext(s);
    if s == 0 {
      c.StartMonotone(1, c.Wrapped(p, c.chunks));
    } else {
      c.StartMonotone(p + 2, c.RightEnd(p, c.chunks));
    }
  }

  /** Exchanges the masks consistent with index i for those consistent with index j: the
      mask of the server before s absorbs the difference in chunk s. */
  ghost function Flip(c: Config, s: nat, masks: seq<seq<byte>>, i: nat, j: nat): (r: seq<seq<byte>>)
    requires Masks(c, masks) && s < c.servers && c.chunks >= 2 && i / 8 < c.groups && j / 8 < c.groups
    ensures Masks(c, r)
  {
    MaskBeginsWith(c, s);
    var p := Before(c, s);
    masks[p := XorInto(masks[p], 0, Difference(c, s, i, j))]
  }

  /** A string in chunk s, zero elsewhere. */
  function InChunk(c: Config, s: nat, d: seq<byte>): (r: seq<byte>)
    requires c.Valid() && s < c.servers && |d| == c.Size(s)
    ensures |r| == c.groups
  {
    c.StartTotal();
    c.StartMonotone(s + 1, c.servers);
    Zeros(c.Start(s)) + d + Zeros(c.groups - c.Start(s + 1))
  }

  lemma ChunkOfInChunk(c: Config, s: nat, d: seq<byte>)
    requires c.Valid() && s < c.servers && |d| == c.Size(s)
    ensures Chunk(c, InChunk(c, s, d), s) == d
  {
  }

  /** The mask of server p covers chunk s, which is not its own. */
  predicate Covers(c: Config, p: nat, s: nat) {
    (p < s < c.RightEnd(p, c.chunks)) || s < c.Wrapped(p, c.chunks)
  }

  /** In cyclic order: s is one of the chunks - 1 chunks behind p. */
  lemma CoversCyclic(c: Config, p: nat, s: nat)
    requires c.Valid() && p < c.servers && s < c.servers
    ensures Covers(c, p, s) <==> 0 < (s + c.servers - p) % c.servers < c.chunks
  {
    Wrap(s + c.servers - p, c.servers);
  }

  /** Where chunk s begins in the mask of a server that covers it. */
  function Place(c: Config, p: nat, s: nat): (at: nat)
    requires c.Valid() && p < c.servers && s < c.servers && Covers(c, p, s)
    ensures at + c.Size(s) <= c.MaskLength(p)
  {
    PlaceFits(c, p, s);
    if p < s < c.RightEnd(p, c.chunks) then c.Start(s) - c.Start(p + 1) else c.RightGroups(p) + c.Start(s)
  }

  lemma PlaceFits(c: Config, p: nat, s: nat)
    requires c.Valid() && p < c.servers && s < c.servers && Covers(c, p, s)
    ensures c.Start(s + 1) == c.Start(s) + c.Size(s) <= c.groups
    ensures p < s < c.RightEnd(p, c.chunks) ==> c.Start(p + 1) <= c.Start(s) && c.Start(s + 1) <= c.Start(p + 1) + c.RightGroups(p)
    ensures !(p < s < c.RightEnd(p, c.chunks)) ==> c.Start(s + 1) <= c.LeftGroups(p) <= c.Start(p + 1)
  {
    hide Config.Start, Config.Size;
    c.StartNext(s);
    c.StartTotal();
    c.StartMonotone(s + 1, c.servers);
    if p < s < c.RightEnd(p, c.chunks) {
      c.StartMonotone(p + 1, s);
      c.StartMonotone(s + 1, c.RightEnd(p, c.chunks));
    } else {
      c.StartMonotone(s + 1, c.Wrapped(p, c.chunks));
    }
  }

  /** A change at that place of the mask is a change in chunk s of the query. */
  lemma SpreadChanged(c: Config, p: nat, s: nat, mask: seq<byte>, d: seq<byte>)
    requires c.Valid() && p < c.servers && s < c.servers && Covers(c, p, s)
    requires |mask| == c.MaskLength(p) && |d| == c.Size(s)
    ensures Spread(c, p, XorInto(mask, Place(c, p, s), d)) == XorBytes(Spread(c, p, mask), InChunk(c, s, d))
  {
    hide Config.Size, Config.Start, XorByte, XorBytes, XorInto;
    PlaceFits(c, p, s);
    var right, left, own := c.RightGroups(p), c.LeftGroups(p), c.Start(p + 1);
    var a, b := Spread(c, p, XorInto(mask, Place(c, p, s), d)), XorBytes(Spread(c, p, mask), InChunk(c, s, d));
    forall k | 0 <= k < c.groups ensures a[k] == b[k] {
      XorByteZero(Spread(c, p, mask)[k]);
    }
  }

  /** A change at the front of the mask of the server before s is a change in chunk s of
      the query. */
  lemma SpreadFlipped(c: Config, s: nat, mask: seq<byte>, d: seq<byte>)
    requires c.Valid() && s < c.servers && c.chunks >= 2
    requires |mask| == c.MaskLength(Before(c, s)) && |d| == c.Size(s) <= |mask|
    ensures Spread(c, Before(c, s), XorInto(mask, 0, d)) == XorBytes(Spread(c, Before(c, s), mask), InChunk(c, s, d))
  {
    hide Config.Size, Config.Start, Spread, InChunk, XorInto;
    c.StartZero();
    MaskBeginsWith(c, s);
    SpreadChanged(c, Before(c, s), s, mask, d);
  }

  lemma QueryFlipped(c: Config, s: nat, masks: seq<seq<byte>>, i: nat, j: nat)
    requires Masks(c, masks) && s < c.servers && c.chunks >= 2 && i / 8 < c.groups && j / 8 < c.groups
    ensures XorSum(Spreads(c, Flip(c, s, masks, i, j)), c.groups)
         == XorBytes(XorSum(Spreads(c, masks), c.groups), InChunk(c, s, Difference(c, s, i, j)))
  {
    hide XorSum, XorBytes, Spread, InChunk, Difference, Config.MaskLength;
    var p, d := Before(c, s), Difference(c, s, i, j);
    MaskBeginsWith(c, s);
    SpreadFlipped(c, s, masks[p], d);
    var spreads := Spreads(c, masks);
    SumUpdated(spreads, p, InChunk(c, s, d), c.groups);
    assert Spreads(c, Flip(c, s, masks, i, j)) == spreads[p := XorBytes(spreads[p], InChunk(c, s, d))];
  }

  lemma ChunkXor(c: Config, a: seq<byte>, b: seq<byte>, s: nat)
    requires c.Valid() && |a| == |b| == c.groups && s < c.servers
    ensures Chunk(c, XorBytes(a, b), s) == XorBytes(Chunk(c, a, s), Chunk(c, b, s))
  {
    c.StartTotal();
    c.StartMonotone(s + 1, c.servers);
    BytesSlice(a, b, c.Start(s), c.Start(s + 1));
  }

  /** With at least two chunks per server, for every server and any two indices there is an
      involution on the masks of the other servers that turns the server's view of a
      retrieval of the one into its view of a retrieval of the other. */
  lemma ViewIndependent(c: Config, s: nat, masks: seq<seq<byte>>, i: nat, j: nat)
    requires Masks(c, masks) && s < c.servers && c.chunks >= 2 && i / 8 < c.groups && j / 8 < c.groups
    ensures Flip(c, s, Flip(c, s, masks, i, j), i, j) == masks
    ensures forall id :: 0 <= id < c.servers && id != Before(c, s) ==> Flip(c, s, masks, i, j)[id] == masks[id]
    ensures Before(c, s) != s
    ensures ViewOf(c, s, Flip(c, s, masks, i, j), j) == ViewOf(c, s, masks, i)
  {
    var d := Difference(c, s, i, j);
    FlipTwice(c, s, masks, i, j);
    MaskBeginsWith(c, s);
    var sum, hi, hj := XorSum(Spreads(c, masks), c.groups), OneHot(i, c.groups), OneHot(j, c.groups);
    QueryFlipped(c, s, masks, i, j);
    SameChunk(c, s, sum, hi, hj, i, j);
  }

  lemma FlipTwice(c: Config, s: nat, masks: seq<seq<byte>>, i: nat, j: nat)
    requires Masks(c, masks) && s < c.servers && c.chunks >= 2 && i / 8 < c.groups && j / 8 < c.groups
    ensures Flip(c, s, Flip(c, s, masks, i, j), i, j) == masks
  {
    var p, d := Before(c, s), Difference(c, s, i, j);
    MaskBeginsWith(c, s);
    SpliceStep(masks[p], 0, XorBytes(masks[p][..|d|], d), d, masks[p][..|d|]) by { BytesCancel(masks[p][..|d|], d); }
    SpliceNothing(masks[p], 0, |d|);
    assert masks[p][0..|d|] == masks[p][..|d|];
    assert Flip(c, s, Flip(c, s, masks, i, j), i, j)[p] == masks[p];
  }

  lemma SameChunk(c: Config, s: nat, sum: seq<byte>, hi: seq<byte>, hj: seq<byte>, i: nat, j: nat)
    requires c.Valid() && s < c.servers && i / 8 < c.groups && j / 8 < c.groups && |sum| == c.groups
    requires hi == OneHot(i, c.groups) && hj == OneHot(j, c.groups)
    ensures Chunk(c, XorBytes(XorBytes(sum, InChunk(c, s, Difference(c, s, i, j))), hj), s)
         == Chunk(c, XorBytes(sum, hi), s)
  {
    hide XorBytes, Chunk, OneHot, InChunk;
    var d := Difference(c, s, i, j);
    var v := InChunk(c, s, d);
    var own, a, b := Chunk(c, sum, s), Chunk(c, hi, s), Chunk(c, hj, s);
    ChunkOfInChunk(c, s, d);
    ChunkXor(c, XorBytes(sum, v), hj, s);
    ChunkXor(c, sum, v, s);
    ChunkXor(c, sum, hi, s);
    BytesAssoc(own, d, b);
    BytesCancel(a, b);
  }

  // ----- coalitions

  /** Server s and every server whose mask covers chunk s belong to the coalition. */
  predicate Exposed(c: Config, coalition: set<nat>, s: nat) {
    s in coalition && forall p :: 0 <= p < c.servers && Covers(c, p, s) ==> p in coalition
  }

  /** What the coalition sees: the masks of its servers and the chunks they receive. */
  ghost predicate SameView(c: Config, coalition: set<nat>, masks: seq<seq<byte>>, i: nat, masks': seq<seq<byte>>, j: nat)
    requires Masks(c, masks) && Masks(c, masks') && i / 8 < c.groups && j / 8 < c.groups
  {
    forall s :: 0 <= s < c.servers && s in coalition ==> ViewOf(c, s, masks, i) == ViewOf(c, s, masks', j)
  }

  /** Some exposed chunk of the one-hot queries tells i and j apart. */
  predicate Told(c: Config, coalition: set<nat>, i: nat, j: nat)
    requires c.Valid() && i / 8 < c.groups && j / 8 < c.groups
  {
    exists s :: 0 <= s < c.servers && Exposed(c, coalition, s)
      && Chunk(c, OneHot(i, c.groups), s) != Chunk(c, OneHot(j, c.groups), s)
  }

  /** Outside the chunks it covers a mask is zero. */
  lemma SpreadOutside(c: Config, p: nat, s: nat, mask: seq<byte>, k: nat)
    requires c.Valid() && p < c.servers && s < c.servers && |mask| == c.MaskLength(p) && !Covers(c, p, s)
    requires c.Start(s) <= k < c.Start(s + 1) && k < c.groups
    ensures Spread(c, p, mask)[k] == 0
  {
    hide Config.Size, Config.Start;
    c.StartNext(s);
    if s <= p {
      c.StartMonotone(s + 1, p + 1);
      c.StartMonotone(c.Wrapped(p, c.chunks), s);
    } else {
      c.StartMonotone(c.RightEnd(p, c.chunks), s);
      c.StartMonotone(c.Wrapped(p, c.chunks), s);
    }
  }

  /** A server outside the coalition whose mask covers a chunk that is not exposed. */
  ghost function Cover(c: Config, coalition: set<nat>, s: nat): (p: nat)
    requires s in coalition && !Exposed(c, coalition, s)
    ensures p < c.servers && Covers(c, p, s) && p !in coalition
  {
    var p :| 0 <= p < c.servers && Covers(c, p, s) && p !in coalition;
    p
  }

  /** For each of the first n chunks that the coalition receives and that is not exposed, the
      difference between the one-hot queries for i and j, at its place in the mask of a
      server outside. */
  ghost function Changes(c: Config, coalition: set<nat>, i: nat, j: nat, n: nat): (r: seq<seq<byte>>)
    requires c.Valid() && i / 8 < c.groups && j / 8 < c.groups && n <= c.servers
    ensures Masks(c, r)
    ensures forall p :: 0 <= p < c.servers && p in coalition ==> r[p] == Zeros(c.MaskLength(p))
  {
    if n == 0 then seq(c.servers, p requires 0 <= p < c.servers => Zeros(c.MaskLength(p)))
    else
      var r, s := Changes(c, coalition, i, j, n - 1), n - 1;
      if s in coalition && !Exposed(c, coalition, s) then
        var p := Cover(c, coalition, s);
        r[p := XorInto(r[p], Place(c, p, s), Difference(c, s, i, j))]
      else r
  }

  /** Exchanges the masks consistent with index i for those consistent with index j. */
  ghost function Exchange(c: Config, coalition: set<nat>, masks: seq<seq<byte>>, i: nat, j: nat): (r: seq<seq<byte>>)
    requires Masks(c, masks) && i / 8 < c.groups && j / 8 < c.groups
    ensures Masks(c, r)
  {
    var changes := Changes(c, coalition, i, j, c.servers);
    seq(c.servers, p requires 0 <= p < c.servers => XorBytes(masks[p], changes[p]))
  }

  lemma SpreadXor(c: Config, p: nat, a: seq<byte>, b: seq<byte>)
    requires c.Valid() && p < c.servers && |a| == |b| == c.MaskLength(p)
    ensures Spread(c, p, XorBytes(a, b)) == XorBytes(Spread(c, p, a), Spread(c, p, b))
  {
    hide Config.Size, Config.Start, XorByte, XorBytes;
    var x, y := Spread(c, p, XorBytes(a, b)), XorBytes(Spread(c, p, a), Spread(c, p, b));
    forall k | 0 <= k < c.groups ensures x[k] == y[k] {
      XorByteZero(0);
    }
  }

  lemma SpreadZero(c: Config, p: nat)
    requires c.Valid() && p < c.servers
    ensures Spread(c, p, Zeros(c.MaskLength(p))) == Zeros(c.groups)
  {
    hide Config.Size, Config.Start;
  }

  /** What the changes of the first n chunks add to chunk s of the query. */
  lemma {:induction false} ChangesInChunk(c: Config, coalition: set<nat>, i: nat, j: nat, n: nat, s: nat)
    requires c.Valid() && i / 8 < c.groups && j / 8 < c.groups && n <= c.servers && s < c.servers && s in coalition
    ensures Chunk(c, XorSum(Spreads(c, Changes(c, coalition, i, j, n)), c.groups), s)
         == if s < n && !Exposed(c, coalition, s) then Difference(c, s, i, j) else Zeros(c.Size(s))
    decreases n
  {
    hide Config.Size, Config.Start, XorSum, XorBytes, Spread, InChunk, Difference, Config.MaskLength, Chunk, Exposed, Covers;
    if n == 0 {
      forall p | 0 <= p < c.servers ensures Spreads(c, Changes(c, coalition, i, j, 0))[p] == Zeros(c.groups) {
        SpreadZero(c, p);
      }
      SumOfZeros(Spreads(c, Changes(c, coalition, i, j, 0)), c.groups);
      ChunkOfZeros(c, s);
    } else {
      var r, t := Changes(c, coalition, i, j, n - 1), n - 1;
      ChangesInChunk(c, coalition, i, j, n - 1, s);
      if t in coalition && !Exposed(c, coalition, t) {
        var p, d := Cover(c, coalition, t), Difference(c, t, i, j);
        var sum := XorSum(Spreads(c, r), c.groups);
        SpreadChanged(c, p, t, r[p], d);
        SumUpdated(Spreads(c, r), p, InChunk(c, t, d), c.groups);
        assert Spreads(c, Changes(c, coalition, i, j, n)) == Spreads(c, r)[p := XorBytes(Spreads(c, r)[p], InChunk(c, t, d))];
        ChunkXor(c, sum, InChunk(c, t, d), s);
        if t == s {
          ChunkOfInChunk(c, s, d);
          BytesZero(d);
        } else {
          OtherChunk(c, t, s, d);
          BytesZero(Chunk(c, sum, s));
        }
      }
    }
  }

  lemma ChunkOfZeros(c: Config, s: nat)
    requires c.Valid() && s < c.servers
    ensures Chunk(c, Zeros(c.groups), s) == Zeros(c.Size(s))
  {
    hide Config.Size, Config.Start;
    c.StartNext(s);
    var z := Chunk(c, Zeros(c.groups), s);
    forall k | 0 <= k < |z| ensures z[k] == 0 {
      assert z[k] == Zeros(c.groups)[c.Start(s) + k];
    }
  }

  lemma OtherChunk(c: Config, t: nat, s: nat, d: seq<byte>)
    requires c.Valid() && s < c.servers && t < c.servers && s != t && |d| == c.Size(t)
    ensures Chunk(c, InChunk(c, t, d), s) == Zeros(c.Size(s))
  {
    hide Config.Size, Config.Start;
    c.StartNext(s);
    c.StartNext(t);
    c.StartTotal();
    c.StartMonotone(t + 1, c.servers);
    c.StartMonotone(s + 1, c.servers);
    if s < t { c.StartMonotone(s + 1, t); } else { c.StartMonotone(t + 1, s); }
  }

  /** Unless an exposed chunk tells them apart, the exchange is an involution on the masks of
      the servers outside the coalition that turns the view of a retrieval of i into the
      view of a retrieval of j. */
  lemma CoalitionExchange(c: Config, coalition: set<nat>, masks: seq<seq<byte>>, i: nat, j: nat)
    requires Masks(c, masks) && i / 8 < c.groups && j / 8 < c.groups && !Told(c, coalition, i, j)
    ensures Exchange(c, coalition, Exchange(c, coalition, masks, i, j), i, j) == masks
    ensures forall p :: 0 <= p < c.servers && p in coalition ==> Exchange(c, coalition, masks, i, j)[p] == masks[p]
    ensures SameView(c, coalition, masks, i, Exchange(c, coalition, masks, i, j), j)
  {
    hide XorBytes, Exposed, Config.MaskLength, Changes;
    var changes, masks' := Changes(c, coalition, i, j, c.servers), Exchange(c, coalition, masks, i, j);
    forall p | 0 <= p < c.servers
      ensures XorBytes(XorBytes(masks[p], changes[p]), changes[p]) == masks[p]
      ensures p in coalition ==> masks'[p] == masks[p]
    {
      BytesCancel(masks[p], changes[p]);
      BytesZero(masks[p]);
    }
    assert Exchange(c, coalition, masks', i, j) == masks;
    forall s | 0 <= s < c.servers && s in coalition ensures ViewOf(c, s, masks, i) == ViewOf(c, s, masks', j) {
      ExchangedChunk(c, coalition, masks, i, j, s);
    }
  }

  lemma ExchangedSum(c: Config, coalition: set<nat>, masks: seq<seq<byte>>, i: nat, j: nat)
    requires Masks(c, masks) && i / 8 < c.groups && j / 8 < c.groups
    ensures XorSum(Spreads(c, Exchange(c, coalition, masks, i, j)), c.groups)
         == XorBytes(XorSum(Spreads(c, masks), c.groups), XorSum(Spreads(c, Changes(c, coalition, i, j, c.servers)), c.groups))
  {
    hide XorBytes, XorSum, Spread, Changes, Config.MaskLength;
    var changes, masks' := Changes(c, coalition, i, j, c.servers), Exchange(c, coalition, masks, i, j);
    forall p | 0 <= p < c.servers ensures Spreads(c, masks')[p] == XorBytes(Spreads(c, masks)[p], Spreads(c, changes)[p]) {
      SpreadXor(c, p, masks[p], changes[p]);
    }
    SumPairwise(Spreads(c, masks), Spreads(c, changes), Spreads(c, masks'), c.groups);
  }

  lemma ExchangedChunk(c: Config, coalition: set<nat>, masks: seq<seq<byte>>, i: nat, j: nat, s: nat)
    requires Masks(c, masks) && i / 8 < c.groups && j / 8 < c.groups && !Told(c, coalition, i, j)
    requires s < c.servers && s in coalition
    ensures Chunk(c, ClientQuery(c, Exchange(c, coalition, masks, i, j), j), s) == Chunk(c, ClientQuery(c, masks, i), s)
  {
    hide XorBytes, XorSum, Spreads, Exchange, Chunk, OneHot, Exposed, Config.Size;
    var sum, changes := XorSum(Spreads(c, masks), c.groups), XorSum(Spreads(c, Changes(c, coalition, i, j, c.servers)), c.groups);
    var hi, hj := OneHot(i, c.groups), OneHot(j, c.groups);
    var own, a, b := Chunk(c, sum, s), Chunk(c, hi, s), Chunk(c, hj, s);
    ExchangedSum(c, coalition, masks, i, j);
    ChangesInChunk(c, coalition, i, j, c.servers, s);
    ChunkXor(c, XorBytes(sum, changes), hj, s);
    ChunkXor(c, sum, changes, s);
    ChunkXor(c, sum, hi, s);
    if Exposed(c, coalition, s) {
      assert a == b;
      BytesZero(own);
    } else {
      BytesAssoc(own, XorBytes(a, b), b);
      BytesCancel(a, b);
    }
  }

  // ----- what a coalition learns

  lemma {:induction false} SumAt(items: seq<seq<byte>>, items': seq<seq<byte>>, n: nat, k: nat)
    requires Rect(items, n) && Rect(items', n) && |items| == |items'| && k < n
    requires forall p :: 0 <= p < |items| ==> items[p][k] == items'[p][k]
    ensures XorSum(items, n)[k] == XorSum(items', n)[k]
    decreases |items|
  {
    if items != [] {
      var l := |items| - 1;
      SumAt(items[..l], items'[..l], n, k);
    }
  }

  /** In an exposed chunk the masks outside the coalition contribute nothing. */
  lemma ExposedSum(c: Config, coalition: set<nat>, masks: seq<seq<byte>>, masks': seq<seq<byte>>, s: nat)
    requires Masks(c, masks) && Masks(c, masks') && s < c.servers && Exposed(c, coalition, s)
    requires forall p :: 0 <= p < c.servers && p in coalition ==> masks[p] == masks'[p]
    ensures Chunk(c, XorSum(Spreads(c, masks), c.groups), s) == Chunk(c, XorSum(Spreads(c, masks'), c.groups), s)
  {
    hide Spread, XorSum, Covers, Config.Size, Config.Start, Config.MaskLength;
    var a, b := XorSum(Spreads(c, masks), c.groups), XorSum(Spreads(c, masks'), c.groups);
    ChunkEnds(c, s);
    forall k | c.Start(s) <= k < c.Start(s + 1) ensures a[k] == b[k] {
      forall p | 0 <= p < c.servers ensures Spreads(c, masks)[p][k] == Spreads(c, masks')[p][k] {
        if !Covers(c, p, s) {
          SpreadOutside(c, p, s, masks[p], k);
          SpreadOutside(c, p, s, masks'[p], k);
        }
      }
      SumAt(Spreads(c, masks), Spreads(c, masks'), c.groups, k);
    }
    SliceSame(a, b, c.Start(s), c.Start(s + 1));
  }

  lemma ChunkEnds(c: Config, s: nat)
    requires c.Valid() && s < c.servers
    ensures c.Start(s) <= c.Start(s + 1) <= c.groups
  {
    hide Config.Start, Config.Size;
    c.StartTotal();
    c.StartMonotone(s, s + 1);
    c.StartMonotone(s + 1, c.servers);
  }

  /** If an exposed chunk tells i and j apart, no masks give the coalition the same view. */
  lemma CoalitionLearns(c: Config, coalition: set<nat>, masks: seq<seq<byte>>, masks': seq<seq<byte>>, i: nat, j: nat)
    requires Masks(c, masks) && Masks(c, masks') && i / 8 < c.groups && j / 8 < c.groups && Told(c, coalition, i, j)
    ensures !SameView(c, coalition, masks, i, masks', j)
  {
    hide Chunk, OneHot, XorBytes, XorSum, Spreads, Covers;
    if SameView(c, coalition, masks, i, masks', j) {
      var s :| 0 <= s < c.servers && Exposed(c, coalition, s)
        && Chunk(c, OneHot(i, c.groups), s) != Chunk(c, OneHot(j, c.groups), s);
      assert ViewOf(c, s, masks, i) == ViewOf(c, s, masks', j);
      forall p | 0 <= p < c.servers && p in coalition ensures masks[p] == masks'[p] {
        assert ViewOf(c, p, masks, i) == ViewOf(c, p, masks', j);
      }
      ExposedSum(c, coalition, masks, masks', s);
      var sum, sum' := XorSum(Spreads(c, masks), c.groups), XorSum(Spreads(c, masks'), c.groups);
      ChunkXor(c, sum, OneHot(i, c.groups), s);
      ChunkXor(c, sum', OneHot(j, c.groups), s);
      BytesCancel(Chunk(c, OneHot(i, c.groups), s), Chunk(c, sum, s));
      BytesCancel(Chunk(c, OneHot(j, c.groups), s), Chunk(c, sum, s));
    }
  }

  /** The views of a coalition for i and for j can be the same exactly if no exposed chunk
      tells i and j apart. */
  lemma CoalitionIff(c: Config, coalition: set<nat>, masks: seq<seq<byte>>, i: nat, j: nat)
    requires Masks(c, masks) && i / 8 < c.groups && j / 8 < c.groups
    ensures (exists masks' :: Masks(c, masks') && SameView(c, coalition, masks, i, masks', j)) <==> !Told(c, coalition, i, j)
  {
    if Told(c, coalition, i, j) {
      forall masks' | Masks(c, masks') ensures !SameView(c, coalition, masks, i, masks', j) {
        CoalitionLearns(c, coalition, masks, masks', i, j);
      }
    } else {
      CoalitionExchange(c, coalition, masks, i, j);
    }
  }

  /** A coalition can tell some two indices apart exactly if some chunk that is not empty is
      exposed. */
  lemma ToldIff(c: Config, coalition: set<nat>)
    requires c.Valid()
    ensures (exists i: nat, j: nat :: i / 8 < c.groups && j / 8 < c.groups && Told(c, coalition, i, j))
       <==> (exists s :: 0 <= s < c.servers && c.Size(s) > 0 && Exposed(c, coalition, s))
  {
    hide Covers, Exposed, Config.Size, Config.Start;
    if s :| 0 <= s < c.servers && c.Size(s) > 0 && Exposed(c, coalition, s) {
      var i, j := 8 * c.Start(s), 8 * c.Start(s) + 1;
      ChunkEnds(c, s);
      c.StartNext(s);
      HotDiffer(c, s);
      assert Told(c, coalition, i, j);
    }
  }

  lemma HotDiffer(c: Config, s: nat)
    requires c.Valid() && s < c.servers && c.Size(s) > 0 && c.Start(s) < c.Start(s + 1) <= c.groups
    ensures Chunk(c, OneHot(8 * c.Start(s), c.groups), s) != Chunk(c, OneHot(8 * c.Start(s) + 1, c.groups), s)
  {
    hide Config.Size, Config.Start;
    var a, b := OneHot(8 * c.Start(s), c.groups), OneHot(8 * c.Start(s) + 1, c.groups);
    PlaceInChunk(c, a, s, c.Start(s));
    PlaceInChunk(c, b, s, c.Start(s));
    assert Pow2(7) == 128 && Pow2(6) == 64;
    assert a[c.Start(s)] == 128 && b[c.Start(s)] == 64;
  }

  // ----- one chunk per server

  lemma NoMaskLeft(c: Config, masks: seq<seq<byte>>, index: nat)
    requires Masks(c, masks) && c.chunks == 1 && index / 8 < c.groups
    ensures ClientQuery(c, masks, index) == OneHot(index, c.groups)
  {
    forall id | 0 <= id < c.servers ensures Spreads(c, masks)[id] == Zeros(c.groups) {
      assert c.RightGroups(id) == 0 && c.LeftGroups(id) == 0;
    }
    SumOfZeros(Spreads(c, masks), c.groups);
    BytesZero(OneHot(index, c.groups));
  }

  lemma {:induction false} SumOfZeros(items: seq<seq<byte>>, n: nat)
    requires Rect(items, n) && forall i :: 0 <= i < |items| ==> items[i] == Zeros(n)
    ensures XorSum(items, n) == Zeros(n)
    decreases |items|
  {
    if items != [] {
      SumOfZeros(items[..|items| - 1], n);
      BytesZero(Zeros(n));
    }
  }

  lemma OneHotInjective(i: nat, j: nat, groups: nat)
    requires i / 8 < groups && j / 8 < groups && OneHot(i, groups) == OneHot(j, groups)
    ensures i == j
  {
    assert OneHot(i, groups)[i / 8] == Pow2(7 - i % 8);
    assert OneHot(j, groups)[i / 8] == Pow2(7 - j % 8);
    if i % 8 < j % 8 {
      PowerMonotone(7 - j % 8, 7 - i % 8);
    } else if j % 8 < i % 8 {
      PowerMonotone(7 - i % 8, 7 - j % 8);
    }
  }

  lemma {:induction false} ChunkOfPosition(c: Config, p: nat, n: nat) returns (s: nat)
    requires c.Valid() && n <= c.servers && p < c.Start(n)
    ensures s < n && c.Start(s) <= p < c.Start(s + 1)
    decreases n
  {
    if p < c.Start(n - 1) {
      s := ChunkOfPosition(c, p, n - 1);
    } else {
      s := n - 1;
    }
  }

  lemma PlaceInChunk<T>(c: Config, a: seq<T>, s: nat, p: nat)
    requires c.Valid() && |a| == c.groups && s < c.servers && c.Start(s) <= p < c.Start(s + 1)
    ensures p - c.Start(s) < |Chunk(c, a, s)| && p < |a| && Chunk(c, a, s)[p - c.Start(s)] == a[p]
  {
  }

  /** With one chunk per server there are no masks, and for any two indices some server
      receives different queries. */
  lemma OneChunkDiffers(c: Config, masks: seq<seq<byte>>, masks': seq<seq<byte>>, i: nat, j: nat)
    requires Masks(c, masks) && Masks(c, masks') && c.chunks == 1
    requires i / 8 < c.groups && j / 8 < c.groups && i != j
    ensures exists s :: 0 <= s < c.servers && ViewOf(c, s, masks, i).query != ViewOf(c, s, masks', j).query
  {
    hide OneHot, ClientQuery, Chunk, Config.Start, Config.Size;
    NoMaskLeft(c, masks, i);
    NoMaskLeft(c, masks', j);
    var a, b := OneHot(i, c.groups), OneHot(j, c.groups);
    if forall p :: 0 <= p < c.groups ==> a[p] == b[p] {
      assert a == b;
      OneHotInjective(i, j, c.groups);
      assert false;
    }
    var p :| 0 <= p < c.groups && a[p] != b[p];
    c.StartTotal();
    var s := ChunkOfPosition(c, p, c.servers);
    PlaceInChunk(c, a, s, p);
    PlaceInChunk(c, b, s, p);
    assert ViewOf(c, s, masks, i).query != ViewOf(c, s, masks', j).query;
  }
}
