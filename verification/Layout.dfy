/** How the groups of the database are cut into one chunk per server, and the cyclic
    window of chunks each server holds. */
module Layout {
  import opened Bits
  import opened ByteStrings

  datatype Config = Config(groups: nat, servers: nat, chunks: nat) {

    predicate Valid() { 1 <= chunks <= servers }

    /** Groups in chunk i: the first groups % servers chunks take one more. */
    function Size(i: nat): nat
      requires Valid()
    {
      groups / servers + if i < groups % servers then 1 else 0
    }

    /** First group of chunk i. */
    function Start(i: nat): nat
      requires Valid()
    {
      if i == 0 then 0 else Start(i - 1) + Size(i - 1)
    }

    /** Chunk following the window of n chunks that begins at chunk id, before wrapping. */
    function RightEnd(id: nat, n: nat): nat { if id + n <= servers then id + n else servers }

    /** Number of chunks of that window that wrapped around to chunk 0. */
    function Wrapped(id: nat, n: nat): nat { if id + n <= servers then 0 else id + n - servers }

    /** Groups to the right of the own chunk in the window of server id. */
    function RightGroups(id: nat): (n: int)
      requires Valid() && id < servers
      ensures 0 <= n <= groups - Start(id + 1)
    {
      StartMonotone(id + 1, RightEnd(id, chunks));
      StartMonotone(RightEnd(id, chunks), servers);
      StartTotal();
      Start(RightEnd(id, chunks)) - Start(id + 1)
    }

    /** Groups of the window that wrapped around; they end before the own chunk. */
    function LeftGroups(id: nat): (n: nat)
      requires Valid() && id < servers
      ensures n <= Start(id) <= Start(id + 1) <= groups
    {
      StartMonotone(Wrapped(id, chunks), id);
      StartMonotone(id + 1, servers);
      StartTotal();
      Start(Wrapped(id, chunks))
    }

    function MaskLength(id: nat): nat
      requires Valid() && id < servers
    {
      RightGroups(id) + LeftGroups(id)
    }

    lemma StartNext(i: nat)
      requires Valid()
      ensures Start(i + 1) == Start(i) + Size(i)
    {
    }

    lemma StartZero()
      requires Valid()
      ensures Start(0) == 0
    {
    }

    lemma {:induction false} StartMonotone(i: nat, j: nat)
      requires Valid() && i <= j
      ensures Start(i) <= Start(j)
      decreases j
    {
      if i < j {
        StartMonotone(i, j - 1);
      }
    }

    lemma {:induction false} StartClosed(i: nat)
      requires Valid()
      ensures Start(i) == i * (groups / servers) + if i < groups % servers then i else groups % servers
      decreases i
    {
      if i > 0 {
        StartClosed(i - 1);
        assert i * (groups / servers) == (i - 1) * (groups / servers) + groups / servers;
      }
    }

    /** The chunks cover all groups, no two of them differ by more than one group, and none is
        larger than one before it. */
    lemma StartTotal()
      requires Valid()
      ensures Start(servers) == groups
      ensures forall i, j :: 0 <= i && 0 <= j ==> Size(i) <= Size(j) + 1
      ensures forall i, j :: 0 <= i <= j ==> Size(j) <= Size(i)
    {
      StartClosed(servers);
      assert groups == servers * (groups / servers) + groups % servers;
    }
  }

  /** Chunk i of a list with one element per group. */
  function Chunk<T>(c: Config, s: seq<T>, i: nat): (r: seq<T>)
    requires c.Valid() && |s| == c.groups && i < c.servers
    ensures |r| == c.Size(i) && c.Start(i + 1) <= |s|
    ensures r == s[c.Start(i)..c.Start(i + 1)]
  {
    c.StartTotal();
    c.StartMonotone(i + 1, c.servers);
    s[c.Start(i)..c.Start(i + 1)]
  }

  /** Chunks first, first+1, ..., first+n-1 modulo the number of servers, in that order. */
  function Window<T>(c: Config, s: seq<T>, first: nat, n: nat): seq<T>
    requires c.Valid() && |s| == c.groups
  {
    if n == 0 then [] else Window(c, s, first, n - 1) + Chunk(c, s, (first + n - 1) % c.servers)
  }

  /** A window of n chunks ends with chunk k, counted modulo the number of servers. */
  lemma WindowNext<T>(c: Config, s: seq<T>, id: nat, n: nat, k: nat)
    requires c.Valid() && |s| == c.groups && id < c.servers && 0 < n <= c.servers
    requires k == if id + n <= c.servers then id + n - 1 else id + n - 1 - c.servers
    ensures k < c.servers && c.Start(k) <= c.Start(k + 1) <= |s|
    ensures Window(c, s, id, n) == Window(c, s, id, n - 1) + s[c.Start(k)..c.Start(k + 1)]
  {
    hide Config.Size, Config.Start;
    Wrap(id + n - 1, c.servers);
    c.StartTotal();
    c.StartMonotone(k, k + 1);
    c.StartMonotone(k + 1, c.servers);
    assert Chunk(c, s, k) == s[c.Start(k)..c.Start(k + 1)];
  }

  lemma {:induction false} WindowUnwrapped<T>(c: Config, s: seq<T>, id: nat, n: nat)
    requires c.Valid() && |s| == c.groups && id + n <= c.servers && id < c.servers
    ensures c.Start(id) <= c.Start(id + n) <= c.groups
    ensures Window(c, s, id, n) == s[c.Start(id)..c.Start(id + n)]
    decreases n
  {
    hide Config.Size, Config.Start;
    c.StartTotal();
    c.StartMonotone(id, id + n);
    c.StartMonotone(id + n, c.servers);
    if n > 0 {
      hide Window;
      WindowUnwrapped(c, s, id, n - 1);
      WindowNext(c, s, id, n, id + n - 1);
      SliceJoin(s, c.Start(id), c.Start(id + n - 1), c.Start(id + n));
    }
  }

  /** A window is one stretch up to the last chunk and one from the first chunk on. */
  lemma {:induction false} WindowParts<T>(c: Config, s: seq<T>, id: nat, n: nat)
    requires c.Valid() && |s| == c.groups && id < c.servers && n <= c.servers
    ensures c.Start(id) <= c.Start(c.RightEnd(id, n)) <= c.groups && c.Start(c.Wrapped(id, n)) <= c.Start(id)
    ensures Window(c, s, id, n) == s[c.Start(id)..c.Start(c.RightEnd(id, n))] + s[..c.Start(c.Wrapped(id, n))]
    decreases n
  {
    hide Config.Size, Config.Start, Window;
    c.StartZero();
    c.StartMonotone(0, id);
    if id + n <= c.servers {
      WindowUnwrapped(c, s, id, n);
      SliceJoin(s, c.Start(id), c.Start(id + n), c.Start(id + n));
    } else {
      var w := id + n - c.servers;
      c.StartMonotone(w, id);
      c.StartTotal();
      WindowParts(c, s, id, n - 1);
      WindowNext(c, s, id, n, w - 1);
      assert c.RightEnd(id, n - 1) == c.servers && c.Wrapped(id, n - 1) == w - 1;
      JoinWrapped(s, c.Start(id), c.Start(w - 1), c.Start(w));
    }
  }

  lemma JoinWrapped<T>(s: seq<T>, a: nat, x: nat, y: nat)
    requires a <= |s| && x <= y <= |s|
    ensures (s[a..|s|] + s[..x]) + s[x..y] == s[a..|s|] + s[..y]
  {
    assert s[..x] + s[x..y] == s[..y];
  }

  lemma SliceJoin<T>(s: seq<T>, a: nat, b: nat, d: nat)
    requires a <= b <= d <= |s|
    ensures s[a..b] + s[b..d] == s[a..d]
    ensures s[a..b] + s[..0] == s[a..b]
  {
  }

  /** What follows the own chunk in the window of server id: the groups to the right of
      it, then the groups that wrapped around. */
  function Tail<T>(c: Config, s: seq<T>, id: nat): (r: seq<T>)
    requires c.Valid() && |s| == c.groups && id < c.servers
    ensures |r| == c.MaskLength(id)
  {
    var left := c.LeftGroups(id);
    s[c.Start(id + 1)..c.Start(id + 1) + c.RightGroups(id)] + s[..left]
  }

  lemma WindowSpans<T>(c: Config, s: seq<T>, id: nat)
    requires c.Valid() && |s| == c.groups && id < c.servers
    ensures c.Start(id) + c.Size(id) + c.RightGroups(id) <= c.groups && c.LeftGroups(id) <= c.groups
    ensures Window(c, s, id, c.chunks)
         == s[c.Start(id)..c.Start(id) + c.Size(id) + c.RightGroups(id)] + s[..c.LeftGroups(id)]
  {
    hide Config.Size, Config.Start, Window;
    c.StartNext(id);
    WindowParts(c, s, id, c.chunks);
  }

  lemma WindowIsChunkThenTail<T>(c: Config, s: seq<T>, id: nat)
    requires c.Valid() && |s| == c.groups && id < c.servers
    ensures Window(c, s, id, c.chunks) == Chunk(c, s, id) + Tail(c, s, id)
  {
    hide Config.Size, Config.Start, Window;
    WindowParts(c, s, id, c.chunks);
    var a, b, d := c.Start(id), c.Start(id + 1), c.Start(c.RightEnd(id, c.chunks));
    c.StartMonotone(id, id + 1);
    assert b + c.RightGroups(id) == d;
    SliceJoin(s, a, b, d);
  }

  /** Place m of the window of server id holds the group m places, cyclically, after
      the first one of its own chunk. */
  lemma WindowIsCyclic<T>(c: Config, s: seq<T>, id: nat, n: nat, m: nat)
    requires c.Valid() && |s| == c.groups && id < c.servers && n <= c.servers
    requires m < |Window(c, s, id, n)|
    ensures c.groups > 0
    ensures Window(c, s, id, n)[m] == s[(c.Start(id) + m) % c.groups]
  {
    hide Config.Size, Config.Start, Window;
    WindowParts(c, s, id, n);
    c.StartZero();
    c.StartTotal();
    Wrap(c.Start(id) + m, c.groups);
  }

  // ----- the mask of a server, seen over all groups

  /** Where byte m of the mask of server id belongs in the client's query. */
  function MaskPosition(c: Config, id: nat, m: nat): nat
    requires c.Valid() && id < c.servers && m < c.MaskLength(id)
  {
    if m < c.RightGroups(id) then c.Start(id + 1) + m else m - c.RightGroups(id)
  }

  /** The mask of server id as a full query: right part after the own chunk, left part
      at the front, zero elsewhere. */
  function Spread(c: Config, id: nat, mask: seq<byte>): (q: seq<byte>)
    requires c.Valid() && id < c.servers && |mask| == c.MaskLength(id)
    ensures |q| == c.groups
  {
    var right, left, own := c.RightGroups(id), c.LeftGroups(id), c.Start(id + 1);
    mask[right..] + Zeros(own - left) + mask[..right] + Zeros(c.groups - own - right)
  }

  /** Client and server agree: byte m of the mask sits in the query at the group whose
      table is the m-th one after the server's own chunk, and nothing else is touched. */
  lemma LayoutAgrees<T>(c: Config, s: seq<T>, id: nat, mask: seq<byte>, m: nat)
    requires c.Valid() && |s| == c.groups && id < c.servers && |mask| == c.MaskLength(id)
    requires m < |mask|
    ensures |Window(c, s, id, c.chunks)| == c.Size(id) + |mask|
    ensures MaskPosition(c, id, m) < c.groups
    ensures MaskPosition(c, id, m) == (c.Start(id + 1) + m) % c.groups
    ensures Window(c, s, id, c.chunks)[c.Size(id) + m] == s[MaskPosition(c, id, m)]
    ensures Spread(c, id, mask)[MaskPosition(c, id, m)] == mask[m]
  {
    hide Config.Size, Config.Start, Spread, Window;
    WindowSpans(c, s, id);
    c.StartZero();
    c.StartTotal();
    c.StartNext(id);
    MaskInSpread(c, id, mask, m);
    Wrap(c.Start(id + 1) + m, c.groups);
  }

  lemma MaskInSpread(c: Config, id: nat, mask: seq<byte>, m: nat)
    requires c.Valid() && id < c.servers && |mask| == c.MaskLength(id) && m < |mask|
    ensures MaskPosition(c, id, m) < c.groups && Spread(c, id, mask)[MaskPosition(c, id, m)] == mask[m]
  {
    hide Config.Size, Config.Start;
    var right, left, own := c.RightGroups(id), c.LeftGroups(id), c.Start(id + 1);
    if m < right {
      assert mask[..right][m] == mask[m];
    } else {
      assert mask[right..][m - right] == mask[m];
    }
  }

  /** Every non-zero byte of the spread mask comes from some byte of the mask. */
  lemma SpreadNothingElse(c: Config, id: nat, mask: seq<byte>, p: nat)
    requires c.Valid() && id < c.servers && |mask| == c.MaskLength(id) && p < c.groups
    ensures Spread(c, id, mask)[p] == 0
         || exists m :: 0 <= m < |mask| && MaskPosition(c, id, m) == p
  {
    var right, own := c.RightGroups(id), c.Start(id + 1);
    if p < c.LeftGroups(id) {
      assert MaskPosition(c, id, right + p) == p;
    } else if own <= p < own + right {
      assert MaskPosition(c, id, p - own) == p;
    }
  }

  /** The own chunk is never masked by the own mask. */
  lemma SpreadSparesOwnChunk(c: Config, id: nat, mask: seq<byte>)
    requires c.Valid() && id < c.servers && |mask| == c.MaskLength(id)
    ensures Chunk(c, Spread(c, id, mask), id) == Zeros(c.Size(id))
  {
    assert c.LeftGroups(id) <= c.Start(id);
  }

  /** The mask length both sides compute: the sum over the chunks after the own one. */
  function TailGroups(c: Config, id: nat, n: nat): nat
    requires c.Valid() && id < c.servers && 1 <= n
  {
    if n == 1 then 0 else TailGroups(c, id, n - 1) + c.Size((id + n - 1) % c.servers)
  }

  lemma {:induction false} TailGroupsParts(c: Config, id: nat, n: nat)
    requires c.Valid() && id < c.servers && 1 <= n <= c.servers
    ensures TailGroups(c, id, n) == c.Start(c.RightEnd(id, n)) - c.Start(id + 1) + c.Start(c.Wrapped(id, n))
    decreases n
  {
    if n > 1 {
      TailGroupsParts(c, id, n - 1);
      Wrap(id + n - 1, c.servers);
    }
  }
}
