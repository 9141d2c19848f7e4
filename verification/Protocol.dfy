/** The retrieval protocol as functions of the database, the masks the seeds expand to,
    and the orders in which client threads enter their mutex regions. */
module Protocol {
  import opened ByteStrings
  import opened Tables
  import opened Layout

  /** One mask per server, each as long as the client and the server expand their seed to. */
  ghost predicate Masks(c: Config, masks: seq<seq<byte>>) {
    && c.Valid()
    && |masks| == c.servers
    && forall id :: 0 <= id < |masks| ==> |masks[id]| == c.MaskLength(id)
  }

  /** The numbers 0, 1, ..., n-1. */
  function Iota(n: nat): (s: seq<nat>)
    ensures |s| == n && forall i :: 0 <= i < n ==> s[i] == i
  {
    seq(n, i requires 0 <= i => i)
  }

  /** Every one of n threads takes its turn exactly once. */
  ghost predicate IsSchedule(order: seq<nat>, n: nat) {
    multiset(order) == multiset(Iota(n))
  }

  function Pick<T>(items: seq<T>, order: seq<nat>): (r: seq<T>)
    requires forall n :: 0 <= n < |order| ==> order[n] < |items|
    ensures |r| == |order|
  {
    seq(|order|, n requires 0 <= n < |order| => items[order[n]])
  }

  // ----- schedules

  lemma ScheduleRange(order: seq<nat>, n: nat)
    requires IsSchedule(order, n)
    ensures |order| == n
    ensures forall i :: 0 <= i < |order| ==> order[i] < n
  {
    assert |multiset(order)| == |order| && |multiset(Iota(n))| == n;
    forall i | 0 <= i < |order| ensures order[i] < n {
      assert order[i] in multiset(order);
      assert order[i] in Iota(n);
    }
  }

  lemma {:induction false} PickPermuted<T>(items: seq<T>, a: seq<nat>, b: seq<nat>)
    requires multiset(a) == multiset(b)
    requires forall n :: 0 <= n < |a| ==> a[n] < |items|
    requires forall n :: 0 <= n < |b| ==> b[n] < |items|
    ensures multiset(Pick(items, a)) == multiset(Pick(items, b))
    decreases |a|
  {
    if a == [] {
      assert |multiset(b)| == |b|;
    } else {
      var j := RemoveLast(a, b);
      var front, rest := a[..|a| - 1], b[..j] + b[j + 1..];
      PickPermuted(items, front, rest);
      var x := items[b[j]];
      assert Pick(items, a) == Pick(items, front) + [x];
      assert Pick(items, b) == Pick(items, b[..j]) + [x] + Pick(items, b[j + 1..]);
      assert Pick(items, rest) == Pick(items, b[..j]) + Pick(items, b[j + 1..]);
    }
  }

  /** Exclusive-oring one contribution per thread gives the same sum under every schedule. */
  lemma ScheduleIndependent(items: seq<seq<byte>>, order: seq<nat>, n: nat)
    requires Rect(items, n) && IsSchedule(order, |items|)
    ensures forall i :: 0 <= i < |order| ==> order[i] < |items|
    ensures Rect(Pick(items, order), n)
    ensures XorSum(Pick(items, order), n) == XorSum(items, n)
  {
    ScheduleRange(order, |items|);
    PickPermuted(items, order, Iota(|items|));
    assert Pick(items, Iota(|items|)) == items;
    SumPermuted(Pick(items, order), items, n);
  }

  // ----- what the parties compute

  /** The value a server stores with a seed: its mask looked up behind its own chunk. */
  function Precomputed(c: Config, tables: seq<Table>, id: nat, mask: seq<byte>, size: nat): (r: Block)
    requires c.Valid() && |tables| == c.groups && id < c.servers && |mask| == c.MaskLength(id)
    requires Wide(tables, size)
    ensures |r| == size
  {
    Answer(Tail(c, tables, id), mask, size)
  }

  /** What the query selects from the server's own chunk. */
  function Online(c: Config, tables: seq<Table>, id: nat, query: seq<byte>, size: nat): (r: Block)
    requires c.Valid() && |tables| == |query| == c.groups && id < c.servers
    requires Wide(tables, size)
    ensures |r| == size
  {
    Answer(Chunk(c, tables, id), Chunk(c, query, id), size)
  }

  /** What server id returns: the query chunk looked up on top of the stored value. */
  function ServerAnswer(c: Config, tables: seq<Table>, id: nat, mask: seq<byte>, query: seq<byte>, size: nat): (r: Block)
    requires c.Valid() && |tables| == |query| == c.groups && id < c.servers && |mask| == c.MaskLength(id)
    requires Wide(tables, size)
    ensures |r| == size
  {
    Lookup(Precomputed(c, tables, id, mask, size), Chunk(c, tables, id), Chunk(c, query, id))
  }

  ghost function Spreads(c: Config, masks: seq<seq<byte>>): (r: seq<seq<byte>>)
    requires Masks(c, masks)
    ensures |r| == c.servers && Rect(r, c.groups)
  {
    seq(c.servers, id requires 0 <= id < c.servers => Spread(c, id, masks[id]))
  }

  /** The client's query: all masks, spread, and the one-hot index. */
  ghost function ClientQuery(c: Config, masks: seq<seq<byte>>, index: nat): (q: seq<byte>)
    requires Masks(c, masks) && index / 8 < c.groups
    ensures |q| == c.groups
  {
    XorBytes(XorSum(Spreads(c, masks), c.groups), OneHot(index, c.groups))
  }

  ghost function ServerAnswers(c: Config, tables: seq<Table>, masks: seq<seq<byte>>, query: seq<byte>, size: nat)
    : (r: seq<Block>)
    requires Masks(c, masks) && |tables| == |query| == c.groups && Wide(tables, size)
    ensures |r| == c.servers && Rect(r, size)
  {
    seq(c.servers, id requires 0 <= id < c.servers => ServerAnswer(c, tables, id, masks[id], query, size))
  }

  ghost function StoredAnswers(c: Config, tables: seq<Table>, masks: seq<seq<byte>>, size: nat): (r: seq<Block>)
    requires Masks(c, masks) && |tables| == c.groups && Wide(tables, size)
    ensures |r| == c.servers && Rect(r, size)
  {
    seq(c.servers, id requires 0 <= id < c.servers => Precomputed(c, tables, id, masks[id], size))
  }

  ghost function OnlineAnswers(c: Config, tables: seq<Table>, query: seq<byte>, size: nat): (r: seq<Block>)
    requires c.Valid() && |tables| == |query| == c.groups && Wide(tables, size)
    ensures |r| == c.servers && Rect(r, size)
  {
    seq(c.servers, id requires 0 <= id < c.servers => Online(c, tables, id, query, size))
  }

  // ----- correctness

  lemma RotatedParts(lt: seq<Table>, gap: seq<Table>, rt: seq<Table>, rest: seq<Table>,
                     lm: seq<byte>, rm: seq<byte>, size: nat)
    requires AllLinear(gap, size) && AllLinear(rest, size)
    requires Wide(lt, size) && Wide(rt, size) && |lt| == |lm| && |rt| == |rm|
    ensures Wide(rt + lt, size) && Wide(lt + gap + rt + rest, size)
    ensures Answer(rt + lt, rm + lm, size)
         == Answer(lt + gap + rt + rest, lm + Zeros(|gap|) + rm + Zeros(|rest|), size)
  {
    AnswerConcat(rt, lt, rm, lm, size);
    BytesComm(Answer(lt, lm, size), Answer(rt, rm, size));
    AnswerGap(lt, gap, lm, size);
    AnswerConcat(lt + gap, rt, lm + Zeros(|gap|), rm, size);
    AnswerGap(lt + gap + rt, rest, lm + Zeros(|gap|) + rm, size);
  }

  /** A mask looked up in the rotated window tail is its spread form looked up in the
      whole database. */
  lemma PrecomputedIsSpread(c: Config, tables: seq<Table>, id: nat, mask: seq<byte>, size: nat)
    requires c.Valid() && |tables| == c.groups && id < c.servers && |mask| == c.MaskLength(id)
    requires AllLinear(tables, size)
    ensures Wide(tables, size)
    ensures Precomputed(c, tables, id, mask, size) == Answer(tables, Spread(c, id, mask), size)
  {
    hide Answer, XorByte;
    var right, left, own := c.RightGroups(id), c.LeftGroups(id), c.Start(id + 1);
    var lt, gap, rt, rest := tables[..left], tables[left..own], tables[own..own + right], tables[own + right..];
    RotatedParts(lt, gap, rt, rest, mask[right..], mask[..right], size);
    assert mask == mask[..right] + mask[right..];
    assert tables == lt + gap + rt + rest;
  }

  lemma {:induction false} SumOfAnswers(tables: seq<Table>, queries: seq<seq<byte>>, answers: seq<Block>, size: nat)
    requires AllLinear(tables, size) && Rect(queries, |tables|) && |answers| == |queries|
    requires Wide(tables, size)
    requires forall i :: 0 <= i < |queries| ==> answers[i] == Answer(tables, queries[i], size)
    ensures Rect(answers, size)
    ensures XorSum(answers, size) == Answer(tables, XorSum(queries, |tables|), size)
    decreases |queries|
  {
    hide AllLinear, Wide, Answer, XorByte, XorBytes;
    if queries == [] {
      AnswerZero(tables, size);
    } else {
      var k := |queries| - 1;
      SumOfAnswers(tables, queries[..k], answers[..k], size);
      AnswerXor(tables, XorSum(queries[..k], |tables|), queries[k], size);
    }
  }

  lemma AnswerPrefix(tables: seq<Table>, query: seq<byte>, a: nat, b: nat, size: nat)
    requires Wide(tables, size) && |tables| == |query| && a <= b <= |query|
    ensures Answer(tables[..b], query[..b], size)
         == XorBytes(Answer(tables[..a], query[..a], size), Answer(tables[a..b], query[a..b], size))
  {
    AnswerConcat(tables[..a], tables[a..b], query[..a], query[a..b], size);
    assert tables[..b] == tables[..a] + tables[a..b] && query[..b] == query[..a] + query[a..b];
  }

  /** Answering chunk by chunk, one chunk per server, is answering the whole query. */
  lemma {:induction false} SumOfChunks(c: Config, tables: seq<Table>, query: seq<byte>, answers: seq<Block>, n: nat, size: nat)
    requires c.Valid() && |tables| == |query| == c.groups && Wide(tables, size)
    requires |answers| == n <= c.servers
    requires forall i :: 0 <= i < n ==> answers[i] == Online(c, tables, i, query, size)
    ensures Rect(answers, size) && c.Start(n) <= c.groups
    ensures XorSum(answers, size) == Answer(tables[..c.Start(n)], query[..c.Start(n)], size)
    decreases n
  {
    hide Config.Start, Config.Size, Lookup, XorByte, XorBytes, Wide;
    c.StartZero();
    c.StartTotal();
    c.StartMonotone(n, c.servers);
    if n == 0 {
      LookupNone(Zeros(size), tables[..0], query[..0]);
    } else {
      c.StartNext(n - 1);
      SumOfChunks(c, tables, query, answers[..n - 1], n - 1, size);
      AnswerPrefix(tables, query, c.Start(n - 1), c.Start(n), size);
    }
  }

  /** The sum of all answers: what the masks select plus what the query selects. */
  lemma AnswersSplit(c: Config, tables: seq<Table>, masks: seq<seq<byte>>, query: seq<byte>, size: nat)
    requires Masks(c, masks) && |tables| == |query| == c.groups && AllLinear(tables, size)
    ensures Wide(tables, size)
    ensures XorSum(ServerAnswers(c, tables, masks, query, size), size)
         == XorBytes(Answer(tables, XorSum(Spreads(c, masks), c.groups), size), Answer(tables, query, size))
  {
    var stored, online := StoredAnswers(c, tables, masks, size), OnlineAnswers(c, tables, query, size);
    var answers := ServerAnswers(c, tables, masks, query, size);
    forall id | 0 <= id < c.servers
      ensures stored[id] == Answer(tables, Spreads(c, masks)[id], size)
      ensures answers[id] == XorBytes(stored[id], online[id])
    {
      PrecomputedIsSpread(c, tables, id, masks[id], size);
      LookupFrom(stored[id], Chunk(c, tables, id), Chunk(c, query, id));
    }
    SumOfAnswers(tables, Spreads(c, masks), stored, size);
    OnlineSum(c, tables, query, size);
    SumPairwise(stored, online, answers, size);
  }

  lemma OnlineSum(c: Config, tables: seq<Table>, query: seq<byte>, size: nat)
    requires c.Valid() && |tables| == |query| == c.groups && Wide(tables, size)
    ensures XorSum(OnlineAnswers(c, tables, query, size), size) == Answer(tables, query, size)
  {
    SumOfChunks(c, tables, query, OnlineAnswers(c, tables, query, size), c.servers, size);
    c.StartTotal();
    assert tables[..c.groups] == tables && query[..c.groups] == query;
  }

  /** All masks cancel: whatever the masks, the answers to the client's query sum to
      what the one-hot query selects. */
  lemma MasksCancel(c: Config, tables: seq<Table>, masks: seq<seq<byte>>, index: nat, size: nat)
    requires Masks(c, masks) && |tables| == c.groups && AllLinear(tables, size) && index / 8 < c.groups
    ensures Wide(tables, size)
    ensures XorSum(ServerAnswers(c, tables, masks, ClientQuery(c, masks, index), size), size)
         == Answer(tables, OneHot(index, c.groups), size)
  {
    var query, hot := ClientQuery(c, masks, index), OneHot(index, c.groups);
    var spread := XorSum(Spreads(c, masks), c.groups);
    AnswersSplit(c, tables, masks, query, size);
    AnswerXor(tables, spread, hot, size);
    BytesCancel(Answer(tables, hot, size), Answer(tables, spread, size));
  }

  /** End to end: for every database, every number of servers and chunks, every choice of
      masks and every order of the client's seed threads and result threads, the client
      ends up with the block it asked for. */
  lemma Retrieval(c: Config, raw: seq<Block>, size: nat, masks: seq<seq<byte>>, index: nat,
                  seedOrder: seq<nat>, resultOrder: seq<nat>)
    requires Masks(c, masks) && Rect(raw, size) && c.groups == GroupCount(|raw|) && index < |raw|
    requires IsSchedule(seedOrder, c.servers) && IsSchedule(resultOrder, c.servers)
    ensures forall i :: 0 <= i < |seedOrder| ==> seedOrder[i] < c.servers
    ensures forall i :: 0 <= i < |resultOrder| ==> resultOrder[i] < c.servers
    ensures
      var query := XorBytes(XorSum(Pick(Spreads(c, masks), seedOrder), c.groups), OneHot(index, c.groups));
      var answers := ServerAnswers(c, DatabaseTables(raw, size), masks, query, size);
      XorSum(Pick(answers, resultOrder), size) == raw[index]
  {
    var tables := DatabaseTables(raw, size);
    DatabaseLinear(raw, size);
    ScheduleIndependent(Spreads(c, masks), seedOrder, c.groups);
    ScheduleIndependent(ServerAnswers(c, tables, masks, ClientQuery(c, masks, index), size), resultOrder, size);
    MasksCancel(c, tables, masks, index, size);
    OneHotSelects(raw, index, size);
  }

  lemma SpreadsUpdated(c: Config, masks: seq<seq<byte>>, id: nat, mask: seq<byte>)
    requires Masks(c, masks) && id < c.servers && |mask| == c.MaskLength(id)
    ensures Masks(c, masks[id := mask])
    ensures var v := XorBytes(Spread(c, id, masks[id]), Spread(c, id, mask));
      XorSum(Spreads(c, masks[id := mask]), c.groups) == XorBytes(XorSum(Spreads(c, masks), c.groups), v)
  {
    hide XorSum, XorBytes, Spread, Config.MaskLength;
    var spreads, a, b := Spreads(c, masks), Spread(c, id, masks[id]), Spread(c, id, mask);
    SumUpdated(spreads, id, XorBytes(a, b), c.groups);
    BytesCancel(b, a);
    assert Spreads(c, masks[id := mask]) == spreads[id := XorBytes(a, XorBytes(a, b))];
  }

  lemma XorShuffle(a: seq<byte>, d: seq<byte>, r: seq<byte>)
    requires |a| == |d| == |r|
    ensures XorBytes(a, XorBytes(XorBytes(a, d), r)) == XorBytes(r, d)
    ensures XorBytes(r, d) == r <==> d == Zeros(|r|)
  {
    BytesAssoc(a, d, r);
    BytesCancel(XorBytes(d, r), a);
    BytesComm(d, r);
    BytesCancel(d, r);
    BytesSelf(r);
    BytesZero(r);
  }

  lemma XorIsZero(a: seq<byte>, b: seq<byte>)
    requires |a| == |b|
    ensures XorBytes(a, b) == Zeros(|a|) <==> a == b
  {
    BytesCancel(b, a);
    BytesSelf(a);
    BytesZero(a);
  }

  /** Client and servers have to expand the seeds alike: if the client uses another mask for
      one server than that server did, the combined answers are the block with the difference
      of what the two masks select, and so the block exactly when they select the same. */
  lemma OtherMask(c: Config, raw: seq<Block>, size: nat, masks: seq<seq<byte>>, index: nat, id: nat, mask: seq<byte>)
    requires Masks(c, masks) && Rect(raw, size) && c.groups == GroupCount(|raw|) && index < |raw|
    requires id < c.servers && |mask| == c.MaskLength(id)
    ensures Masks(c, masks[id := mask])
    ensures
      var tables := DatabaseTables(raw, size);
      var combined := XorSum(ServerAnswers(c, tables, masks, ClientQuery(c, masks[id := mask], index), size), size);
      var served, taken := Precomputed(c, tables, id, masks[id], size), Precomputed(c, tables, id, mask, size);
      && combined == XorBytes(raw[index], XorBytes(served, taken))
      && (combined == raw[index] <==> served == taken)
  {
    hide Spread, Precomputed, ServerAnswers, Answer, DatabaseTables, XorSum, XorBytes, Spreads, OneHot, AllLinear, Wide;
    var tables := DatabaseTables(raw, size);
    var a, b := Spread(c, id, masks[id]), Spread(c, id, mask);
    var sum, hot := XorSum(Spreads(c, masks), c.groups), OneHot(index, c.groups);
    DatabaseLinear(raw, size);
    SpreadsUpdated(c, masks, id, mask);
    AnswersSplit(c, tables, masks, ClientQuery(c, masks[id := mask], index), size);
    AnswerXor(tables, XorBytes(sum, XorBytes(a, b)), hot, size);
    AnswerXor(tables, sum, XorBytes(a, b), size);
    AnswerXor(tables, a, b, size);
    PrecomputedIsSpread(c, tables, id, masks[id], size);
    PrecomputedIsSpread(c, tables, id, mask, size);
    OneHotSelects(raw, index, size);
    var served, taken := Precomputed(c, tables, id, masks[id], size), Precomputed(c, tables, id, mask, size);
    XorShuffle(Answer(tables, sum, size), XorBytes(served, taken), raw[index]);
    XorIsZero(served, taken);
  }

  /** Preprocessing preserves meaning: precomputing over the tail and then looking up the
      own chunk is one lookup over the whole window, with the query chunk before the mask. */
  lemma PreprocessingRefinesOriginal(c: Config, tables: seq<Table>, id: nat, mask: seq<byte>, query: seq<byte>, size: nat)
    requires c.Valid() && |tables| == |query| == c.groups && id < c.servers && |mask| == c.MaskLength(id)
    requires Wide(tables, size)
    ensures Wide(Window(c, tables, id, c.chunks), size)
    ensures |Window(c, tables, id, c.chunks)| == |Chunk(c, query, id) + mask|
    ensures ServerAnswer(c, tables, id, mask, query, size)
         == Answer(Window(c, tables, id, c.chunks), Chunk(c, query, id) + mask, size)
  {
    var own, tail := Chunk(c, tables, id), Tail(c, tables, id);
    WindowIsChunkThenTail(c, tables, id);
    AnswerConcat(own, tail, Chunk(c, query, id), mask, size);
    var stored, online := Answer(tail, mask, size), Answer(own, Chunk(c, query, id), size);
    LookupFrom(stored, own, Chunk(c, query, id));
    BytesComm(stored, online);
  }
}
