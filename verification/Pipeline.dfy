/** Answering a query while it arrives: the connection thread receives the query piece by
    piece and adds each piece to a counter, the executing thread consumes the bytes counted
    so far. Runs interleave the two threads at every read and every write of the flag, the
    counter and the buffer; adding to the counter is a read and a write. */
module Pipeline {
  import opened ByteStrings
  import opened Tables

  const CHUNK: nat := 32

  /** The executing thread: before its two resets, between them, about to test the flag,
      inside the loop body, about to look up the remainder, finished; astray once it looks
      up a byte behind the query, where the source has no defined meaning. */
  datatype Pc = Started | FlagReset | Testing | InBody | Leaving | Done | Astray

  /** The connection thread: waiting for a piece, a piece received but not yet counted, the
      counter read but not yet written back. */
  datatype Connection = Idle | Arrived(count: nat) | CounterRead(count: nat, counter: nat)

  /** The query, the tables it is looked up in, and the value it is looked up on. */
  datatype Job = Job(query: seq<byte>, tables: seq<Table>, value: Block) {
    predicate Valid() { |tables| == |query| && Wide(tables, |value|) }

    function Sequential(): Block
      requires Valid()
    {
      Lookup(value, tables, query)
    }
  }

  /** complete: the connection thread has announced the end of the query. The flag, the
      counter and the contents of the buffer are left over until they are written. taken
      records the bytes looked up, in order; the source keeps only their number. */
  datatype State = State(buffer: seq<byte>, received: nat, connection: Connection, complete: bool,
                         querySent: bool, availableBytes: nat, pc: Pc, currentGroup: nat, dest: Block,
                         taken: seq<byte>)

  datatype Event =
    | Receive | ReadCounter | WriteCounter | QueryComplete
    | ResetFlag | ResetCounter | Test | Body | Finish

  ghost predicate Init(j: Job, s: State) {
    && j.Valid() && |s.buffer| == |j.query|
    && s.received == 0 && s.connection == Idle && !s.complete && s.pc == Started && s.currentGroup == 0
    && s.dest == j.value && s.taken == []
  }

  function PieceSize(j: Job, s: State): nat
    requires s.received <= |j.query|
  {
    if s.received + CHUNK > |j.query| then |j.query| - s.received else CHUNK
  }

  predicate Enabled(j: Job, s: State, e: Event) {
    match e
    case Receive => s.connection == Idle && s.received < |j.query|
    case ReadCounter => s.connection.Arrived?
    case WriteCounter => s.connection.CounterRead?
    case QueryComplete => s.connection == Idle && s.received == |j.query| && !s.complete
    case ResetFlag => s.pc == Started
    case ResetCounter => s.pc == FlagReset
    case Test => s.pc == Testing
    case Body => s.pc == InBody
    case Finish => s.pc == Leaving
  }

  ghost predicate Inv(j: Job, s: State) {
    && j.Valid() && |s.buffer| == |j.query|
    && s.received <= |j.query|
    && (s.received < |j.query| ==> s.received % CHUNK == 0)
    && (s.connection != Idle ==> 0 < s.connection.count <= s.received)
    && s.buffer[..s.received] == j.query[..s.received]
    && (s.complete ==> s.received == |j.query| && s.connection == Idle)
    && s.currentGroup <= |j.query|
    && (s.connection.CounterRead? ==> s.availableBytes <= s.connection.counter)
    && (s.pc in {Started, FlagReset} ==> s.currentGroup == 0)
    && (s.pc in {FlagReset, Testing, InBody} && s.querySent ==> s.complete)
    && (s.pc in {Leaving, Done} ==> s.complete)
    && |s.taken| == (if s.pc == Done then |j.query| else s.currentGroup)
    && |s.dest| == |j.value|
    && s.dest == Lookup(j.value, j.tables[..|s.taken|], s.taken)
  }

  /** The loop tests how many bytes are counted, never how many have arrived: it looks up
      what the buffer holds. */
  function Apply(j: Job, s: State, e: Event): State
    requires j.Valid() && Enabled(j, s, e) && |s.buffer| == |j.query| && |s.dest| == |j.value|
    requires s.received <= |j.query| && s.currentGroup <= |j.query|
  {
    match e
    case Receive =>
      var n := PieceSize(j, s);
      s.(buffer := Splice(s.buffer, s.received, j.query[s.received..s.received + n]),
         received := s.received + n, connection := Arrived(n))
    case ReadCounter => s.(connection := CounterRead(s.connection.count, s.availableBytes))
    case WriteCounter => s.(availableBytes := s.connection.counter + s.connection.count, connection := Idle)
    case QueryComplete => s.(querySent := true, complete := true)
    case ResetFlag => s.(querySent := false, pc := FlagReset)
    case ResetCounter => s.(availableBytes := 0, pc := Testing)
    case Test => s.(pc := if s.querySent then Leaving else InBody)
    case Body =>
      var g := s.currentGroup;
      if s.availableBytes <= g then s.(pc := Testing)
      else if g == |j.query| then s.(pc := Astray)
      else s.(dest := XorBytes(s.dest, j.tables[g][s.buffer[g]]), currentGroup := g + 1, pc := Testing,
              taken := s.taken + [s.buffer[g]])
    case Finish =>
      var g := s.currentGroup;
      s.(dest := Lookup(s.dest, j.tables[g..], s.buffer[g..]), pc := Done, taken := s.taken + s.buffer[g..])
  }

  lemma ReceiveKeepsInv(j: Job, s: State)
    requires Inv(j, s) && Enabled(j, s, Receive)
    ensures Inv(j, Apply(j, s, Receive))
  {
    hide Lookup, Wide;
    var a, b := s.received, s.received + PieceSize(j, s);
    var s' := Apply(j, s, Receive);
    assert s'.buffer[..b] == s.buffer[..a] + j.query[a..b];
    assert j.query[..a] + j.query[a..b] == j.query[..b];
  }

  lemma BodyKeepsInv(j: Job, s: State)
    requires Inv(j, s) && Enabled(j, s, Body)
    ensures Inv(j, Apply(j, s, Body))
  {
    hide Lookup, XorBytes, Wide;
    var g := s.currentGroup;
    if s.availableBytes > g && g < |j.query| {
      var taken, tables := s.taken + [s.buffer[g]], j.tables[..g + 1];
      WidePrefix(j.tables, g + 1, |j.value|);
      LookupStep(j.value, tables, taken, g);
      assert taken[..g] == s.taken && tables[..g] == j.tables[..g] && taken[..g + 1] == taken && tables[..g + 1] == tables;
    }
  }

  lemma WidePrefix(tables: seq<Table>, n: nat, size: nat)
    requires Wide(tables, size) && n <= |tables|
    ensures Wide(tables[..n], size) && Wide(tables[n..], size)
  {
  }

  lemma FinishKeepsInv(j: Job, s: State)
    requires Inv(j, s) && Enabled(j, s, Finish)
    ensures Inv(j, Apply(j, s, Finish))
  {
    hide Lookup, Wide;
    var g := s.currentGroup;
    WidePrefix(j.tables, g, |j.value|);
    LookupConcat(j.value, j.tables[..g], j.tables[g..], s.taken, s.buffer[g..]);
    assert j.tables == j.tables[..g] + j.tables[g..] && j.tables[..|j.query|] == j.tables;
  }

  lemma StepKeepsInv(j: Job, s: State, e: Event)
    requires Inv(j, s) && Enabled(j, s, e)
    ensures Inv(j, Apply(j, s, e))
  {
    hide Lookup;
    match e
    case Receive => ReceiveKeepsInv(j, s);
    case Body => BodyKeepsInv(j, s);
    case Finish => FinishKeepsInv(j, s);
    case _ =>
  }

  // ----- the client's side

  function Concat(pieces: seq<seq<byte>>): seq<byte> {
    if pieces == [] then [] else Concat(pieces[..|pieces| - 1]) + pieces[|pieces| - 1]
  }

  /** The client sends the query in pieces of CHUNK bytes, the last one possibly shorter. */
  method SendChunks(data: seq<byte>) returns (pieces: seq<seq<byte>>)
    ensures Concat(pieces) == data
    ensures forall k :: 0 <= k < |pieces| ==> 0 < |pieces[k]| <= CHUNK
    ensures forall k :: 0 <= k < |pieces| - 1 ==> |pieces[k]| == CHUNK
  {
    pieces := [];
    var transferred, bytes := 0, CHUNK;
    while transferred < |data|
      invariant transferred <= |data| && Concat(pieces) == data[..transferred]
      invariant bytes == CHUNK || transferred == |data|
      invariant forall k :: 0 <= k < |pieces| ==> 0 < |pieces[k]| <= CHUNK
      invariant forall k :: 0 <= k < |pieces| && (k < |pieces| - 1 || bytes == CHUNK) ==> |pieces[k]| == CHUNK
    {
      if transferred + bytes > |data| {
        bytes := |data| - transferred;
      }
      var piece := data[transferred..transferred + bytes];
      assert (pieces + [piece])[..|pieces|] == pieces;
      assert data[..transferred] + piece == data[..transferred + bytes];
      pieces := pieces + [piece];
      transferred := transferred + bytes;
    }
    assert data[..transferred] == data;
  }

  // ----- whole runs

  ghost predicate Legal(j: Job, s: State, run: seq<Event>)
    requires Inv(j, s)
    decreases |run|
  {
    run != [] ==> Enabled(j, s, run[0]) && (StepKeepsInv(j, s, run[0]); Legal(j, Apply(j, s, run[0]), run[1..]))
  }

  ghost function After(j: Job, s: State, run: seq<Event>): State
    requires Inv(j, s) && Legal(j, s, run)
    decreases |run|
  {
    if run == [] then s else (StepKeepsInv(j, s, run[0]); After(j, Apply(j, s, run[0]), run[1..]))
  }

  lemma InitInv(j: Job, s: State)
    requires Init(j, s)
    ensures Inv(j, s)
  {
  }

  lemma {:induction false} RunKeepsInv(j: Job, s: State, run: seq<Event>)
    requires Inv(j, s) && Legal(j, s, run)
    ensures Inv(j, After(j, s, run))
    decreases |run|
  {
    if run != [] {
      StepKeepsInv(j, s, run[0]);
      RunKeepsInv(j, Apply(j, s, run[0]), run[1..]);
    }
  }

  /** Prepending an event to a run. */
  lemma Prepend(j: Job, s: State, e: Event, run: seq<Event>)
    requires Inv(j, s) && Enabled(j, s, e)
    requires Inv(j, Apply(j, s, e)) && Legal(j, Apply(j, s, e), run)
    ensures Legal(j, s, [e] + run) && After(j, s, [e] + run) == After(j, Apply(j, s, e), run)
  {
    assert ([e] + run)[1..] == run;
  }

  /** One run after another. */
  lemma {:induction false} Joined(j: Job, s: State, run: seq<Event>, more: seq<Event>)
    requires Inv(j, s) && Legal(j, s, run) && Inv(j, After(j, s, run)) && Legal(j, After(j, s, run), more)
    ensures Legal(j, s, run + more) && After(j, s, run + more) == After(j, After(j, s, run), more)
    decreases |run|
  {
    hide Apply, Lookup;
    if run == [] {
      assert run + more == more;
    } else {
      StepKeepsInv(j, s, run[0]);
      Joined(j, Apply(j, s, run[0]), run[1..], more);
      Prepend(j, s, run[0], run[1..] + more);
      assert [run[0]] + (run[1..] + more) == run + more;
    }
  }

  lemma Pair(j: Job, s: State, e: Event, f: Event)
    requires Inv(j, s) && Enabled(j, s, e) && Inv(j, Apply(j, s, e)) && Enabled(j, Apply(j, s, e), f)
    ensures Inv(j, Apply(j, Apply(j, s, e), f))
    ensures Legal(j, s, [e, f]) && After(j, s, [e, f]) == Apply(j, Apply(j, s, e), f)
  {
    hide Apply, Lookup;
    StepKeepsInv(j, Apply(j, s, e), f);
    Prepend(j, Apply(j, s, e), f, []);
    Prepend(j, s, e, [f] + []);
    assert [e] + ([f] + []) == [e, f];
  }

  // ----- runs without a torn addition

  /** Bytes the counter stands for, or will when the addition under way is written back. */
  function Claimed(s: State): nat {
    match s.connection
    case Idle => s.availableBytes
    case Arrived(n) => s.availableBytes + n
    case CounterRead(n, counter) => counter + n
  }

  /** In the loop no more bytes are counted than received. */
  predicate Counted(s: State) {
    (s.pc in {Testing, InBody} ==> Claimed(s) <= s.received) && s.pc != Astray
  }

  /** The counter is reset between the read and the write of an addition to it, and what was
      read, left over from the last query, is more than the bytes that arrived before. */
  predicate Torn(s: State, e: Event) {
    e == ResetCounter && s.connection.CounterRead? && s.connection.counter + s.connection.count > s.received
  }

  lemma CountedStep(j: Job, s: State, e: Event)
    requires Inv(j, s) && Enabled(j, s, e) && Counted(s)
    ensures Counted(Apply(j, s, e)) <==> !Torn(s, e)
  {
    hide Lookup, Wide, XorBytes, Splice;
  }

  /** Every byte looked up is that of the query. */
  predicate Right(j: Job, s: State) {
    |s.taken| <= |j.query| && s.taken == j.query[..|s.taken|]
  }

  lemma RightStep(j: Job, s: State, e: Event)
    requires Inv(j, s) && Enabled(j, s, e) && Counted(s) && Right(j, s)
    ensures Right(j, Apply(j, s, e))
  {
    hide Lookup, Wide, XorBytes, Splice;
    var g := s.currentGroup;
    if e == Body && s.availableBytes > g {
      assert s.buffer[g] == s.buffer[..s.received][g] == j.query[..s.received][g];
      assert j.query[..g + 1] == j.query[..g] + [j.query[g]];
    } else if e == Finish {
      assert s.buffer[..s.received] == s.buffer && j.query[..s.received] == j.query;
      assert j.query[..g] + j.query[g..] == j.query == j.query[..|j.query|];
    }
  }

  ghost predicate NeverTorn(j: Job, s: State, run: seq<Event>)
    requires Inv(j, s) && Legal(j, s, run)
    decreases |run|
  {
    run != [] ==> !Torn(s, run[0]) && (StepKeepsInv(j, s, run[0]); NeverTorn(j, Apply(j, s, run[0]), run[1..]))
  }

  lemma {:induction false} NeverTornStaysRight(j: Job, s: State, run: seq<Event>)
    requires Inv(j, s) && Legal(j, s, run) && Counted(s) && Right(j, s) && NeverTorn(j, s, run)
    ensures Counted(After(j, s, run)) && Right(j, After(j, s, run))
    decreases |run|
  {
    if run != [] {
      StepKeepsInv(j, s, run[0]);
      CountedStep(j, s, run[0]);
      RightStep(j, s, run[0]);
      NeverTornStaysRight(j, Apply(j, s, run[0]), run[1..]);
    }
  }

  /** In a run from the start without a torn addition every byte looked up is that of the
      query and no lookup goes behind it, so that when the executing thread finishes, the
      answer is that of one sequential lookup. */
  lemma PipelineRefinesSequential(j: Job, s: State, run: seq<Event>)
    requires Init(j, s) && Inv(j, s) && Legal(j, s, run) && NeverTorn(j, s, run)
    ensures var r := After(j, s, run);
      && r.pc != Astray && |r.taken| <= |j.query| && r.taken == j.query[..|r.taken|]
      && r.dest == Lookup(j.value, j.tables[..|r.taken|], r.taken)
      && (r.pc == Done ==> r.dest == j.Sequential())
  {
    NeverTornStaysRight(j, s, run);
    RunKeepsInv(j, s, run);
    assert j.tables[..|j.query|] == j.tables && j.query[..|j.query|] == j.query;
  }

  /** Before and after the reset no more is claimed than received, or nothing is sent. */
  predicate Fresh(j: Job, s: State) {
    j.query == [] || Claimed(s) <= s.received
  }

  lemma FreshStep(j: Job, s: State, e: Event)
    requires Inv(j, s) && Enabled(j, s, e) && Fresh(j, s)
    ensures Fresh(j, Apply(j, s, e)) && !Torn(s, e)
  {
    hide Lookup, Wide, XorBytes, Splice;
  }

  lemma {:induction false} FreshNeverTorn(j: Job, s: State, run: seq<Event>)
    requires Inv(j, s) && Legal(j, s, run) && Fresh(j, s)
    ensures NeverTorn(j, s, run)
    decreases |run|
  {
    if run != [] {
      StepKeepsInv(j, s, run[0]);
      FreshStep(j, s, run[0]);
      FreshNeverTorn(j, Apply(j, s, run[0]), run[1..]);
    }
  }

  // ----- what a torn addition makes possible

  /** A state in the loop, the connection idle, the end not announced. */
  predicate Looping(s: State) {
    s.connection == Idle && !s.complete && !s.querySent && s.pc == Testing
  }

  /** The state with everything received up to a given place. */
  function Received(j: Job, s: State, n: nat): State
    requires s.received <= n <= |j.query| == |s.buffer|
  {
    s.(buffer := j.query[..n] + s.buffer[n..], received := n, availableBytes := s.availableBytes + n - s.received)
  }

  lemma PieceArrives(j: Job, s: State)
    requires Inv(j, s) && Looping(s) && s.received < |j.query|
    ensures Legal(j, s, [Receive] + [ReadCounter, WriteCounter])
    ensures Inv(j, Received(j, s, s.received + PieceSize(j, s)))
    ensures After(j, s, [Receive] + [ReadCounter, WriteCounter]) == Received(j, s, s.received + PieceSize(j, s))
  {
    hide Lookup, Wide, XorBytes;
    var arrived, at := Apply(j, s, Receive), s.received + PieceSize(j, s);
    StepKeepsInv(j, s, Receive);
    StepKeepsInv(j, arrived, ReadCounter);
    Pair(j, arrived, ReadCounter, WriteCounter);
    Prepend(j, s, Receive, [ReadCounter, WriteCounter]);
    assert arrived.buffer == j.query[..at] + s.buffer[at..] by {
      assert j.query[..at] == j.query[..s.received] + j.query[s.received..at];
    }
  }

  lemma ReceivedTwice(j: Job, s: State, m: nat, n: nat)
    requires s.received <= m <= n <= |j.query| == |s.buffer|
    ensures Received(j, Received(j, s, m), n) == Received(j, s, n)
    ensures s.received == n && s.buffer[..n] == j.query[..n] ==> Received(j, s, n) == s
  {
    assert (j.query[..m] + s.buffer[m..])[n..] == s.buffer[n..];
    assert s.buffer == s.buffer[..n] + s.buffer[n..];
  }

  /** Pieces can arrive up to the end of any piece while the executing thread pauses. */
  lemma {:induction false} CanReceive(j: Job, s: State, n: nat) returns (run: seq<Event>)
    requires Inv(j, s) && Looping(s) && s.received <= n <= |j.query| && (n < |j.query| ==> n % CHUNK == 0)
    ensures Legal(j, s, run) && Inv(j, Received(j, s, n)) && After(j, s, run) == Received(j, s, n)
    decreases n - s.received
  {
    hide Lookup, Wide, Apply, Legal;
    if s.received == n {
      run := [];
      ReceivedTwice(j, s, n, n);
      Nothing(j, s);
    } else {
      var at := s.received + PieceSize(j, s);
      PieceArrives(j, s);
      PieceEnds(s.received, n, |j.query|);
      ReceivedTwice(j, s, at, n);
      var rest := CanReceive(j, Received(j, s, at), n);
      Joined(j, s, [Receive] + [ReadCounter, WriteCounter], rest);
      run := [Receive] + [ReadCounter, WriteCounter] + rest;
    }
  }

  lemma Nothing(j: Job, s: State)
    requires Inv(j, s)
    ensures Legal(j, s, []) && After(j, s, []) == s
  {
  }

  lemma PieceEnds(received: nat, n: nat, all: nat)
    requires received % CHUNK == 0 && received < n <= all && (n < all ==> n % CHUNK == 0)
    ensures (if received + CHUNK > all then all else received + CHUNK) <= n
  {
  }

  lemma ByteConsumed(j: Job, s: State)
    requires Inv(j, s) && Looping(s) && s.currentGroup < |j.query| && s.currentGroup < s.availableBytes
    ensures Legal(j, s, [Test, Body]) && Inv(j, After(j, s, [Test, Body]))
    ensures var g, r := s.currentGroup, After(j, s, [Test, Body]);
      r == s.(currentGroup := g + 1, taken := s.taken + [s.buffer[g]], dest := r.dest)
  {
    hide Lookup, Wide, XorBytes;
    StepKeepsInv(j, s, Test);
    Pair(j, s, Test, Body);
  }

  /** As many bytes as are counted can be consumed while nothing arrives. */
  lemma {:induction false} CanConsume(j: Job, s: State, n: nat) returns (run: seq<Event>)
    requires Inv(j, s) && Looping(s) && s.currentGroup <= n <= |j.query| && n <= s.availableBytes
    ensures Legal(j, s, run) && Inv(j, After(j, s, run))
    ensures var r := After(j, s, run);
      r == s.(currentGroup := n, taken := s.taken + s.buffer[s.currentGroup..n], dest := r.dest)
    decreases n - s.currentGroup
  {
    hide Lookup, Wide, Apply, Legal, After;
    var g := s.currentGroup;
    if g == n {
      run := [];
      Nothing(j, s);
      assert s.taken + s.buffer[n..n] == s.taken;
    } else {
      ByteConsumed(j, s);
      var rest := CanConsume(j, After(j, s, [Test, Body]), n);
      assert s.taken + [s.buffer[g]] + s.buffer[g + 1..n] == s.taken + s.buffer[g..n];
      Joined(j, s, [Test, Body], rest);
      run := [Test, Body] + rest;
    }
  }

  /** In the loop, with the whole query received, the end can be announced and the rest
      looked up at once. */
  lemma CanLeave(j: Job, s: State) returns (run: seq<Event>)
    requires Inv(j, s) && Looping(s) && s.received == |j.query|
    ensures Legal(j, s, run) && Inv(j, After(j, s, run)) && After(j, s, run).pc == Done
    ensures After(j, s, run).taken == s.taken + j.query[s.currentGroup..]
  {
    hide Lookup, Wide;
    var announced := Apply(j, s, QueryComplete);
    StepKeepsInv(j, s, QueryComplete);
    StepKeepsInv(j, announced, Test);
    Pair(j, announced, Test, Finish);
    assert s.buffer == s.buffer[..s.received] == j.query[..s.received] == j.query;
    Prepend(j, s, QueryComplete, [Test, Finish]);
    run := [QueryComplete] + [Test, Finish];
  }

  /** With everything consumed and more counted the next lookup goes behind the query. */
  lemma OneBeyond(j: Job, s: State)
    requires Inv(j, s) && Looping(s) && s.currentGroup == |j.query| < s.availableBytes
    ensures Legal(j, s, [Test, Body]) && After(j, s, [Test, Body]).pc == Astray
  {
    StepKeepsInv(j, s, Test);
    Pair(j, s, Test, Body);
  }

  /** From the loop, more counted than received, some run looks up a byte behind the query. */
  lemma CanOverrun(j: Job, s: State) returns (run: seq<Event>)
    requires Inv(j, s) && Looping(s) && s.availableBytes > s.received
    ensures Legal(j, s, run) && After(j, s, run).pc == Astray
  {
    hide Lookup, Wide, Apply, Legal, After;
    var pieces := CanReceive(j, s, |j.query|);
    var all := Received(j, s, |j.query|);
    var bytes := CanConsume(j, all, |j.query|);
    OneBeyond(j, After(j, all, bytes));
    Joined(j, all, bytes, [Test, Body]);
    Joined(j, s, pieces, bytes + [Test, Body]);
    run := pieces + (bytes + [Test, Body]);
  }

  /** After every torn addition some continuation looks up a byte behind the query. */
  lemma TornGoesAstray(j: Job, s: State, e: Event) returns (run: seq<Event>)
    requires Inv(j, s) && Enabled(j, s, e) && Torn(s, e)
    ensures Legal(j, s, [e] + run) && After(j, s, [e] + run).pc == Astray
  {
    hide Lookup, Wide, XorBytes, Splice, Legal, After;
    StepKeepsInv(j, s, e);
    var reset := Apply(j, s, e);
    StepKeepsInv(j, reset, WriteCounter);
    var rest := CanOverrun(j, Apply(j, reset, WriteCounter));
    Prepend(j, reset, WriteCounter, rest);
    run := [WriteCounter] + rest;
    Prepend(j, s, e, run);
  }

  /** The first piece arrives and its addition is torn. */
  lemma CanTear(j: Job, s: State) returns (run: seq<Event>)
    requires Init(j, s) && Inv(j, s) && j.query != [] && s.availableBytes > 0
    ensures Legal(j, s, run) && Inv(j, After(j, s, run))
    ensures Enabled(j, After(j, s, run), ResetCounter) && Torn(After(j, s, run), ResetCounter)
    ensures var n := PieceSize(j, s);
      After(j, s, run) == s.(buffer := j.query[..n] + s.buffer[n..], received := n,
                             connection := CounterRead(n, s.availableBytes), querySent := false, pc := FlagReset)
  {
    hide Lookup, Wide;
    var arrived, n := Apply(j, s, Receive), PieceSize(j, s);
    StepKeepsInv(j, s, Receive);
    StepKeepsInv(j, arrived, ReadCounter);
    Pair(j, arrived, ReadCounter, ResetFlag);
    Prepend(j, s, Receive, [ReadCounter, ResetFlag]);
    assert arrived.buffer == j.query[..n] + s.buffer[n..];
    run := [Receive] + [ReadCounter, ResetFlag];
  }

  /** Some run looks up a byte behind the query exactly when something is sent and the last
      query has left the counter above zero. */
  lemma AstrayIff(j: Job, s: State)
    requires Init(j, s) && Inv(j, s)
    ensures (exists run :: Legal(j, s, run) && After(j, s, run).pc == Astray)
       <==> j.query != [] && s.availableBytes > 0
  {
    if j.query != [] && s.availableBytes > 0 {
      var run := CanTear(j, s);
      var more := TornGoesAstray(j, After(j, s, run), ResetCounter);
      Joined(j, s, run, [ResetCounter] + more);
    } else {
      forall run | Legal(j, s, run) ensures After(j, s, run).pc != Astray {
        FreshNeverTorn(j, s, run);
        NeverTornStaysRight(j, s, run);
      }
    }
  }

  // ----- exactly when a wrong answer is possible

  /** The places a counter that is `over` too high lets the loop reach before their piece
      has arrived. The first piece is in the buffer before an addition can be torn. */
  predicate Early(k: nat, over: nat) {
    CHUNK <= k && k % CHUNK < over
  }

  /** The byte left over in the buffer selects another table entry than that of the query. */
  predicate Misleads(j: Job, s: State, k: nat)
    requires j.Valid() && |s.buffer| == |j.query|
  {
    k < |j.query| && j.tables[k][s.buffer[k]] != j.tables[k][j.query[k]]
  }

  /** Before the reset the counter is what was left over and what has been received; after
      it, that is a bound, and it is exceeded only if a piece had arrived before. What is
      looked up is the query's byte or, at an early place, the one left over. */
  ghost predicate Traced(j: Job, s0: State, s: State) {
    && |s0.buffer| == |s.buffer| == |j.query| && |s.taken| <= |j.query| && s.received <= |j.query|
    && (s.pc in {Started, FlagReset} ==> Claimed(s) == s0.availableBytes + s.received)
    && (s.pc in {Testing, InBody} ==>
          Claimed(s) <= s0.availableBytes + s.received && (Claimed(s) > s.received ==> s.received > 0))
    && (forall k :: s.received <= k < |j.query| ==> s.buffer[k] == s0.buffer[k])
    && (forall k :: 0 <= k < |s.taken| ==>
          s.taken[k] == j.query[k] || (s.taken[k] == s0.buffer[k] && Early(k, s0.availableBytes)))
  }

  lemma EarlyPlace(g: nat, received: nat, over: nat)
    requires 0 < received <= g < received + over && received % CHUNK == 0
    ensures Early(g, over)
  {
  }

  lemma TracedReceive(j: Job, s0: State, s: State)
    requires Inv(j, s) && Enabled(j, s, Receive) && Traced(j, s0, s)
    ensures Traced(j, s0, Apply(j, s, Receive))
  {
    hide Lookup, Wide, Early;
  }

  lemma TracedBody(j: Job, s0: State, s: State)
    requires Inv(j, s) && Enabled(j, s, Body) && Traced(j, s0, s)
    ensures Traced(j, s0, Apply(j, s, Body))
  {
    hide Lookup, Wide, XorBytes, Early;
    var g := s.currentGroup;
    if s.availableBytes > g && g < |j.query| {
      if g < s.received {
        assert s.buffer[g] == s.buffer[..s.received][g] == j.query[..s.received][g];
      } else {
        EarlyPlace(g, s.received, s0.availableBytes);
      }
    }
  }

  lemma TracedFinish(j: Job, s0: State, s: State)
    requires Inv(j, s) && Enabled(j, s, Finish) && Traced(j, s0, s)
    ensures Traced(j, s0, Apply(j, s, Finish))
  {
    hide Lookup, Wide, Early;
    assert s.buffer == s.buffer[..s.received] == j.query[..s.received] == j.query;
  }

  lemma TracedStep(j: Job, s0: State, s: State, e: Event)
    requires Inv(j, s) && Enabled(j, s, e) && Traced(j, s0, s)
    ensures Traced(j, s0, Apply(j, s, e))
  {
    hide Lookup, Wide, Early;
    match e
    case Receive => TracedReceive(j, s0, s);
    case Body => TracedBody(j, s0, s);
    case Finish => TracedFinish(j, s0, s);
    case _ =>
  }

  lemma {:induction false} TracedRun(j: Job, s0: State, s: State, run: seq<Event>)
    requires Inv(j, s) && Legal(j, s, run) && Traced(j, s0, s)
    ensures Traced(j, s0, After(j, s, run))
    decreases |run|
  {
    hide Traced;
    if run != [] {
      StepKeepsInv(j, s, run[0]);
      TracedStep(j, s0, s, run[0]);
      TracedRun(j, s0, Apply(j, s, run[0]), run[1..]);
    }
  }

  /** Queries that select the same table entries have the same lookup. */
  lemma {:induction false} SameEntries(dest: Block, tables: seq<Table>, p: seq<byte>, q: seq<byte>)
    requires Wide(tables, |dest|) && |tables| == |p| == |q|
    requires forall k :: 0 <= k < |p| ==> tables[k][p[k]] == tables[k][q[k]]
    ensures Lookup(dest, tables, p) == Lookup(dest, tables, q)
    decreases |p|
  {
    hide XorBytes;
    if p != [] {
      var n := |p| - 1;
      SameEntries(dest, tables[..n], p[..n], q[..n]);
    }
  }

  /** Queries that select the same entries but for one place have different lookups. */
  lemma {:induction false} OtherEntry(dest: Block, tables: seq<Table>, p: seq<byte>, q: seq<byte>, i: nat)
    requires Wide(tables, |dest|) && |tables| == |p| == |q| && i < |p|
    requires forall k :: 0 <= k < |p| && k != i ==> tables[k][p[k]] == tables[k][q[k]]
    requires tables[i][p[i]] != tables[i][q[i]]
    ensures Lookup(dest, tables, p) != Lookup(dest, tables, q)
    decreases |p|
  {
    hide XorBytes;
    var n := |p| - 1;
    var a, b, x, y := Lookup(dest, tables[..n], p[..n]), Lookup(dest, tables[..n], q[..n]), tables[n][p[n]], tables[n][q[n]];
    if i == n {
      SameEntries(dest, tables[..n], p[..n], q[..n]);
      BytesCancel(x, a);
      BytesCancel(y, a);
    } else {
      OtherEntry(dest, tables[..n], p[..n], q[..n], i);
      BytesCancel(a, x);
      BytesCancel(b, x);
    }
  }

  /** The first misleading place of a piece, if that piece has one at place i. */
  lemma {:induction false} FirstMisleading(j: Job, s: State, i: nat) returns (f: nat)
    requires j.Valid() && |s.buffer| == |j.query| && Misleads(j, s, i)
    ensures i - i % CHUNK <= f <= i && Misleads(j, s, f)
    ensures forall k :: i - i % CHUNK <= k < f ==> !Misleads(j, s, k)
    decreases i
  {
    f := i;
    if k :| i - i % CHUNK <= k < i && Misleads(j, s, k) {
      assert k - k % CHUNK == i - i % CHUNK;
      f := FirstMisleading(j, s, k);
    }
  }

  /** The first piece arrives and its addition is torn, up to its end. */
  lemma CanOvercount(j: Job, s: State) returns (run: seq<Event>)
    requires Init(j, s) && Inv(j, s) && j.query != [] && s.availableBytes > 0
    ensures Legal(j, s, run) && Inv(j, After(j, s, run))
    ensures var n := PieceSize(j, s);
      After(j, s, run) == s.(buffer := j.query[..n] + s.buffer[n..], received := n,
                             availableBytes := s.availableBytes + n, querySent := false, pc := Testing)
  {
    hide Lookup, Wide;
    var tear := CanTear(j, s);
    var read := After(j, s, tear);
    StepKeepsInv(j, read, ResetCounter);
    Pair(j, read, ResetCounter, WriteCounter);
    Joined(j, s, tear, [ResetCounter, WriteCounter]);
    run := tear + [ResetCounter, WriteCounter];
  }

  /** The pieces before place `at` arrive; the loop runs up to place i; the rest arrives, and
      the thread finishes. */
  lemma CanLookAhead(j: Job, s: State, at: nat, i: nat) returns (run: seq<Event>)
    requires Inv(j, s) && Looping(s) && s.currentGroup == 0 && s.received <= at <= i < |j.query| && at % CHUNK == 0
    requires s.availableBytes + at - s.received > i
    ensures Legal(j, s, run) && Inv(j, After(j, s, run)) && After(j, s, run).pc == Done
    ensures After(j, s, run).taken == [] + (j.query[..at] + s.buffer[at..])[0..i + 1] + j.query[i + 1..]
  {
    hide Lookup, Wide, Apply, Inv, Legal, After;
    NothingTaken(j, s);
    var pieces := CanReceive(j, s, at);
    var before := Received(j, s, at);
    var bytes := CanConsume(j, before, i + 1);
    var beyond := After(j, before, bytes);
    var others := CanReceive(j, beyond, |j.query|);
    var all := Received(j, beyond, |j.query|);
    var end := CanLeave(j, all);
    Joined(j, beyond, others, end);
    Joined(j, before, bytes, others + end);
    Joined(j, s, pieces, bytes + (others + end));
    run := pieces + (bytes + (others + end));
  }

  lemma NothingTaken(j: Job, s: State)
    requires Inv(j, s) && s.currentGroup == 0 && s.pc != Done
    ensures s.taken == [] && |s.buffer| == |j.query|
  {
  }

  /** The addition for the first piece is torn, and the loop runs up to place i. */
  lemma CanMislead(j: Job, s: State, i: nat) returns (run: seq<Event>)
    requires Init(j, s) && Inv(j, s) && i < |j.query| && Early(i, s.availableBytes)
    ensures Legal(j, s, run) && Inv(j, After(j, s, run)) && After(j, s, run).pc == Done
    ensures var at := i - i % CHUNK;
      After(j, s, run).taken == j.query[..at] + s.buffer[at..i + 1] + j.query[i + 1..]
  {
    hide Lookup, Wide, Apply, Inv, Legal, After;
    var at := i - i % CHUNK;
    var overcount := CanOvercount(j, s);
    var torn := After(j, s, overcount);
    var more := CanLookAhead(j, torn, at, i);
    MisledBytes(j.query, s.buffer, CHUNK, at, i);
    Joined(j, s, overcount, more);
    run := overcount + more;
  }

  lemma MisledBytes(query: seq<byte>, buffer: seq<byte>, n: nat, at: nat, i: nat)
    requires |query| == |buffer| && n <= at <= i < |query|
    ensures var b := query[..at] + (query[..n] + buffer[n..])[at..];
      [] + b[0..i + 1] + query[i + 1..] == query[..at] + buffer[at..i + 1] + query[i + 1..]
  {
  }

  /** Some run finishes with a wrong answer exactly when some place behind the first piece
      can be reached before its piece arrives and what is left over there misleads. */
  lemma WrongIff(j: Job, s: State)
    requires Init(j, s) && Inv(j, s)
    ensures (exists run :: Legal(j, s, run) && After(j, s, run).pc == Done && After(j, s, run).dest != j.Sequential())
       <==> (exists i: nat :: Early(i, s.availableBytes) && Misleads(j, s, i))
  {
    if i: nat :| Early(i, s.availableBytes) && Misleads(j, s, i) {
      var run := WrongRun(j, s, i);
    } else {
      forall run | Legal(j, s, run) && After(j, s, run).pc == Done ensures After(j, s, run).dest == j.Sequential() {
        NeverMisled(j, s, run);
      }
    }
  }

  lemma WrongRun(j: Job, s: State, i: nat) returns (run: seq<Event>)
    requires Init(j, s) && Inv(j, s) && Early(i, s.availableBytes) && Misleads(j, s, i)
    ensures Legal(j, s, run) && After(j, s, run).pc == Done && After(j, s, run).dest != j.Sequential()
  {
    hide Lookup, Legal, After;
    var f := FirstMisleading(j, s, i);
    var at := f - f % CHUNK;
    assert at == i - i % CHUNK && f % CHUNK <= i % CHUNK;
    run := CanMislead(j, s, f);
    var r := After(j, s, run);
    assert j.tables[..|j.query|] == j.tables;
    TakenAt(j.query, s.buffer, at, f, r.taken);
    Misled(j, s, at, f, r.taken);
  }

  lemma Misled(j: Job, s: State, at: nat, f: nat, taken: seq<byte>)
    requires j.Valid() && |s.buffer| == |j.query| == |taken| && at <= f && Misleads(j, s, f)
    requires forall k :: at <= k < f ==> !Misleads(j, s, k)
    requires forall k :: 0 <= k < |j.query| ==> taken[k] == if at <= k <= f then s.buffer[k] else j.query[k]
    ensures Lookup(j.value, j.tables, taken) != j.Sequential()
  {
    hide Lookup;
    forall k | 0 <= k < |j.query| && k != f ensures j.tables[k][taken[k]] == j.tables[k][j.query[k]] {
      if at <= k < f {
        assert !Misleads(j, s, k);
      }
    }
    OtherEntry(j.value, j.tables, taken, j.query, f);
  }

  lemma TakenAt(query: seq<byte>, buffer: seq<byte>, at: nat, f: nat, taken: seq<byte>)
    requires |query| == |buffer| && at <= f < |query|
    requires taken == query[..at] + buffer[at..f + 1] + query[f + 1..]
    ensures |taken| == |query|
    ensures forall k :: 0 <= k < |query| ==> taken[k] == if at <= k <= f then buffer[k] else query[k]
  {
  }

  lemma NeverMisled(j: Job, s: State, run: seq<Event>)
    requires Init(j, s) && Inv(j, s) && Legal(j, s, run) && After(j, s, run).pc == Done
    requires forall i: nat :: Early(i, s.availableBytes) ==> !Misleads(j, s, i)
    ensures After(j, s, run).dest == j.Sequential()
  {
    hide Lookup, Early;
    TracedRun(j, s, s, run);
    RunKeepsInv(j, s, run);
    var r := After(j, s, run);
    assert j.tables[..|j.query|] == j.tables;
    forall k | 0 <= k < |j.query| ensures j.tables[k][r.taken[k]] == j.tables[k][j.query[k]] {
      assert Early(k, s.availableBytes) ==> !Misleads(j, s, k);
    }
    SameEntries(j.value, j.tables, r.taken, j.query);
  }

  /** A query of one byte more than a piece, a counter left at one, a zeroed buffer. */
  lemma WrongAnswer()
    ensures exists j: Job, s: State, run ::
      Init(j, s) && Inv(j, s) && Legal(j, s, run) && After(j, s, run).pc == Done && After(j, s, run).dest != j.Sequential()
  {
    var t: Table := seq(256, v requires 0 <= v < 256 => [v]);
    var j := Job(Zeros(CHUNK) + [1], seq(CHUNK + 1, _ => t), [0]);
    var s := State(Zeros(CHUNK + 1), 0, Idle, false, false, 1, Started, 0, [0], []);
    InitInv(j, s);
    assert j.tables[CHUNK] == t && t[0] == [0] && t[1] == [1];
    assert Early(CHUNK, 1) && Misleads(j, s, CHUNK);
    var run := WrongRun(j, s, CHUNK);
  }

  // ----- which runs finish

  /** The end of the query was announced, and the announcement is, or will be, erased by
      the executing thread's reset of the flag. */
  predicate Missed(s: State) {
    s.complete && (s.pc == Started || (s.pc in {FlagReset, Testing, InBody} && !s.querySent))
  }

  /** The announcement is missed exactly when it comes before the flag is reset. */
  lemma MissedStep(j: Job, s: State, e: Event)
    requires Inv(j, s) && Enabled(j, s, e) && !Missed(s)
    ensures Missed(Apply(j, s, e)) <==> e == QueryComplete && s.pc == Started
  {
  }

  /** The thread is in the loop body, everything is consumed, and still more is counted: the
      next lookup goes behind the query. */
  predicate Overrunning(j: Job, s: State) {
    s.pc == InBody && s.currentGroup == |j.query| && s.availableBytes > |j.query|
  }

  /** The executing thread waits for an announcement that was erased, or is or will be behind
      the query. */
  predicate NoWayOut(j: Job, s: State) { Missed(s) || s.pc == Astray || Overrunning(j, s) }

  lemma {:induction false} NoWayOutStays(j: Job, s: State, run: seq<Event>)
    requires Inv(j, s) && Legal(j, s, run) && NoWayOut(j, s)
    ensures NoWayOut(j, After(j, s, run)) && After(j, s, run).pc != Done
    decreases |run|
  {
    hide Lookup, Wide, XorBytes, Splice;
    if run != [] {
      StepKeepsInv(j, s, run[0]);
      NoWayOutStays(j, Apply(j, s, run[0]), run[1..]);
    }
  }

  /** A missed announcement excludes finishing. */
  lemma MissedForever(j: Job, s: State, run: seq<Event>)
    requires Inv(j, s) && Legal(j, s, run) && Missed(s)
    ensures After(j, s, run).pc != Done
  {
    NoWayOutStays(j, s, run);
  }

  /** For every job some run misses the announcement: the whole query arrives before the
      executing thread takes its first step. */
  lemma {:induction false} CanMiss(j: Job, s: State) returns (run: seq<Event>)
    requires Inv(j, s) && s.pc == Started && s.connection == Idle && !s.complete
    ensures Legal(j, s, run) && Missed(After(j, s, run))
    decreases |j.query| - s.received
  {
    if s.received == |j.query| {
      StepKeepsInv(j, s, QueryComplete);
      Prepend(j, s, QueryComplete, []);
      run := [QueryComplete] + [];
    } else {
      var arrived := Apply(j, s, Receive);
      StepKeepsInv(j, s, Receive);
      var read := Apply(j, arrived, ReadCounter);
      StepKeepsInv(j, arrived, ReadCounter);
      StepKeepsInv(j, read, WriteCounter);
      var rest := CanMiss(j, Apply(j, read, WriteCounter));
      Prepend(j, read, WriteCounter, rest);
      run := [WriteCounter] + rest;
      Prepend(j, arrived, ReadCounter, run);
      run := [ReadCounter] + run;
      Prepend(j, s, Receive, run);
      run := [Receive] + run;
    }
  }

  // ----- every fair run finishes

  predicate OfConnection(e: Event) { e in {Receive, ReadCounter, WriteCounter, QueryComplete} }

  /** A test of the flag that fails, or a round of the loop that finds no new byte. */
  predicate Waits(s: State, e: Event) {
    (e == Test && !s.querySent) || (e == Body && s.availableBytes <= s.currentGroup)
  }

  function PcWork(pc: Pc): nat {
    match pc
    case Started => 4
    case FlagReset => 3
    case Testing => 2
    case InBody => 2
    case Leaving => 1
    case Done => 0
    case Astray => 0
  }

  /** An upper bound on the events still to come that are not mere waiting. */
  function Work(j: Job, s: State): nat
    requires s.received <= |j.query| && s.currentGroup <= |j.query|
  {
    3 * (|j.query| - s.received) + (|j.query| - s.currentGroup) + PcWork(s.pc)
    + (match s.connection case Idle => 0 case Arrived(_) => 2 case CounterRead(_, _) => 1)
    + (if s.complete then 0 else 1)
  }

  lemma WorkDrops(j: Job, s: State, e: Event)
    requires Inv(j, s) && Enabled(j, s, e)
    ensures var s' := Apply(j, s, e);
      && s'.received <= |j.query| && s'.currentGroup <= |j.query|
      && if Waits(s, e) then Work(j, s') == Work(j, s) else Work(j, s') < Work(j, s)
  {
    hide Lookup, Wide, XorBytes, Splice;
    match e
    case Body =>
    case Receive =>
    case _ =>
  }

  lemma WorkStep(j: Job, s: State, e: Event)
    requires Inv(j, s) && Enabled(j, s, e)
    ensures Inv(j, Apply(j, s, e))
    ensures if Waits(s, e) then Work(j, Apply(j, s, e)) == Work(j, s) else Work(j, Apply(j, s, e)) < Work(j, s)
  {
    hide Lookup, Wide, XorBytes, Splice, Work, Waits, Apply;
    StepKeepsInv(j, s, e);
    WorkDrops(j, s, e);
  }

  /** Events of the executing thread in a run. */
  function ExecutorSteps(run: seq<Event>): nat {
    if run == [] then 0 else (if OfConnection(run[0]) then 0 else 1) + ExecutorSteps(run[1..])
  }

  /** A stretch of a run in which neither thread is starved: the connection thread takes a
      step or has none left, the executing thread takes two or has none left. */
  ghost predicate Round(j: Job, s: State, run: seq<Event>)
    requires Inv(j, s)
  {
    && Legal(j, s, run)
    && ((exists k :: 0 <= k < |run| && OfConnection(run[k])) || After(j, s, run).complete)
    && (ExecutorSteps(run) >= 2 || After(j, s, run).pc in {Done, Astray})
  }

  ghost predicate AllWait(j: Job, s: State, run: seq<Event>)
    requires Inv(j, s) && Legal(j, s, run)
    decreases |run|
  {
    run != [] ==> Waits(s, run[0]) && (StepKeepsInv(j, s, run[0]); AllWait(j, Apply(j, s, run[0]), run[1..]))
  }

  /** Either some event of the run did work, or all of them waited. */
  lemma {:induction false} WorkRun(j: Job, s: State, run: seq<Event>)
    requires Inv(j, s) && Legal(j, s, run)
    ensures Inv(j, After(j, s, run))
    ensures Work(j, After(j, s, run)) < Work(j, s) || (Work(j, After(j, s, run)) == Work(j, s) && AllWait(j, s, run))
    decreases |run|
  {
    hide Work, Waits, Lookup;
    if run != [] {
      WorkStep(j, s, run[0]);
      WorkRun(j, Apply(j, s, run[0]), run[1..]);
    }
  }

  /** A run of waiting leaves both threads where they are; once the end of the query is
      seen to be announced, at most one event waits. */
  lemma {:induction false} WaitingRun(j: Job, s: State, run: seq<Event>)
    requires Inv(j, s) && Legal(j, s, run) && AllWait(j, s, run)
    ensures After(j, s, run).querySent == s.querySent
    ensures forall k :: 0 <= k < |run| ==> !OfConnection(run[k])
    ensures run != [] ==> After(j, s, run).pc in {Testing, InBody}
    ensures s.querySent ==> |run| <= if s.pc == InBody then 1 else 0
    decreases |run|
  {
    hide Lookup;
    if run != [] {
      StepKeepsInv(j, s, run[0]);
      WaitingRun(j, Apply(j, s, run[0]), run[1..]);
      assert forall k :: 1 <= k < |run| ==> run[k] == run[1..][k - 1];
    }
  }

  lemma {:induction false} StepsBound(run: seq<Event>)
    ensures ExecutorSteps(run) <= |run|
    decreases |run|
  {
    if run != [] {
      StepsBound(run[1..]);
    }
  }

  /** Finished, waiting for an announcement that was erased, or behind the query. */
  predicate Ended(s: State) { s.pc == Done || Missed(s) || s.pc == Astray }

  /** Every such round does some work, unless the executing thread has ended or is lost. */
  lemma RoundWorks(j: Job, s: State, run: seq<Event>)
    requires Inv(j, s) && Round(j, s, run)
    ensures Inv(j, After(j, s, run))
    ensures var r := After(j, s, run); !Ended(r) ==> Work(j, r) < Work(j, s)
  {
    WorkRun(j, s, run);
    if AllWait(j, s, run) {
      WaitingRun(j, s, run);
      StepsBound(run);
    }
  }

  ghost predicate Rounds(j: Job, s: State, rounds: seq<seq<Event>>)
    requires Inv(j, s)
    decreases |rounds|
  {
    rounds != [] ==> Round(j, s, rounds[0]) && (RunKeepsInv(j, s, rounds[0]); Rounds(j, After(j, s, rounds[0]), rounds[1..]))
  }

  ghost function AfterRounds(j: Job, s: State, rounds: seq<seq<Event>>): State
    requires Inv(j, s) && Rounds(j, s, rounds)
    decreases |rounds|
  {
    if rounds == [] then s
    else (RunKeepsInv(j, s, rounds[0]); AfterRounds(j, After(j, s, rounds[0]), rounds[1..]))
  }

  lemma {:induction false} EndedStays(j: Job, s: State, run: seq<Event>)
    requires Inv(j, s) && Legal(j, s, run) && Ended(s)
    ensures Ended(After(j, s, run))
    decreases |run|
  {
    hide Lookup, Wide, XorBytes, Splice;
    if run != [] {
      StepKeepsInv(j, s, run[0]);
      EndedStays(j, Apply(j, s, run[0]), run[1..]);
    }
  }

  lemma {:induction false} EndedForever(j: Job, s: State, rounds: seq<seq<Event>>)
    requires Inv(j, s) && Rounds(j, s, rounds) && Ended(s)
    ensures Ended(AfterRounds(j, s, rounds))
    decreases |rounds|
  {
    if rounds != [] {
      RunKeepsInv(j, s, rounds[0]);
      EndedStays(j, s, rounds[0]);
      EndedForever(j, After(j, s, rounds[0]), rounds[1..]);
    }
  }

  /** Every run in which neither thread is starved ends within a bounded number of rounds:
      the executing thread is done, unless an announcement was missed or a lookup went behind
      the query. */
  lemma {:induction false} FairRunsEnd(j: Job, s: State, rounds: seq<seq<Event>>)
    requires Inv(j, s) && Rounds(j, s, rounds) && |rounds| > Work(j, s)
    ensures Ended(AfterRounds(j, s, rounds))
    decreases |rounds|
  {
    RoundWorks(j, s, rounds[0]);
    var r := After(j, s, rounds[0]);
    if Ended(r) {
      EndedForever(j, r, rounds[1..]);
    } else {
      FairRunsEnd(j, r, rounds[1..]);
    }
  }

  /** The announcement is up and the thread in the loop, or behind it. */
  predicate Leaves(j: Job, s: State) {
    (s.querySent && s.pc in {Testing, InBody} && !Overrunning(j, s)) || s.pc in {Leaving, Done}
  }

  /** Then the loop is left at the next test, whatever is counted, and the rest looked up: the
      thread is done after at most three steps of its own. */
  lemma {:induction false} LeavesAtOnce(j: Job, s: State, run: seq<Event>)
    requires Inv(j, s) && Legal(j, s, run) && Leaves(j, s)
    requires ExecutorSteps(run) >= (match s.pc case InBody => 3 case Testing => 2 case Leaving => 1 case _ => 0)
    ensures After(j, s, run).pc == Done
    decreases |run|
  {
    hide Lookup, Wide, XorBytes, Splice;
    if run != [] {
      StepKeepsInv(j, s, run[0]);
      LeavesAtOnce(j, Apply(j, s, run[0]), run[1..]);
    }
  }

  /** A next event towards the end: the loop body is left first, additions are completed,
      then the resets made, then the rest received and announced. */
  function Choose(j: Job, s: State): Event {
    if s.pc == InBody then Body
    else if s.connection.Arrived? then ReadCounter
    else if s.connection.CounterRead? then WriteCounter
    else if s.pc == Started then ResetFlag
    else if s.pc == FlagReset then ResetCounter
    else if s.received < |j.query| then Receive
    else if !s.complete then QueryComplete
    else if s.pc == Testing then Test
    else Finish
  }

  lemma ChooseWorks(j: Job, s: State)
    requires Inv(j, s) && !NoWayOut(j, s) && s.pc != Done
    ensures var e := Choose(j, s);
      && Enabled(j, s, e) && !NoWayOut(j, Apply(j, s, e))
      && (Waits(s, e) ==> s.pc == InBody && Apply(j, s, e).pc == Testing)
  {
    hide Lookup, Wide, XorBytes, Splice;
  }

  lemma {:induction false} CanFinish(j: Job, s: State) returns (run: seq<Event>)
    requires Inv(j, s) && !NoWayOut(j, s)
    ensures Legal(j, s, run) && After(j, s, run).pc == Done
    decreases Work(j, s), s.pc == InBody
  {
    hide Lookup, XorBytes, Wide, Splice, Choose, NoWayOut, Waits;
    if s.pc == Done {
      run := [];
    } else {
      var e := Choose(j, s);
      ChooseWorks(j, s);
      WorkStep(j, s, e);
      var rest := CanFinish(j, Apply(j, s, e));
      Prepend(j, s, e, rest);
      run := [e] + rest;
    }
  }

  /** From any state some run finishes exactly when the announcement was not missed and the
      thread is not, or in its next step, behind the query. */
  lemma FinishesIff(j: Job, s: State)
    requires Inv(j, s)
    ensures (exists run :: Legal(j, s, run) && After(j, s, run).pc == Done) <==> !NoWayOut(j, s)
  {
    if NoWayOut(j, s) {
      forall run | Legal(j, s, run) ensures After(j, s, run).pc != Done {
        NoWayOutStays(j, s, run);
      }
    } else {
      var run := CanFinish(j, s);
    }
  }

  /** If the remainder is looked up with the threaded routine, which overwrites, the answer
      is right exactly when the part consumed in the loop had cancelled the stored value. */
  lemma ThreadedRemainder(j: Job, g: nat)
    requires j.Valid() && g <= |j.query|
    ensures var consumed := Lookup(j.value, j.tables[..g], j.query[..g]);
      (Answer(j.tables[g..], j.query[g..], |j.value|) == Lookup(j.value, j.tables, j.query))
        <==> (consumed == Zeros(|j.value|))
  {
    hide Lookup, XorBytes;
    var consumed := Lookup(j.value, j.tables[..g], j.query[..g]);
    var rest := Answer(j.tables[g..], j.query[g..], |j.value|);
    LookupConcat(j.value, j.tables[..g], j.tables[g..], j.query[..g], j.query[g..]);
    assert j.tables == j.tables[..g] + j.tables[g..] && j.query == j.query[..g] + j.query[g..];
    LookupFrom(consumed, j.tables[g..], j.query[g..]);
    BytesCancel(consumed, rest);
    BytesSelf(rest);
    BytesZero(rest);
  }

  /** It is wrong for every job whose stored value is not zero and that consumes nothing in
      the loop, such as one with an empty query. */
  lemma ThreadedRemainderWrong(j: Job)
    requires j.Valid() && j.value != Zeros(|j.value|)
    ensures Answer(j.tables, j.query, |j.value|) != Lookup(j.value, j.tables, j.query)
    ensures exists e: Job :: e.Valid() && e.value != Zeros(|e.value|)
  {
    ThreadedRemainder(j, 0);
    assert j.tables[0..] == j.tables && j.query[0..] == j.query;
    assert Lookup(j.value, j.tables[..0], j.query[..0]) == j.value;
    var e := Job([], [], [1]);
    assert e.Valid() && e.value != Zeros(1) by { assert e.value[0] != Zeros(1)[0]; }
  }
}
