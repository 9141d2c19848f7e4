/** Whole runs of the pool of precomputed tuples on the central server's worker: one
    producer thread, one consumer thread, interleaved at every point where they read or
    write shared state. The two critical sections are single steps; the checks of the
    counter and the flag writes outside the lock are steps of their own. */
module SeedPool {
  import opened SeedRing

  /** Absent: no thread. Checking: about to compare the counter with the capacity.
      Filling: compared, about to lock and produce. Leaving: left the loop, flag not yet
      cleared. */
  datatype Producer = Absent | Checking | Filling | Leaving

  /** Waiting: about to compare the counter with zero. Granted: found it positive, about
      to lock and take. */
  datatype Consumer = Waiting | Granted

  datatype State<T> = State(ring: Ring<T>, precomputing: bool, producer: Producer, consumer: Consumer,
                            constructed: bool, handed: seq<T>)

  /** Construct: the constructor, which has launched the producer, sets the flag. */
  datatype Event<T> = Construct | Check | Produce(tuple: T) | Clear | Wait | Take

  ghost predicate Init<T>(s: State<T>, max: nat) {
    && max > 0 && |s.ring.slots| == max
    && s.ring.read == s.ring.write == s.ring.available == 0
    && !s.precomputing && !s.constructed
    && s.producer == Checking && s.consumer == Waiting && s.handed == []
  }

  predicate Enabled<T>(s: State<T>, e: Event<T>) {
    match e
    case Construct => !s.constructed
    case Check => s.producer == Checking
    case Produce(_) => s.producer == Filling
    case Clear => s.producer == Leaving
    case Wait => s.constructed && s.consumer == Waiting
    case Take => s.consumer == Granted
  }

  function Apply<T>(s: State<T>, e: Event<T>): State<T>
    requires s.ring.Valid() && Enabled(s, e)
    requires e.Take? ==> s.ring.available > 0
  {
    match e
    case Construct => s.(constructed := true, precomputing := true)
    case Check => s.(producer := if s.ring.available < |s.ring.slots| then Filling else Leaving)
    case Produce(t) => s.(ring := s.ring.Put(t), producer := Checking)
    case Clear => s.(precomputing := false, producer := Absent)
    case Wait => s.(consumer := if s.ring.available == 0 then Waiting else Granted)
    case Take =>
      var s' := s.(ring := s.ring.Take(), consumer := Waiting, handed := s.handed + [s.ring.slots[s.ring.read]]);
      if !s.precomputing && s'.ring.available <= |s.ring.slots| / 2
      then s'.(producer := Checking, precomputing := true) else s'
  }

  /** What holds in every reachable state. */
  ghost predicate Inv<T>(s: State<T>) {
    && s.ring.Valid()
    && (s.producer == Filling ==> s.ring.available < |s.ring.slots|)
    && (s.consumer == Granted ==> s.ring.available > 0)
    && (s.constructed && s.producer != Absent ==> s.precomputing)
    && (!s.constructed ==> s.consumer == Waiting && (s.producer == Leaving ==> s.ring.available == |s.ring.slots|))
  }

  /** Every event of the run is possible where it happens. */
  ghost predicate Legal<T>(s: State<T>, run: seq<Event<T>>)
    requires Inv(s)
    decreases |run|
  {
    run != [] ==>
      && Enabled(s, run[0])
      && (StepKeepsInv(s, run[0]); Legal(Apply(s, run[0]), run[1..]))
  }

  ghost function After<T>(s: State<T>, run: seq<Event<T>>): (r: State<T>)
    requires Inv(s) && Legal(s, run)
    ensures Inv(r)
    decreases |run|
  {
    if run == [] then s else (StepKeepsInv(s, run[0]); After(Apply(s, run[0]), run[1..]))
  }

  /** The tuples produced in a run, in order. */
  ghost function Produced<T>(run: seq<Event<T>>): seq<T> {
    if run == [] then [] else Made(run[0]) + Produced(run[1..])
  }

  function Made<T>(e: Event<T>): seq<T> {
    if e.Produce? then [e.tuple] else []
  }

  /** What was handed out, followed by what waits in the ring. */
  function Stream<T>(s: State<T>): seq<T>
    requires s.ring.Valid()
  {
    s.handed + s.ring.Live()
  }

  /** Although both checks of the counter happen outside the lock, the body each of them
      guards finds what was checked. */
  lemma StepKeepsInv<T>(s: State<T>, e: Event<T>)
    requires Inv(s) && Enabled(s, e)
    ensures e.Take? ==> s.ring.available > 0
    ensures e.Produce? ==> s.ring.available < |s.ring.slots|
    ensures Inv(Apply(s, e))
    ensures |Apply(s, e).ring.slots| == |s.ring.slots|
    ensures Stream(Apply(s, e)) == Stream(s) + Made(e)
  {
    hide Ring.Live;
    match e
    case Produce(t) =>
      s.ring.PutLive(t);
      assert s.handed + (s.ring.Live() + [t]) == s.handed + s.ring.Live() + [t];
    case Take =>
      s.ring.TakeLive();
      var x, rest := s.ring.slots[s.ring.read], s.ring.Take().Live();
      assert s.handed + [x] + rest == s.handed + ([x] + rest);
    case _ =>
  }

  /** A new producer is launched only when there is none. */
  lemma OneProducer<T>(s: State<T>)
    requires Inv(s) && s.consumer == Granted && !s.precomputing
    ensures s.producer == Absent
  {
  }

  /** First in, first out over whole runs: what was handed out, followed by what waits in
      the ring, is what was produced. Nothing is lost, duplicated or overwritten. */
  lemma {:induction false} FirstInFirstOut<T>(s: State<T>, run: seq<Event<T>>)
    requires Inv(s) && Legal(s, run)
    ensures Stream(After(s, run)) == Stream(s) + Produced(run)
    ensures |After(s, run).ring.slots| == |s.ring.slots|
    decreases |run|
  {
    hide Stream, Made;
    if run == [] {
      assert Stream(s) + [] == Stream(s);
    } else {
      StepKeepsInv(s, run[0]);
      FirstInFirstOut(Apply(s, run[0]), run[1..]);
      assert Stream(s) + (Made(run[0]) + Produced(run[1..])) == Stream(s) + Made(run[0]) + Produced(run[1..]);
    }
  }

  lemma InitInv<T>(s: State<T>, max: nat)
    requires Init(s, max)
    ensures Inv(s) && Stream(s) == []
  {
  }

  lemma PartsOf<T>(all: seq<T>, a: seq<T>, b: seq<T>)
    requires all == a + b
    ensures a <= all
    ensures forall i :: 0 <= i < |a| ==> a[i] == all[i]
    ensures forall i :: 0 <= i < |b| ==> b[i] == all[|a| + i]
  {
  }

  /** Safety of every run from the start: the counter stays within the capacity, the write
      position is the read position plus the counter, and the tuples handed out are a
      prefix of those produced, so that each of them is valid if every produced one is. */
  lemma PoolSafety<T(!new)>(s: State<T>, max: nat, run: seq<Event<T>>, valid: T -> bool)
    requires Init(s, max) && Inv(s) && Legal(s, run)
    ensures
      var r := After(s, run);
      && 0 <= r.ring.available <= max
      && r.ring.write == (r.ring.read + r.ring.available) % max
      && r.handed + r.ring.Live() == Produced(run)
      && r.handed <= Produced(run)
      && ((forall i :: 0 <= i < |Produced(run)| ==> valid(Produced(run)[i])) ==>
           (&& (forall i :: 0 <= i < |r.handed| ==> valid(r.handed[i]))
            && (forall i :: 0 <= i < |r.ring.Live()| ==> valid(r.ring.Live()[i]))))
  {
    hide Ring.Live, Legal, After, Produced;
    InitInv(s, max);
    FirstInFirstOut(s, run);
    var r, made := After(s, run), Produced(run);
    assert Stream(s) + made == made;
    PartsOf(made, r.handed, r.ring.Live());
  }

  // ----- refilling

  /** A worker whose flag is down has more than half a pool; one whose flag is up has a
      producer. */
  predicate Refill<T>(s: State<T>) {
    s.constructed ==> if s.precomputing then s.producer != Absent else s.ring.available > |s.ring.slots| / 2
  }

  /** The two updates of the flag outside the lock that break the rule: the producer clears
      the flag after the consumer has drawn the pool down to half, and the constructor sets
      it after the first producer is gone. The worker may recover from the first. */
  predicate Late<T>(s: State<T>, e: Event<T>) {
    || (e.Clear? && s.ring.available <= |s.ring.slots| / 2)
    || (e.Construct? && s.producer == Absent)
  }

  ghost predicate NeverLate<T>(s: State<T>, run: seq<Event<T>>)
    requires Inv(s) && Legal(s, run)
    decreases |run|
  {
    run != [] ==> !Late(s, run[0]) && (StepKeepsInv(s, run[0]); NeverLate(Apply(s, run[0]), run[1..]))
  }

  ghost predicate AlwaysRefill<T>(s: State<T>, run: seq<Event<T>>)
    requires Inv(s) && Legal(s, run)
    decreases |run|
  {
    Refill(s) && (run != [] ==> (StepKeepsInv(s, run[0]); AlwaysRefill(Apply(s, run[0]), run[1..])))
  }

  lemma StepRefill<T>(s: State<T>, e: Event<T>)
    requires Inv(s) && Enabled(s, e) && Refill(s)
    ensures e.Take? ==> s.ring.available > 0
    ensures Refill(Apply(s, e)) <==> !Late(s, e)
  {
  }

  /** No other event breaks the rule: it holds throughout a run exactly when no flag update
      in it is late. */
  lemma {:induction false} RefillIff<T>(s: State<T>, run: seq<Event<T>>)
    requires Inv(s) && Legal(s, run) && Refill(s)
    ensures AlwaysRefill(s, run) <==> NeverLate(s, run)
    decreases |run|
  {
    if run != [] {
      StepKeepsInv(s, run[0]);
      StepRefill(s, run[0]);
      if !Late(s, run[0]) {
        RefillIff(Apply(s, run[0]), run[1..]);
      }
    }
  }

  /** Flag updates that follow at once: the constructor's comes first, and a producer that
      has left its loop clears the flag before anything else happens. */
  ghost predicate Prompt<T>(s: State<T>, run: seq<Event<T>>)
    requires Inv(s) && Legal(s, run)
    decreases |run|
  {
    run != [] ==>
      && (!s.constructed ==> run[0].Construct?)
      && (s.producer == Leaving ==> run[0].Clear?)
      && (StepKeepsInv(s, run[0]); Prompt(Apply(s, run[0]), run[1..]))
  }

  lemma {:induction false} PromptNeverLate<T>(s: State<T>, run: seq<Event<T>>)
    requires Inv(s) && Legal(s, run) && Prompt(s, run)
    requires s.producer == Leaving ==> s.ring.available == |s.ring.slots|
    requires !s.constructed ==> s.producer == Checking
    ensures NeverLate(s, run)
    decreases |run|
  {
    if run != [] {
      StepKeepsInv(s, run[0]);
      PromptNeverLate(Apply(s, run[0]), run[1..]);
    }
  }

  /** Were leaving the loop and clearing the flag one step, and launching the first producer
      and setting it, the refill rule would hold in every state of every run. */
  lemma PromptRefills<T>(s: State<T>, max: nat, run: seq<Event<T>>)
    requires Init(s, max) && Inv(s) && Legal(s, run) && Prompt(s, run)
    ensures AlwaysRefill(s, run)
  {
    PromptNeverLate(s, run);
    RefillIff(s, run);
  }

  /** Prepending an event to a run. */
  lemma Prepend<T>(s: State<T>, e: Event<T>, run: seq<Event<T>>)
    requires Inv(s) && Enabled(s, e)
    requires e.Take? ==> s.ring.available > 0
    requires Inv(Apply(s, e)) && Legal(Apply(s, e), run)
    ensures Legal(s, [e] + run) && After(s, [e] + run) == After(Apply(s, e), run)
  {
    assert ([e] + run)[1..] == run;
  }

  /** A consumer waits for a tuple and nobody is left to produce one. */
  predicate Stuck<T>(s: State<T>) {
    s.constructed && s.consumer == Waiting && s.ring.available == 0 && s.producer == Absent
  }

  lemma RefillNeverStuck<T>(s: State<T>)
    requires Refill(s)
    ensures !Stuck(s)
    ensures s.constructed ==> s.ring.available > 0 || s.producer != Absent
  {
  }

  /** A stuck worker stays as it is for ever. */
  lemma {:induction false} StuckForever<T>(s: State<T>, run: seq<Event<T>>)
    requires Inv(s) && Legal(s, run) && Stuck(s)
    ensures After(s, run) == s
    decreases |run|
  {
    if run != [] {
      StepKeepsInv(s, run[0]);
      assert run[0].Wait?;
      StuckForever(s, run[1..]);
    }
  }

  /** The producer has left its loop on a full pool; the consumer empties the pool before
      the flag is cleared. */
  lemma {:induction false} DrainThenClear<T>(s: State<T>) returns (run: seq<Event<T>>)
    requires Inv(s) && s.constructed && s.precomputing && s.producer == Leaving && s.consumer == Waiting
    ensures Legal(s, run) && Stuck(After(s, run))
    decreases s.ring.available
  {
    if s.ring.available == 0 {
      run := [];
      Prepend(s, Clear, run);
      run := [Clear] + run;
    } else {
      var granted := Apply(s, Wait);
      StepKeepsInv(granted, Take);
      run := DrainThenClear(Apply(granted, Take));
      Prepend(granted, Take, run);
      run := [Take] + run;
      Prepend(s, Wait, run);
      run := [Wait] + run;
    }
  }

  lemma {:induction false} FillThenDrain<T>(s: State<T>, t: T) returns (run: seq<Event<T>>)
    requires Inv(s) && s.constructed && s.precomputing && s.producer == Checking && s.consumer == Waiting
    ensures Legal(s, run) && Stuck(After(s, run))
    decreases |s.ring.slots| - s.ring.available
  {
    var checked := Apply(s, Check);
    StepKeepsInv(s, Check);
    if s.ring.available == |s.ring.slots| {
      run := DrainThenClear(checked);
    } else {
      StepKeepsInv(checked, Produce(t));
      run := FillThenDrain(Apply(checked, Produce(t)), t);
      Prepend(checked, Produce(t), run);
      run := [Produce(t)] + run;
    }
    Prepend(s, Check, run);
    run := [Check] + run;
  }

  /** Whatever the capacity, a run leads from the start to a stuck worker. */
  lemma StuckReachable<T(!new)>(s: State<T>, max: nat, t: T)
    requires Init(s, max)
    ensures Inv(s) && exists run :: Legal(s, run) && Stuck(After(s, run))
  {
    InitInv(s, max);
    StepKeepsInv(s, Construct);
    var run := FillThenDrain(Apply(s, Construct), t);
    Prepend(s, Construct, run);
  }

  // ----- exactly when production ends for ever

  /** Nothing will be produced any more: the producer is gone and the flag keeps another one
      from being launched, or no tuple is left whose taking would launch one; or it is about
      to go and leaves an empty pool. */
  predicate Doomed<T>(s: State<T>) {
    || (s.producer == Absent && (!s.constructed || s.precomputing || s.ring.available == 0))
    || (s.producer == Leaving && s.ring.available == 0)
  }

  /** The producer clears the flag before the constructor sets it, or the consumer takes the
      last tuple while the producer is between leaving its loop and clearing the flag. */
  predicate Fatal<T>(s: State<T>, e: Event<T>) {
    || (e.Clear? && !s.constructed)
    || (e.Take? && s.producer == Leaving && s.ring.available == 1)
  }

  /** Production is lost in exactly these two steps. */
  lemma DoomedStep<T>(s: State<T>, e: Event<T>)
    requires Inv(s) && Enabled(s, e)
    ensures e.Take? ==> s.ring.available > 0
    ensures !Doomed(s) ==> (Doomed(Apply(s, e)) <==> Fatal(s, e))
    ensures Doomed(s) ==> Doomed(Apply(s, e)) && !e.Produce?
  {
    hide Ring.Live;
  }

  /** From then on nothing is produced, and no more tuples are handed out than waited. */
  lemma {:induction false} DoomedForever<T>(s: State<T>, run: seq<Event<T>>)
    requires Inv(s) && Legal(s, run) && Doomed(s)
    ensures Doomed(After(s, run)) && Produced(run) == []
    ensures |After(s, run).handed| <= |s.handed| + s.ring.available
    decreases |run|
  {
    if run != [] {
      var s' := Apply(s, run[0]);
      StepKeepsInv(s, run[0]);
      DoomedStep(s, run[0]);
      assert |s'.handed| + s'.ring.available == |Stream(s')| == |Stream(s)|;
      DoomedForever(s', run[1..]);
    }
  }

  function ProducerRank<T>(s: State<T>): nat {
    match s.producer
    case Filling => 0
    case Checking => if s.ring.available < |s.ring.slots| then 1 else 4
    case Absent => 2
    case Leaving => 3
  }

  /** The next event of a run that ends with a tuple produced. */
  function TowardsProduce<T>(s: State<T>, t: T): Event<T> {
    match s.producer
    case Filling => Produce(t)
    case Checking => if s.ring.available < |s.ring.slots| || s.constructed then Check else Construct
    case Leaving => if s.constructed then Clear else Construct
    case Absent => if s.consumer == Waiting then Wait else Take
  }

  lemma {:induction false} CanProduce<T>(s: State<T>, t: T) returns (run: seq<Event<T>>)
    requires Inv(s) && !Doomed(s)
    ensures Legal(s, run) && Produced(run) != []
    decreases !s.constructed, ProducerRank(s), s.ring.available, s.consumer == Waiting
  {
    var e := TowardsProduce(s, t);
    StepKeepsInv(s, e);
    var rest := [];
    if !e.Produce? {
      DoomedStep(s, e);
      rest := CanProduce(Apply(s, e), t);
    }
    Prepend(s, e, rest);
    run := [e] + rest;
    assert run[0] == e && run[1..] == rest;
  }

  /** Some run still produces a tuple exactly when the worker is not doomed. */
  lemma ProducesIff<T(!new)>(s: State<T>, t: T)
    requires Inv(s)
    ensures (exists run :: Legal(s, run) && Produced(run) != []) <==> !Doomed(s)
  {
    if Doomed(s) {
      forall run | Legal(s, run) ensures Produced(run) == [] {
        DoomedForever(s, run);
      }
    } else {
      var run := CanProduce(s, t);
    }
  }

  ghost predicate NeverFatal<T>(s: State<T>, run: seq<Event<T>>)
    requires Inv(s) && Legal(s, run)
    decreases |run|
  {
    run != [] ==> !Fatal(s, run[0]) && (StepKeepsInv(s, run[0]); NeverFatal(Apply(s, run[0]), run[1..]))
  }

  lemma {:induction false} DoomedIffFatal<T>(s: State<T>, run: seq<Event<T>>)
    requires Inv(s) && Legal(s, run) && !Doomed(s)
    ensures Doomed(After(s, run)) <==> !NeverFatal(s, run)
    decreases |run|
  {
    if run != [] {
      var s' := Apply(s, run[0]);
      StepKeepsInv(s, run[0]);
      DoomedStep(s, run[0]);
      if Doomed(s') {
        DoomedForever(s', run[1..]);
      } else {
        DoomedIffFatal(s', run[1..]);
      }
    }
  }

  /** A run from the start ends where production is lost exactly when one of its steps was
      fatal. */
  lemma LostExactly<T(!new)>(s: State<T>, max: nat, run: seq<Event<T>>, t: T)
    requires Init(s, max) && Inv(s) && Legal(s, run)
    ensures After(s, run).ring.Valid() && Inv(After(s, run))
    ensures (exists more :: Legal(After(s, run), more) && Produced(more) != []) <==> NeverFatal(s, run)
  {
    DoomedIffFatal(s, run);
    ProducesIff(After(s, run), t);
  }

  // ----- every fair run hands out a tuple

  predicate OfProducer<T>(e: Event<T>) { e.Check? || e.Produce? || e.Clear? }

  predicate OfConsumer<T>(e: Event<T>) { e.Wait? || e.Take? }

  /** The consumer finds an empty pool and goes on waiting. */
  predicate Waits<T>(s: State<T>, e: Event<T>) { e.Wait? && s.ring.available == 0 }

  function ProducerWork<T>(s: State<T>): nat
    requires s.ring.available <= |s.ring.slots|
  {
    match s.producer
    case Absent => 0
    case Leaving => 1
    case Checking => 2 * (|s.ring.slots| - s.ring.available) + 2
    case Filling => 2 * (|s.ring.slots| - s.ring.available) + 1
  }

  /** An upper bound on the events, other than mere waiting, before the next tuple is taken. */
  function Work<T>(s: State<T>): nat
    requires s.ring.available <= |s.ring.slots|
  {
    ProducerWork(s) + (if s.constructed then 0 else 1) + if s.consumer == Waiting then 1 else 0
  }

  /** An event takes a tuple, or it waits, or it brings the next taking nearer. */
  lemma WorkStep<T>(s: State<T>, e: Event<T>)
    requires Inv(s) && Enabled(s, e)
    ensures Inv(Apply(s, e))
    ensures e.Take? ==> |Apply(s, e).handed| == |s.handed| + 1
    ensures !e.Take? ==> Apply(s, e).handed == s.handed
    ensures Waits(s, e) ==> Apply(s, e) == s
    ensures !e.Take? && !Waits(s, e) ==> Work(Apply(s, e)) < Work(s)
  {
    StepKeepsInv(s, e);
  }

  /** Some event took a tuple, or some event brought the next taking nearer, or all waited. */
  lemma {:induction false} WorkRun<T>(s: State<T>, run: seq<Event<T>>)
    requires Inv(s) && Legal(s, run)
    ensures |After(s, run).handed| >= |s.handed|
    ensures |After(s, run).handed| == |s.handed| ==>
      || Work(After(s, run)) < Work(s)
      || (After(s, run) == s && forall k :: 0 <= k < |run| ==> Waits(s, run[k]))
    decreases |run|
  {
    hide Work;
    if run != [] {
      WorkStep(s, run[0]);
      WorkRun(Apply(s, run[0]), run[1..]);
      assert forall k :: 1 <= k < |run| ==> run[k] == run[1..][k - 1];
    }
  }

  /** A stretch of a run in which nobody is starved: the constructor sets the flag or has set
      it, the producer takes a step or there is none, and the consumer takes a step. */
  ghost predicate Round<T>(s: State<T>, run: seq<Event<T>>)
    requires Inv(s)
  {
    && Legal(s, run)
    && ((exists k :: 0 <= k < |run| && run[k].Construct?) || After(s, run).constructed)
    && ((exists k :: 0 <= k < |run| && OfProducer(run[k])) || After(s, run).producer == Absent)
    && (exists k :: 0 <= k < |run| && OfConsumer(run[k]))
  }

  lemma RoundWorks<T>(s: State<T>, run: seq<Event<T>>)
    requires Inv(s) && Round(s, run)
    ensures |After(s, run).handed| >= |s.handed|
    ensures |After(s, run).handed| == |s.handed| ==> Work(After(s, run)) < Work(s) || Stuck(After(s, run))
  {
    hide Work;
    WorkRun(s, run);
    if After(s, run) == s && forall k :: 0 <= k < |run| ==> Waits(s, run[k]) {
      var k :| 0 <= k < |run| && OfConsumer(run[k]);
      WaitingLegal(s, run, k);
    }
  }

  /** A consumer that waits, and goes on waiting, was waiting. */
  lemma WaitingLegal<T>(s: State<T>, run: seq<Event<T>>, k: nat)
    requires Inv(s) && Legal(s, run) && k < |run| && forall i :: 0 <= i < |run| ==> Waits(s, run[i])
    ensures s.consumer == Waiting && s.ring.available == 0
  {
    assert Enabled(s, run[0]) && Waits(s, run[0]);
  }

  ghost predicate Rounds<T>(s: State<T>, rounds: seq<seq<Event<T>>>)
    requires Inv(s)
    decreases |rounds|
  {
    rounds != [] ==> Round(s, rounds[0]) && Rounds(After(s, rounds[0]), rounds[1..])
  }

  ghost function AfterRounds<T>(s: State<T>, rounds: seq<seq<Event<T>>>): State<T>
    requires Inv(s) && Rounds(s, rounds)
    decreases |rounds|
  {
    if rounds == [] then s else AfterRounds(After(s, rounds[0]), rounds[1..])
  }

  lemma {:induction false} HandedStays<T>(s: State<T>, rounds: seq<seq<Event<T>>>)
    requires Inv(s) && Rounds(s, rounds)
    ensures |AfterRounds(s, rounds).handed| >= |s.handed|
    ensures Stuck(s) ==> AfterRounds(s, rounds) == s
    decreases |rounds|
  {
    if rounds != [] {
      WorkRun(s, rounds[0]);
      if Stuck(s) {
        StuckForever(s, rounds[0]);
      }
      HandedStays(After(s, rounds[0]), rounds[1..]);
    }
  }

  /** In every run in which nobody is starved one more tuple is handed out within a bounded
      number of rounds, unless the worker is stuck. */
  lemma {:induction false} FairRunsHandOut<T>(s: State<T>, rounds: seq<seq<Event<T>>>)
    requires Inv(s) && Rounds(s, rounds) && |rounds| > Work(s)
    ensures |AfterRounds(s, rounds).handed| > |s.handed| || Stuck(AfterRounds(s, rounds))
    decreases |rounds|
  {
    hide Work;
    RoundWorks(s, rounds[0]);
    var r := After(s, rounds[0]);
    HandedStays(r, rounds[1..]);
    if |r.handed| == |s.handed| && !Stuck(r) {
      FairRunsHandOut(r, rounds[1..]);
    }
  }

  // ----- when a producer starts, and when it stops

  /** Tuples taken in a run. */
  function Takes<T>(run: seq<Event<T>>): nat {
    if run == [] then 0 else (if run[0].Take? then 1 else 0) + Takes(run[1..])
  }

  /** What is waiting and what was taken is what was waiting and what was produced. */
  lemma {:induction false} Balance<T>(s: State<T>, run: seq<Event<T>>)
    requires Inv(s) && Legal(s, run)
    ensures After(s, run).ring.available + Takes(run) == s.ring.available + |Produced(run)|
    ensures |After(s, run).handed| == |s.handed| + Takes(run)
    ensures |After(s, run).ring.slots| == |s.ring.slots|
    decreases |run|
  {
    if run != [] {
      StepKeepsInv(s, run[0]);
      Balance(Apply(s, run[0]), run[1..]);
    }
  }

  /** The first producer is gone, its flag is down, and more than half a pool is left. */
  predicate Resting<T>(s: State<T>) {
    s.constructed && s.producer == Absent && !s.precomputing && s.ring.available > |s.ring.slots| / 2
  }

  ghost predicate HasProducerEvent<T>(run: seq<Event<T>>) {
    exists k :: 0 <= k < |run| && OfProducer(run[k])
  }

  /** While more than half a pool is left, no producer is there. */
  lemma {:induction false} RestingRun<T>(s: State<T>, run: seq<Event<T>>)
    requires Inv(s) && Legal(s, run) && Resting(s)
    requires Takes(run) < s.ring.available - |s.ring.slots| / 2
    ensures Resting(After(s, run)) && !HasProducerEvent(run)
    ensures After(s, run).ring.available == s.ring.available - Takes(run)
    decreases |run|
  {
    if run != [] {
      StepKeepsInv(s, run[0]);
      RestingRun(Apply(s, run[0]), run[1..]);
      assert forall k :: 1 <= k < |run| ==> run[k] == run[1..][k - 1];
    }
  }

  /** A producer that is there is there at the end, or has taken a step. */
  lemma {:induction false} ProducerStays<T>(s: State<T>, run: seq<Event<T>>)
    requires Inv(s) && Legal(s, run) && s.producer != Absent
    ensures After(s, run).producer != Absent || HasProducerEvent(run)
    decreases |run|
  {
    if run != [] && !OfProducer(run[0]) {
      StepKeepsInv(s, run[0]);
      ProducerStays(Apply(s, run[0]), run[1..]);
      if k :| 0 <= k < |run[1..]| && OfProducer(run[1..][k]) {
        assert OfProducer(run[k + 1]);
      }
    }
  }

  /** The low-water mark: from rest, a producer appears in a run exactly if the run takes the
      pool down to half its capacity. */
  lemma {:induction false} LaunchIff<T>(s: State<T>, run: seq<Event<T>>)
    requires Inv(s) && Legal(s, run) && Resting(s)
    ensures After(s, run).producer != Absent || HasProducerEvent(run)
       <==> Takes(run) >= s.ring.available - |s.ring.slots| / 2
    decreases |run|
  {
    if Takes(run) < s.ring.available - |s.ring.slots| / 2 {
      RestingRun(s, run);
    } else {
      var s' := Apply(s, run[0]);
      StepKeepsInv(s, run[0]);
      if Resting(s') {
        LaunchIff(s', run[1..]);
      } else {
        ProducerStays(s', run[1..]);
      }
      if k :| 0 <= k < |run[1..]| && OfProducer(run[1..][k]) {
        assert OfProducer(run[k + 1]);
      }
    }
  }

  /** The take that leaves half the capacity brings a producer, at once. */
  lemma LaunchStep<T>(s: State<T>, run: seq<Event<T>>)
    requires Inv(s) && Legal(s, run) && Resting(s) && Takes(run) == s.ring.available - |s.ring.slots| / 2 - 1
    requires Enabled(After(s, run), Take)
    ensures After(s, run).ring.available > 0
    ensures Apply(After(s, run), Take).producer == Checking && Apply(After(s, run), Take).precomputing
  {
    RestingRun(s, run);
    StepKeepsInv(After(s, run), Take);
    Balance(s, run);
  }

  predicate AtWork<T>(s: State<T>) { s.producer in {Checking, Filling} }

  /** A producer leaves its loop on a full pool and only there; before that it goes on. */
  lemma LeavesIff<T>(s: State<T>, e: Event<T>)
    requires Inv(s) && Enabled(s, e) && AtWork(s)
    ensures e.Take? ==> s.ring.available > 0
    ensures Apply(s, e).producer == Leaving <==> e.Check? && s.ring.available == |s.ring.slots|
    ensures e.Check? && s.ring.available < |s.ring.slots| ==> Apply(s, e).producer == Filling
    ensures Apply(s, e).producer != Absent
  {
  }

  /** Since a producer was last at work, no more has left the pool than was taken. */
  lemma {:induction false} LeftFull<T>(s: State<T>, run: seq<Event<T>>, taken: nat)
    requires Inv(s) && Legal(s, run) && (AtWork(s) || s.ring.available + taken >= |s.ring.slots|)
    ensures var r := After(s, run);
      |r.ring.slots| == |s.ring.slots| && (AtWork(r) || r.ring.available + taken + Takes(run) >= |s.ring.slots|)
    decreases |run|
  {
    if run != [] {
      StepKeepsInv(s, run[0]);
      LeftFull(Apply(s, run[0]), run[1..], taken + if run[0].Take? then 1 else 0);
    }
  }

  /** A producer at work that has ended, or is about to, has filled the pool but for what was
      taken meanwhile: if nothing was, it has produced exactly what was missing. */
  lemma FillsUp<T>(s: State<T>, run: seq<Event<T>>)
    requires Inv(s) && Legal(s, run) && AtWork(s) && !AtWork(After(s, run))
    ensures After(s, run).ring.available + Takes(run) >= |s.ring.slots|
    ensures Takes(run) == 0 ==>
      After(s, run).ring.available == |s.ring.slots| && |Produced(run)| == |s.ring.slots| - s.ring.available
  {
    LeftFull(s, run, 0);
    Balance(s, run);
  }
}
