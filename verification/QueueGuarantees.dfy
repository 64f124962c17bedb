/** What the users of the queue can rely on, over every run. */
module QueueGuarantees {
  import opened QueueSteps
  import opened QueueInvariants
  import opened Wrappers

  // ----- Kinds -----

  const DATA: set<Kind> := {Sample, EosPacket}
  const PASSED: set<Kind> := {Sample, EosPacket, NewSegment}

  predicate Free(s: seq<Entry>, kinds: set<Kind>) {
    forall e :: e in s ==> e.kind !in kinds
  }

  // ----- Arrival order -----

  /** What a step puts in the list. */
  function Arrived(q: Queue, a: Act): seq<Entry> {
    match a
    case Receive(n) => if q.hr == S_OK then Stamped(AllSamples(n), q.next) else []
    case SendAnyway => Stamped([SendPacket], q.next)
    case EOS => if q.hr == S_OK then Stamped([EosPacket], q.next) else []
    case QueueNewSegment => Stamped([NewSegment, Parameters], q.next)
    case Reset => Stamped([ResetPacket], q.next)
    case _ => []
  }

  function Pending(q: Queue): seq<Entry> {
    InHand(q.worker) + (q.batch + q.list)
  }

  predicate Within(s: seq<Entry>, t: seq<Entry>) {
    forall e :: e in s ==> e in t
  }

  lemma {:induction false} GatherWithin(config: Config, batch: seq<Entry>, list: seq<Entry>)
    ensures var g := Gather(config, batch, list);
      Within(g.batch, batch + list) && Within(Lone(g.packet), batch + list) && Within(g.list, batch + list)
    decreases |list|
  {
    if list == [] {
    } else if list[0].kind == Sample {
      var more := batch + [list[0]];
      assert batch + list == more + list[1..];
      if |more| != config.batchSize {
        GatherWithin(config, more, list[1..]);
      }
    } else if list[0].kind == SendPacket && batch == [] {
      GatherWithin(config, batch, list[1..]);
      assert Within(batch + list[1..], batch + list);
    }
  }

  lemma LoopPending(q: Queue)
    requires q.worker == AtLoop
    ensures Within(Pending(AfterLoop(q)), Pending(q)) && AfterLoop(q).delivered == q.delivered
  {
    hide Gather, Samples;
    var f := if q.flushing then Freed(q) else q;
    GatherWithin(q.config, f.batch, f.list);
  }

  lemma Suffix(s: seq<Entry>, t: seq<Entry>)
    ensures s <= s + t && (s + t)[|s|..] == t
  {
  }

  lemma BusyPending(q: Queue, answer: int)
    requires q.worker.Busy?
    ensures var r := AfterBusy(q, answer);
      && Within(Pending(r), Pending(q))
      && q.delivered <= r.delivered && Within(r.delivered[|q.delivered|..], Pending(q))
  {
    hide Samples, Onward, PassedOn, InHand, HrAfter, LetGo;
    Suffix(q.delivered, PassedOn(q.worker));
    var dropped := HandAfter(q.worker, q.hr, answer);
  }

  lemma QueuedPending(q: Queue, kinds: seq<Kind>)
    ensures Within(Pending(Queued(q, kinds)), Pending(q) + Stamped(kinds, q.next))
  {
    hide Stamped;
  }

  /** Only what was pending or has arrived is pending after a step. */
  lemma StepPending(q: Queue, a: Act)
    requires Enabled(q, a)
    ensures Within(Pending(After(q, a)), Pending(q) + Arrived(q, a))
  {
    hide AfterLoop, AfterBusy, Samples, Stamped, Within;
    NoneWithin(Pending(q));
    match a
    case Receive(n) => QueuedPending(q, AllSamples(n));
    case SendAnyway => QueuedPending(q, [SendPacket]);
    case EOS => QueuedPending(q, [EosPacket]);
    case QueueNewSegment => QueuedPending(q, [NewSegment, Parameters]);
    case Reset => QueuedPending(q, [ResetPacket]);
    case Wake => assert Pending(After(q, a)) == Pending(q);
    case Work(answer) =>
      if q.worker == AtLoop {
        LoopPending(q);
      } else {
        BusyPending(q, answer);
      }
    case _ =>
  }

  /** A step passes on only what was pending. */
  lemma StepPasses(q: Queue, a: Act)
    requires Enabled(q, a)
    ensures var r := After(q, a);
      q.delivered <= r.delivered && Within(r.delivered[|q.delivered|..], Pending(q))
  {
    hide AfterLoop, AfterBusy, Samples, Stamped, Pending;
    if a.Work? {
      if q.worker == AtLoop {
        LoopPending(q);
      } else {
        BusyPending(q, a.answer);
      }
    } else {
      assert After(q, a).delivered == q.delivered;
    }
  }

  lemma NoneWithin(s: seq<Entry>)
    ensures Within([], s) && Within(s, s) && s + [] == s
  {
  }

  /** All that a run puts in the list. */
  function Arrivals(q: Queue, acts: seq<Act>): seq<Entry>
    requires Legal(q, acts)
    decreases acts
  {
    if acts == [] then [] else Arrived(q, acts[0]) + Arrivals(After(q, acts[0]), acts[1..])
  }

  lemma {:induction false} RunPending(q: Queue, acts: seq<Act>)
    requires Legal(q, acts)
    ensures var r := Run(q, acts);
      && Within(Pending(r), Pending(q) + Arrivals(q, acts))
      && q.delivered <= r.delivered
      && Within(r.delivered[|q.delivered|..], Pending(q) + Arrivals(q, acts))
    decreases acts
  {
    hide After, Arrived, Pending;
    if acts != [] {
      var r := After(q, acts[0]);
      StepPending(q, acts[0]);
      StepPasses(q, acts[0]);
      RunPending(r, acts[1..]);
      var end := Run(q, acts);
      assert end.delivered[|q.delivered|..] == r.delivered[|q.delivered|..] + end.delivered[|r.delivered|..];
    }
  }

  lemma StampedOrdered(kinds: seq<Kind>, n: nat)
    ensures Ordered(Stamped(kinds, n), n + |kinds|) && Ordered([], n)
    ensures forall e :: e in Stamped(kinds, n) ==> n <= e.stamp
  {
  }

  lemma ArrivedOrdered(q: Queue, a: Act)
    ensures Ordered(Arrived(q, a), q.next + |Arrived(q, a)|)
    ensures forall e :: e in Arrived(q, a) ==> q.next <= e.stamp
  {
    hide Stamped, Ordered;
    StampedOrdered([], q.next);
    match a
    case Receive(n) => StampedOrdered(AllSamples(n), q.next);
    case SendAnyway => StampedOrdered([SendPacket], q.next);
    case EOS => StampedOrdered([EosPacket], q.next);
    case QueueNewSegment => StampedOrdered([NewSegment, Parameters], q.next);
    case Reset => StampedOrdered([ResetPacket], q.next);
    case _ =>
  }

  lemma NextGrows(q: Queue, a: Act)
    requires Enabled(q, a)
    ensures q.next + |Arrived(q, a)| <= After(q, a).next
  {
    hide AfterWork, Samples, Stamped;
    if a.Work? {
      WorkKeeps(q, a);
    }
  }

  lemma {:induction false} ArrivalsOrdered(q: Queue, acts: seq<Act>)
    requires Legal(q, acts)
    ensures Increasing(Arrivals(q, acts)) && forall e :: e in Arrivals(q, acts) ==> q.next <= e.stamp
    decreases acts
  {
    hide After, Arrived;
    if acts != [] {
      ArrivedOrdered(q, acts[0]);
      NextGrows(q, acts[0]);
      ArrivalsOrdered(After(q, acts[0]), acts[1..]);
    }
  }

  /** What reaches the pin is what was queued, each entry as it was queued and in the order of the
      queueing: samples, ends of stream and new segments alike. */
  lemma DeliveredInArrivalOrder(q: Queue, acts: seq<Act>)
    requires Initial(q) && Legal(q, acts)
    ensures var r := Run(q, acts);
      && Within(r.delivered, Arrivals(q, acts))
      && Increasing(r.delivered) && Increasing(Arrivals(q, acts))
  {
    hide Run, Legal, Arrivals, Shape, Owned, Wakeup;
    Reachable(q, acts);
    RunPending(q, acts);
    ArrivalsOrdered(q, acts);
    var r := Run(q, acts);
    assert forall i :: 0 <= i < |r.delivered| ==> Stream(r)[i] == r.delivered[i];
  }

  // ----- Teardown -----

  /** How many samples the calls of a run brought. */
  function Brought(acts: seq<Act>): nat {
    if acts == [] then 0
    else (if acts[0].Receive? then acts[0].n else 0) + Brought(acts[1..])
  }

  lemma {:induction false} SizeOfSamples(n: nat, from: nat)
    ensures |Samples(Stamped(AllSamples(n), from))| == n
    decreases n
  {
    if n > 0 {
      assert Stamped(AllSamples(n), from)[1..] == Stamped(AllSamples(n - 1), from + 1);
      SizeOfSamples(n - 1, from + 1);
    }
  }

  lemma StepGiven(q: Queue, a: Act)
    requires Enabled(q, a)
    ensures |After(q, a).given| == |q.given| + if a.Receive? then a.n else 0
  {
    hide AfterLoop, AfterBusy, Samples, Stamped;
    match a
    case Receive(n) => SizeOfSamples(n, q.next);
    case Work(_) => WorkKeeps(q, a);
    case _ =>
  }

  lemma WorkKeeps(q: Queue, a: Act)
    requires Enabled(q, a) && a.Work?
    ensures var r := After(q, a);
      && r.given == q.given && r.next == q.next && r.config == q.config && r.terminate == q.terminate
      && r.flushing == q.flushing && r.flushed == q.flushed && r.flusher == q.flusher
      && r.segmentCallers == q.segmentCallers && r.resetCallers == q.resetCallers
  {
    hide Samples, Gather, Onward, PassedOn, LetGo, HrAfter;
  }

  lemma {:induction false} GivenCount(q: Queue, acts: seq<Act>)
    requires Legal(q, acts)
    ensures |Run(q, acts).given| == |q.given| + Brought(acts)
    decreases acts
  {
    hide After;
    if acts != [] {
      StepGiven(q, acts[0]);
      GivenCount(After(q, acts[0]), acts[1..]);
    }
  }

  /** Once the worker has ended every sample that was brought has been released, once, and the list
      is empty as the destructor asserts. */
  lemma TeardownReleasesEach(q: Queue, acts: seq<Act>)
    requires Initial(q) && Legal(q, acts) && Run(q, acts).worker == Ended
    ensures var r := Run(q, acts);
      && r.list == [] && r.batch == []
      && |r.released| == Brought(acts) && forall x: nat :: x in r.released ==> r.released[x] == 1
  {
    hide Run, Legal, Order, Wakeup;
    Reachable(q, acts);
    GivenCount(q, acts);
    AllReleased(Run(q, acts));
  }

  lemma AllReleased(r: Queue)
    requires Owned(r) && Shape(r) && r.worker == Ended
    ensures r.released == r.given && forall x: nat :: x in r.released ==> r.released[x] == 1
  {
    NoneOf(0);
    assert r.given == r.released + (multiset{} + (multiset{} + multiset{}));
  }

  /** How many steps the worker may still take when the queue is being destroyed. */
  function StepsLeft(w: Worker): nat {
    match w
    case Ended => 0
    case AtLoop => 1
    case Waiting => 2
    case Busy(ToEndOfStream, _, _) => 2
    case Busy(ToSignal, _, _) => 2
    case Busy(ToPacket, _, _) => 3
    case Busy(ToRelease, _, _) => 4
    case Busy(ToUpdate(_), _, _) => 5
    case Busy(ToCall, _, _) => 6
    case Busy(ToCheck, _, _) => 7
  }

  lemma TeardownStep(q: Queue, a: Act)
    requires Sound(q) && q.terminate && Enabled(q, a)
    ensures After(q, a).terminate && StepsLeft(After(q, a).worker) < StepsLeft(q.worker)
  {
    hide Samples, Onward, Order, Owned, Framed, OnlySamples, Wakeup, AfterReceive, AfterBeginFlush, PassedOn,
      LetGo, HrAfter;
    assert a.Wake? || a.Work?;
    if a.Work? && q.worker.Busy? {
      OnwardLeft(q.worker, q.hr, a.answer);
    }
  }

  lemma OnwardLeft(w: Worker, hr: int, answer: int)
    requires w.Busy?
    ensures StepsLeft(Onward(w, hr, answer)) < StepsLeft(w)
  {
  }

  /** A queue that is being destroyed takes at most seven more steps, and it stops only when the
      worker has ended. */
  lemma {:induction false} TeardownEnds(q: Queue, acts: seq<Act>)
    requires Sound(q) && q.terminate && Legal(q, acts)
    ensures |acts| <= StepsLeft(q.worker) <= 7
    ensures (forall a :: !Enabled(Run(q, acts), a)) ==> Run(q, acts).worker == Ended
    decreases acts
  {
    hide Sound, After;
    if acts == [] {
      if q.worker != Ended {
        NotStuck(q);
      }
    } else {
      TeardownStep(q, acts[0]);
      StepKeeps(q, acts[0]);
      TeardownEnds(After(q, acts[0]), acts[1..]);
    }
  }

  lemma NotStuck(q: Queue)
    requires Sound(q) && q.terminate && q.worker != Ended
    ensures Enabled(q, Wake) || Enabled(q, Work(S_OK))
  {
  }

  // ----- Wake-ups -----

  /** The worker sleeps for good only if there is nothing for it to do: no termination, no control
      packet, nothing at all in the list without exact batching and less than a batch with it. */
  lemma NoMissedWakeup(q: Queue)
    requires Reached(q)
    ensures q.waiting + q.semaphore == if q.worker == Waiting then 1 else 0
    ensures q.worker == Waiting && !Enabled(q, Wake) ==> q.waiting == 1
    ensures q.waiting == 1 ==> !q.terminate && NothingToDo(q.config, q.batch, q.list)
  {
    hide Reached, Order, Shape, Owned, NothingToDo;
    ReachedIsSound(q);
  }

  /** With exact batching less than a batch is passed on only because a control packet ended it. */
  lemma ShortBatchNeedsPacket(q: Queue)
    requires Reached(q) && q.worker.Busy? && q.worker.stage == ToCall
    ensures var w := q.worker;
      && 0 < |w.sending| <= q.config.batchSize
      && (q.config.exact && |w.sending| < q.config.batchSize ==> w.packet.Some?)
  {
    hide Reached, Order, Owned, Wakeup, OnlySamples, Framed;
    ReachedIsSound(q);
  }

  lemma {:induction false} SameConfig(q: Queue, acts: seq<Act>)
    requires Legal(q, acts)
    ensures Run(q, acts).config == q.config
    decreases acts
  {
    hide Samples, AfterWork;
    if acts != [] {
      if acts[0].Work? {
        WorkKeeps(q, acts[0]);
      }
      assert After(q, acts[0]).config == q.config;
      SameConfig(After(q, acts[0]), acts[1..]);
    }
  }

  // ----- IsIdle -----

  predicate IsIdle(q: Queue) {
    !(q.waiting == 0 || q.batch != [])
  }

  /** Nothing is in the list or the batch or on its way, and nothing is about to happen. */
  predicate TrulyIdle(q: Queue) {
    q.worker == Waiting && q.semaphore == 0 && q.list == [] && q.batch == []
  }

  ghost predicate IsIdleAlwaysRight(q: Queue) {
    forall acts | Legal(q, acts) :: IsIdle(Run(q, acts)) <==> TrulyIdle(Run(q, acts))
  }

  /** IsIdle can be trusted exactly without exact batching: with it, one sample in the list of a
      waiting worker is enough for a wrong answer. */
  lemma IsIdleRightIff(q: Queue)
    requires Initial(q)
    ensures IsIdleAlwaysRight(q) <==> !q.config.exact
  {
    if q.config.exact {
      var acts := [Work(S_OK), Receive(1)];
      var r1 := After(q, Work(S_OK));
      assert r1 == q.(worker := Waiting, waiting := 1);
      var r2 := After(r1, Receive(1));
      assert acts[1..] == [Receive(1)] && acts[1..][1..] == [];
      assert Legal(r1, acts[1..]) && Run(r1, acts[1..]) == r2;
      assert Legal(q, acts) && Run(q, acts) == r2;
      assert |r2.list| == 1;
      assert IsIdle(r2) && !TrulyIdle(r2);
    } else {
      forall acts | Legal(q, acts)
        ensures IsIdle(Run(q, acts)) <==> TrulyIdle(Run(q, acts))
      {
        Reachable(q, acts);
        SameConfig(q, acts);
      }
    }
  }
}
