/** What becomes of the calls of the queue's users, counted by the calls themselves: accepted while
    the result is S_OK, refused while it is not, and when it is which. */
module QueueCalls {
  import opened QueueSteps
  import opened QueueInvariants
  import opened QueueGuarantees
  import opened QueueDelivery
  import opened QueueRest
  import opened Wrappers

  // ----- Calls that are accepted -----

  function Kinds(s: seq<Entry>): (r: seq<Kind>)
    ensures |r| == |s| && forall i :: 0 <= i < |s| ==> r[i] == s[i].kind
  {
    seq(|s|, i requires 0 <= i < |s| => s[i].kind)
  }

  /** What a call brings for the pin: n samples, an end of stream, a new segment. */
  function CalledBy(a: Act): seq<Kind> {
    match a
    case Receive(n) => AllSamples(n)
    case EOS => [EosPacket]
    case QueueNewSegment => [NewSegment]
    case _ => []
  }

  function Called(acts: seq<Act>): seq<Kind> {
    if acts == [] then [] else CalledBy(acts[0]) + Called(acts[1..])
  }

  /** How often an act occurs. */
  function Times(acts: seq<Act>, a: Act): nat {
    if acts == [] then 0 else (if acts[0] == a then 1 else 0) + Times(acts[1..], a)
  }

  predicate AllCalm(acts: seq<Act>) {
    forall i :: 0 <= i < |acts| ==> Calm(acts[i])
  }

  lemma KindsAppend(s: seq<Entry>, t: seq<Entry>)
    ensures Kinds(s + t) == Kinds(s) + Kinds(t)
  {
  }

  lemma OneDropped(s: seq<Entry>)
    requires |s| == 1 && s[0].kind !in PASSED
    ensures Passing(s) == [] && Kinds([]) == []
  {
    assert s[1..] == [];
  }

  /** What one call brings. */
  lemma ArrivedKinds(q: Queue, a: Act)
    requires q.hr == S_OK
    ensures Kinds(Passing(Arrived(q, a))) == CalledBy(a)
  {
    hide Passing;
    var s := Arrived(q, a);
    match a
    case Receive(n) =>
      PassingOfPassing(s);
      assert Kinds(s) == AllSamples(n);
    case EOS => PassingOfPassing(s);
    case QueueNewSegment =>
      PassingFirst(s);
      OneDropped(s[1..]);
    case SendAnyway => OneDropped(s);
    case Reset => OneDropped(s);
    case _ => NonePassing();
  }

  lemma {:induction false} ArrivalsKinds(q: Queue, acts: seq<Act>)
    requires Undisturbed(q) && Sound(q) && Legal(q, acts) && AllCalm(acts)
    ensures Kinds(Passing(Arrivals(q, acts))) == Called(acts)
    decreases acts
  {
    hide After, Passing, Arrived, Sound, Kinds;
    if acts == [] {
      NonePassing();
      assert Kinds([]) == [] by { KindsAppend([], []); }
    } else {
      var r := After(q, acts[0]);
      KeepsUndisturbed(q, acts[0]);
      ArrivedKinds(q, acts[0]);
      ArrivalsKinds(r, acts[1..]);
      PassingAppend(Arrived(q, acts[0]), Arrivals(r, acts[1..]));
      KindsAppend(Passing(Arrived(q, acts[0])), Passing(Arrivals(r, acts[1..])));
    }
  }

  lemma KeepsUndisturbed(q: Queue, a: Act)
    requires Undisturbed(q) && Sound(q) && Enabled(q, a) && Calm(a)
    ensures Undisturbed(After(q, a)) && Sound(After(q, a))
  {
    hide After, Undisturbed, Passing, Order, Owned, Wakeup, Shape;
    StepPassesAll(q, a);
    StepKeeps(q, a);
  }

  /** A call of NewSegment that is let through adds a caller, and queueing removes it. */
  lemma {:induction false} SegmentsAdmitted(q: Queue, acts: seq<Act>)
    requires Undisturbed(q) && Sound(q) && Legal(q, acts) && AllCalm(acts)
    ensures Run(q, acts).segmentCallers + Times(acts, QueueNewSegment)
         == q.segmentCallers + Times(acts, CheckNewSegment)
    decreases acts
  {
    hide After, Sound, Undisturbed;
    if acts != [] {
      KeepsUndisturbed(q, acts[0]);
      OneAdmitted(q, acts[0]);
      SegmentsAdmitted(After(q, acts[0]), acts[1..]);
    }
  }

  lemma OneAdmitted(q: Queue, a: Act)
    requires Undisturbed(q) && Enabled(q, a)
    ensures After(q, a).segmentCallers + (if a == QueueNewSegment then 1 else 0)
         == q.segmentCallers + if a == CheckNewSegment then 1 else 0
  {
    hide AfterWork, Samples, Stamped;
    if a.Work? {
      WorkKeeps(q, a);
    }
  }

  /** As long as the pin accepts and nobody flushes, every call is accepted: what has been passed on
      and what is still to be are, in the order of the calls, exactly the samples, the ends of stream
      and the new segments they brought, but for the callers of NewSegment that have been let through
      and have not queued yet. */
  lemma EveryCallCounts(q: Queue, acts: seq<Act>)
    requires Initial(q) && Legal(q, acts) && AllCalm(acts)
    ensures var r := Run(q, acts);
      && Kinds(r.delivered + Passing(Pending(r))) == Called(acts)
      && (TrulyIdle(r) ==> Kinds(r.delivered) == Called(acts))
      && r.segmentCallers + Times(acts, QueueNewSegment) == Times(acts, CheckNewSegment)
  {
    hide Run, Legal, Sound, Arrivals, Pending, Passing, Kinds;
    InitialSound(q);
    NothingLost(q, acts);
    ArrivalsKinds(q, acts);
    SegmentsAdmitted(q, acts);
  }

  // ----- Calls that are refused -----

  /** The result alone decides whether a caller of NewSegment is let through. */
  lemma AdmittedIff(q: Queue)
    requires Enabled(q, CheckNewSegment)
    ensures After(q, CheckNewSegment).segmentCallers > q.segmentCallers <==> q.hr == S_OK
    ensures After(q, CheckNewSegment) == q.(segmentCallers := After(q, CheckNewSegment).segmentCallers)
  {
  }

  lemma StepRefuses(q: Queue, a: Act)
    requires Hushed(q) && Enabled(q, a)
    ensures After(q, a).segmentCallers + (if a == QueueNewSegment then 1 else 0) == q.segmentCallers
    ensures Free(Arrived(q, a), DATA)
    ensures |After(q, a).released| >= |q.released| + if a.Receive? then a.n else 0
  {
    hide AfterLoop, AfterBusy, Samples, Stamped;
    match a
    case Receive(n) => SizeOfSamples(n, q.next);
    case Work(answer) =>
      WorkKeeps(q, a);
      ReleasedGrows(q, answer);
    case QueueNewSegment => assert Free(Arrived(q, a), DATA) by { SegmentIsNoData(q.next); }
    case SendAnyway => assert Free(Arrived(q, a), DATA) by { ControlIsNoData(q.next); }
    case Reset => assert Free(Arrived(q, a), DATA) by { ControlIsNoData(q.next); }
    case _ =>
  }

  lemma SegmentIsNoData(n: nat)
    ensures Free(Stamped([NewSegment, Parameters], n), DATA)
  {
  }

  lemma ControlIsNoData(n: nat)
    ensures Free(Stamped([SendPacket], n), DATA) && Free(Stamped([ResetPacket], n), DATA)
  {
  }

  lemma ReleasedGrows(q: Queue, answer: int)
    requires q.worker == AtLoop || q.worker.Busy?
    ensures |AfterWork(q, answer).released| >= |q.released|
  {
    hide Samples, Gather, Onward, PassedOn, HrAfter;
  }

  /** Once the pin has refused something, until a Reset or the end of a flush, no call of NewSegment
      is let through, nothing with data is queued, and every sample that is brought is released. */
  lemma {:induction false} RefusedCalls(q: Queue, acts: seq<Act>)
    requires Hushed(q) && Legal(q, acts) && forall i :: 0 <= i < |acts| ==> KeepsHr(acts[i])
    ensures var r := Run(q, acts);
      && r.segmentCallers + Times(acts, QueueNewSegment) == q.segmentCallers
      && Free(Arrivals(q, acts), DATA)
      && |r.released| >= |q.released| + Brought(acts)
    decreases acts
  {
    hide After, Hushed, Arrived;
    if acts != [] {
      StepRefuses(q, acts[0]);
      StaysHushed(q, acts[0]);
      RefusedCalls(After(q, acts[0]), acts[1..]);
    }
  }

  /** The pin has answered x: the answer is about to be stored as the result, or has been. */
  predicate Answered(q: Queue, x: int) {
    && !ResetPending(q) && x != S_OK
    && if q.worker.Busy? && q.worker.stage.ToUpdate? then q.worker.stage.answer == x && q.hr == S_OK
       else q.hr == x && !(q.worker.Busy? && q.worker.stage in {ToCall, ToEndOfStream})
  }

  predicate LeavesResult(a: Act) {
    KeepsHr(a) && a != BeginFlush && a != Terminate
  }

  lemma BusyAnswered(q: Queue, answer: int, x: int)
    requires Answered(q, x) && q.worker.Busy? && !ResetPending(AfterBusy(q, answer))
    ensures Answered(AfterBusy(q, answer), x) && AfterBusy(q, answer).hr == x
    ensures Free(PassedOn(q.worker), DATA)
  {
    hide Samples, ResetPending, PassedOn, LetGo;
    ResetlessHand(q);
    HushedPasses(q.worker);
  }

  lemma StepAnswered(q: Queue, a: Act, x: int)
    requires Answered(q, x) && Enabled(q, a) && LeavesResult(a)
    ensures Answered(After(q, a), x)
    ensures a.Work? || q.hr == x ==> After(q, a).hr == x
    ensures Free(After(q, a).delivered[|q.delivered|..], DATA)
  {
    hide Samples, AfterLoop, Stamped, ResetPending, Free;
    StaysResetless(q, a);
    StepPasses(q, a);
    NoneFree();
    assert q.delivered[|q.delivered|..] == [];
    if a.Work? && q.worker.Busy? {
      hide PassedOn, LetGo, Onward, HrAfter;
      BusyAnswered(q, a.answer, x);
      Suffix(q.delivered, PassedOn(q.worker));
    } else if a.Work? {
      LoopPending(q);
      LoopStage(q);
      LoopHr(q);
    }
  }

  lemma {:induction false} RunAnswered(q: Queue, acts: seq<Act>, x: int)
    requires Answered(q, x) && Legal(q, acts) && forall i :: 0 <= i < |acts| ==> LeavesResult(acts[i])
    ensures var r := Run(q, acts);
      && ((exists i :: 0 <= i < |acts| && acts[i].Work?) || q.hr == x ==> r.hr == x)
      && q.delivered <= r.delivered && Free(r.delivered[|q.delivered|..], DATA)
    decreases acts
  {
    hide After, Answered, LeavesResult;
    if acts != [] {
      var r := After(q, acts[0]);
      StepAnswered(q, acts[0], x);
      StepPasses(q, acts[0]);
      RunAnswered(r, acts[1..], x);
      var end := Run(q, acts);
      assert end.delivered[|q.delivered|..] == r.delivered[|q.delivered|..] + end.delivered[|r.delivered|..];
    }
  }

  /** What the pin answers to a batch, if it is not S_OK, becomes the result with the worker's next
      step and stays it until a Reset or a flush; and behind that batch no more data is passed on. */
  lemma AnswerBecomesResult(q: Queue, x: int, acts: seq<Act>)
    requires q.worker.Busy? && q.worker.stage == ToCall && q.hr == S_OK && !ResetPending(q) && x != S_OK
    requires Legal(After(q, Work(x)), acts) && forall i :: 0 <= i < |acts| ==> LeavesResult(acts[i])
    ensures var r := Run(After(q, Work(x)), acts);
      && ((exists i :: 0 <= i < |acts| && acts[i].Work?) ==> r.hr == x)
      && q.delivered + q.worker.sending <= r.delivered
      && Free(r.delivered[|q.delivered| + |q.worker.sending|..], DATA)
  {
    hide Run, Legal, ResetPending, Samples;
    StaysResetless(q, Work(x));
    RunAnswered(After(q, Work(x)), acts, x);
  }

  // ----- A Reset ends a refusal -----

  predicate ResetComes(q: Queue) {
    exists e :: e in Pending(q) && e.kind == ResetPacket
  }

  /** A RESET packet is still to come, or the result is S_OK and no answer is about to change it. */
  predicate Recovering(q: Queue) {
    && !q.flushing && !q.terminate
    && (ResetComes(q) || Accepting(q))
  }

  predicate Accepting(q: Queue) {
    q.hr == S_OK && (q.worker.Busy? && q.worker.stage.ToUpdate? ==> q.worker.stage.answer == S_OK)
  }

  lemma {:induction false} GatherKeepsReset(config: Config, batch: seq<Entry>, list: seq<Entry>, e: Entry)
    requires Framed(list) && e in list && e.kind == ResetPacket
    ensures var g := Gather(config, batch, list); e in Lone(g.packet) + g.list
    decreases |list|
  {
    assert list == [list[0]] + list[1..];
    if list[0].kind == Sample {
      var more := batch + [list[0]];
      if |more| != config.batchSize {
        GatherKeepsReset(config, more, list[1..], e);
      }
    } else if list[0].kind == SendPacket && batch == [] {
      GatherKeepsReset(config, batch, list[1..], e);
    } else if list[0].kind == NewSegment {
      assert list[1..] == [list[1]] + list[2..];
    }
  }

  lemma LoopRecovers(q: Queue)
    requires Recovering(q) && Shape(q) && q.worker == AtLoop
    ensures Recovering(AfterLoop(q))
  {
    hide Gather, Samples, Framed, WorkerShape;
    var r := AfterLoop(q);
    GatherWaits(q.config, q.batch, q.list);
    if ResetComes(q) {
      var e :| e in Pending(q) && e.kind == ResetPacket;
      assert e in q.list;
      GatherKeepsReset(q.config, q.batch, q.list, e);
      assert e in Pending(r);
    }
  }

  lemma BusyRecovers(q: Queue)
    requires Recovering(q) && Shape(q) && q.worker.Busy?
    ensures Recovering(AfterBusy(q, S_OK))
  {
    hide Samples, Framed, PassedOn, LetGo;
    var w, r := q.worker, AfterBusy(q, S_OK);
    if ResetComes(q) {
      var e :| e in Pending(q) && e.kind == ResetPacket;
      if e in q.batch + q.list {
        assert e in Pending(r);
      } else {
        assert e in InHand(w);
        HandRecovers(w, q.config, q.hr, e);
        assert r.hr == S_OK || e in Pending(r);
      }
    }
  }

  /** A RESET packet in hand stays there until it has set the result. */
  lemma HandRecovers(w: Worker, config: Config, hr: int, e: Entry)
    requires w.Busy? && WorkerShape(config, w) && e in InHand(w) && e.kind == ResetPacket
    ensures e in InHand(Onward(w, hr, S_OK)) || (HrAfter(w, hr) == S_OK && Onward(w, hr, S_OK).stage == ToSignal)
  {
  }

  /** What is pending stays so when more is queued. */
  lemma MorePending(q: Queue, r: Queue, added: seq<Entry>)
    requires r.worker == q.worker && r.batch == q.batch && r.list == q.list + added
    ensures ResetComes(q) ==> ResetComes(r)
  {
    hide InHand;
    if ResetComes(q) {
      var e :| e in Pending(q) && e.kind == ResetPacket;
      assert e in Pending(r);
    }
  }

  /** A call only adds to the list. */
  lemma DataAdds(q: Queue, a: Act)
    requires Enabled(q, a) && (a.Receive? || a == EOS)
    ensures var r := After(q, a);
      r.worker == q.worker && r.batch == q.batch && r.list == q.list + Arrived(q, a)
  {
    hide Samples, Stamped, AfterWork, AfterBeginFlush, AfterEndFlush, AfterQueueNewSegment;
  }

  lemma ControlAdds(q: Queue, a: Act)
    requires Enabled(q, a) && (a == SendAnyway || a == QueueNewSegment || a == Reset)
    ensures var r := After(q, a);
      r.worker == q.worker && r.batch == q.batch && r.list == q.list + Arrived(q, a)
  {
    hide Samples, Stamped, AfterWork, AfterBeginFlush, AfterEndFlush, AfterReceive, AfterEOS;
  }

  lemma OthersAddNothing(q: Queue, a: Act)
    requires Enabled(q, a) && !a.Work? && a != Wake
    requires !a.Receive? && a != SendAnyway && a != EOS && a != QueueNewSegment && a != Reset
    ensures var r := After(q, a);
      r.worker == q.worker && r.batch == q.batch && r.list == q.list
  {
    hide AfterWork, AfterReceive, AfterEOS, AfterQueueNewSegment, Queued;
  }

  /** Outside a flush the users do not spoil the result. */
  lemma UsersKeepHr(q: Queue, a: Act)
    requires Enabled(q, a) && Calm(a) && Shape(q) && !q.flushing && !q.terminate && !a.Work?
    ensures var r := After(q, a);
      && !r.flushing && !r.terminate && (Accepting(q) ==> Accepting(r))
  {
    hide Samples, Stamped, Framed, OnlySamples, WorkerShape;
  }

  lemma StepRecovers(q: Queue, a: Act)
    requires Recovering(q) && Sound(q) && Enabled(q, a) && Calm(a)
    ensures Recovering(After(q, a))
  {
    hide Order, Owned, Wakeup, Shape, ResetComes, Accepting, AfterLoop, AfterBusy, Pending;
    if a.Work? {
      if q.worker == AtLoop {
        LoopRecovers(q);
      } else {
        BusyRecovers(q);
      }
    } else {
      UsersKeepHr(q, a);
      if a == Wake {
        WakingKeepsPending(q);
      } else {
        hide After;
        if a.Receive? || a == EOS {
          DataAdds(q, a);
          MorePending(q, After(q, a), Arrived(q, a));
        } else if a == SendAnyway || a == QueueNewSegment || a == Reset {
          ControlAdds(q, a);
          MorePending(q, After(q, a), Arrived(q, a));
        } else {
          OthersAddNothing(q, a);
          MorePending(q, After(q, a), []);
        }
      }
    }
  }

  lemma WakingKeepsPending(q: Queue)
    requires q.worker == Waiting && q.semaphore > 0
    ensures Pending(After(q, Wake)) == Pending(q)
    ensures ResetComes(q) ==> ResetComes(After(q, Wake))
  {
  }

  lemma {:induction false} RunRecovers(q: Queue, acts: seq<Act>)
    requires Recovering(q) && Sound(q) && Legal(q, acts) && AllCalm(acts)
    ensures Recovering(Run(q, acts)) && Sound(Run(q, acts))
    decreases acts
  {
    hide After, Sound, Recovering;
    if acts != [] {
      StepRecovers(q, acts[0]);
      StepKeeps(q, acts[0]);
      RunRecovers(After(q, acts[0]), acts[1..]);
    }
  }

  lemma ResetIsComing(q: Queue)
    requires !q.flushing && !q.terminate
    ensures Recovering(After(q, Reset))
  {
    var r := After(q, Reset);
    var e := Entry(ResetPacket, q.next);
    assert Queued(q, [ResetPacket]).list[|q.list|] == e;
    assert e in Pending(r);
  }

  /** Whatever the pin has refused before: a call of Reset outside a flush ends it. With a pin that
      accepts from then on, the result is S_OK as soon as no RESET packet is pending any more, and so
      whenever the worker has come to its wait. */
  lemma ResetEndsRefusal(q: Queue, acts: seq<Act>)
    requires Sound(q) && !q.flushing && !q.terminate
    requires Legal(After(q, Reset), acts) && AllCalm(acts)
    ensures var r := Run(After(q, Reset), acts);
      && (Free(Pending(r), {ResetPacket}) ==> r.hr == S_OK)
      && (Asleep(r) ==> r.hr == S_OK)
  {
    hide Run, Legal, Sound, Pending, After;
    ResetIsComing(q);
    StepKeeps(q, Reset);
    RunRecovers(After(q, Reset), acts);
    var r := Run(After(q, Reset), acts);
    if Asleep(r) {
      AsleepHasNoReset(r);
    }
  }

  lemma AsleepHasNoReset(q: Queue)
    requires Sound(q) && Asleep(q)
    ensures !ResetComes(q)
  {
    hide Order, Owned;
  }

  /** In every run: whoever has called Reset is in it until it returns. */
  lemma {:induction false} ResetsReturn(q: Queue, acts: seq<Act>)
    requires Legal(q, acts)
    ensures Run(q, acts).resetCallers + Times(acts, ResetReturns) == q.resetCallers + Times(acts, Reset)
    decreases acts
  {
    hide After;
    if acts != [] {
      OneReset(q, acts[0]);
      ResetsReturn(After(q, acts[0]), acts[1..]);
    }
  }

  lemma OneReset(q: Queue, a: Act)
    requires Enabled(q, a)
    ensures After(q, a).resetCallers + (if a == ResetReturns then 1 else 0)
         == q.resetCallers + if a == Reset then 1 else 0
  {
    hide AfterWork, Samples, Stamped;
    if a.Work? {
      WorkKeeps(q, a);
    }
  }

  // ----- A flush ends as well -----

  /** The pin accepts what it gets, and the queue is neither reset nor destroyed. */
  predicate Willing(a: Act) {
    match a
    case Terminate => false
    case Reset => false
    case Work(answer) => answer == S_OK
    case _ => true
  }

  /** S_FALSE while a flush is on, S_OK otherwise. */
  predicate FlushGoverns(q: Queue) {
    && !q.terminate && !ResetPending(q)
    && (q.hr == S_OK <==> q.flusher == NoFlush)
    && (q.worker.Busy? && q.worker.stage.ToUpdate? ==> q.worker.stage.answer == S_OK)
    && (q.flushing <==> q.flusher in {Began, AwaitsWorker, Woken})
  }

  lemma BusyGoverned(q: Queue)
    requires FlushGoverns(q) && q.worker.Busy?
    ensures var r := AfterBusy(q, S_OK);
      r.hr == q.hr && (r.worker.Busy? && r.worker.stage.ToUpdate? ==> r.worker.stage.answer == S_OK)
  {
    hide Samples, ResetPending, PassedOn, LetGo;
    ResetlessHand(q);
  }

  lemma StepGoverned(q: Queue, a: Act)
    requires FlushGoverns(q) && Enabled(q, a) && Willing(a)
    ensures FlushGoverns(After(q, a))
  {
    hide AfterLoop, AfterBusy, Samples, Stamped, ResetPending;
    StaysResetless(q, a);
    if a.Work? {
      WorkKeeps(q, a);
      if q.worker == AtLoop {
        LoopStage(q);
        LoopHr(q);
      } else {
        BusyGoverned(q);
      }
    } else {
      hide AfterWork;
      assert After(q, a).worker == q.worker || a == Wake;
    }
  }

  /** With a pin that accepts everything, and without Reset, the result refuses the users exactly from
      BeginFlush until EndFlush has returned, and data is thrown away exactly until EndFlush has had
      the worker's answer. */
  lemma {:induction false} FlushGovernsAlways(q: Queue, acts: seq<Act>)
    requires FlushGoverns(q) && Legal(q, acts) && forall i :: 0 <= i < |acts| ==> Willing(acts[i])
    ensures FlushGoverns(Run(q, acts))
    decreases acts
  {
    hide After, FlushGoverns;
    if acts != [] {
      StepGoverned(q, acts[0]);
      FlushGovernsAlways(After(q, acts[0]), acts[1..]);
    }
  }

  lemma RefusesWhileFlushing(q: Queue, acts: seq<Act>)
    requires Initial(q) && Legal(q, acts) && forall i :: 0 <= i < |acts| ==> Willing(acts[i])
    ensures var r := Run(q, acts);
      && (r.hr == S_OK <==> r.flusher == NoFlush)
      && (r.flushing <==> r.flusher in {Began, AwaitsWorker, Woken})
  {
    hide Run, Legal;
    FlushGovernsAlways(q, acts);
  }

  // ----- A short flush -----

  /** Whether no data has been accepted since the last flush was completed, or since the start. */
  function Untouched(q: Queue, acts: seq<Act>, was: bool): bool
    requires Legal(q, acts)
    decreases acts
  {
    if acts == [] then was
    else
      var now := if acts[0] == MarkFlushed then true
                 else if q.hr == S_OK && (acts[0].Receive? || acts[0] == EOS) then false
                 else was;
      Untouched(After(q, acts[0]), acts[1..], now)
  }

  lemma {:induction false} FlushedIsUntouched(q: Queue, acts: seq<Act>)
    requires Legal(q, acts)
    ensures Run(q, acts).flushed == Untouched(q, acts, q.flushed)
    decreases acts
  {
    hide After;
    if acts != [] {
      StepFlushed(q, acts[0]);
      FlushedIsUntouched(After(q, acts[0]), acts[1..]);
    }
  }

  lemma StepFlushed(q: Queue, a: Act)
    requires Enabled(q, a)
    ensures After(q, a).flushed ==
      if a == MarkFlushed then true else if q.hr == S_OK && (a.Receive? || a == EOS) then false else q.flushed
  {
    hide AfterWork, Samples, Stamped;
    if a.Work? {
      WorkKeeps(q, a);
    }
  }

  /** EndFlush returns at once, with nothing to wait for, exactly if the queue is told to take such
      short cuts and no data has been accepted since the last flush; and then the result is S_OK. */
  lemma FlushIsShortIff(q: Queue, acts: seq<Act>)
    requires Initial(q) && Legal(q, acts) && Run(q, acts).flusher == Began
    ensures var r := After(Run(q, acts), EndFlush);
      if q.config.flushingOpt && Untouched(q, acts, true) then
        r.flusher == NoFlush && r.hr == S_OK && !r.flushing
      else r.flusher == AwaitsWorker && r.hr == Run(q, acts).hr && r.flushing == Run(q, acts).flushing
  {
    hide Run, Legal, Untouched;
    FlushedIsUntouched(q, acts);
    SameConfig(q, acts);
  }

  // ----- Full batches -----

  lemma {:induction false} GatherFull(config: Config, batch: seq<Entry>, list: seq<Entry>)
    requires |batch| < config.batchSize
    ensures var g := Gather(config, batch, list);
      && |g.batch| <= config.batchSize
      && (|g.batch| < config.batchSize && g.packet.None? ==> g.list == [])
      && (g.wait ==> g.list == [] && g.packet.None? && |g.batch| < config.batchSize)
      && (g.wait ==> config.exact || g.batch == [])
      && (!g.wait && config.exact ==> |g.batch| == config.batchSize || g.packet.Some?)
    decreases |list|
  {
    if list != [] {
      if list[0].kind == Sample {
        if |batch| + 1 != config.batchSize {
          GatherFull(config, batch + [list[0]], list[1..]);
        }
      } else if list[0].kind == SendPacket && batch == [] {
        GatherFull(config, batch, list[1..]);
      }
    }
  }

  /** The worker leaves its turn with a full batch, or with all that was in the list, or because of a
      control packet; it goes to wait only with the list empty and less than a batch, and without
      exact batching only with nothing at all. */
  lemma FullBatches(q: Queue)
    requires Reached(q) && q.worker == AtLoop && !q.terminate
    ensures var r := After(q, Work(S_OK));
      if r.worker == Waiting then r.list == [] && |r.batch| < r.config.batchSize && (r.config.exact || r.batch == [])
      else
        && r.worker.Busy? && r.batch == []
        && |r.worker.sending| <= r.config.batchSize
        && (|r.worker.sending| == r.config.batchSize || r.worker.packet.Some? || (r.list == [] && !r.config.exact))
  {
    hide Reached, Gather, Samples, Order, Owned, Wakeup, Framed, OnlySamples, WorkerShape;
    ReachedIsSound(q);
    var f := if q.flushing then Freed(q) else q;
    GatherFull(q.config, f.batch, f.list);
  }
}
