/** The worker's assertions that it never sends data while the queue counts as flushed. */
module QueueSending {
  import opened QueueSteps
  import opened QueueInvariants
  import opened QueueGuarantees
  import opened QueueDelivery
  import opened QueueRest
  import opened QueueFlush
  import opened Wrappers

  /** What ThreadProc asserts, before and after it calls ReceiveMultiple. */
  predicate AssertsHold(q: Queue) {
    q.worker.Busy? && (q.worker.stage == ToCall || q.worker.stage.ToUpdate?) ==> !q.flushed
  }

  // ----- In runs in which Reset keeps apart from flushes -----

  /** Reset is not called during a flush, and no flush begins while the worker has a ResetPacket in
      hand. */
  predicate Apart(q: Queue, a: Act) {
    && (a.Reset? ==> q.flusher == NoFlush)
    && (a.BeginFlush? ==> !Ends(q.worker, ResetPacket))
  }

  predicate LegalApart(q: Queue, acts: seq<Act>)
    decreases acts
  {
    acts != [] ==> Enabled(q, acts[0]) && Apart(q, acts[0]) && LegalApart(After(q, acts[0]), acts[1..])
  }

  lemma {:induction false} ApartIsLegal(q: Queue, acts: seq<Act>)
    requires LegalApart(q, acts)
    ensures Legal(q, acts)
    decreases acts
  {
    hide After, Apart;
    if acts != [] {
      ApartIsLegal(After(q, acts[0]), acts[1..]);
    }
  }

  /** No data is left that could be passed on, nor any that is being passed on. */
  predicate NoData(q: Queue) {
    Free(Pending(q), DATA) && Held(q.worker) == []
  }

  predicate NoDataNorReset(q: Queue) {
    NoData(q) && !ResetPending(q)
  }

  /** During a flush nothing is accepted; the worker's free-all has happened once the event is set;
      and a queue that counts as flushed has no data. */
  predicate FlushSound(q: Queue) {
    && (q.flusher != NoFlush ==> q.hr != S_OK && !Ends(q.worker, ResetPacket))
    && (q.flushing <==> q.flusher in {Began, AwaitsWorker, Woken})
    && (q.flusher == AwaitsWorker ==> !Shortcut(q))
    && (q.flushed ==> NoData(q))
    && (q.flusher in {Began, AwaitsWorker} && q.flushComplete && !Shortcut(q) ==> NoDataNorReset(q))
    && (q.flusher in {Woken, Cleared, Marked} ==> NoDataNorReset(q))
  }

  /** While m_hr refuses data, what has no data keeps having none. */
  lemma StaysDataless(q: Queue, a: Act)
    requires NoData(q) && Shape(q) && Enabled(q, a)
    requires q.hr != S_OK || !(a.Receive? || a.EOS?)
    ensures NoData(After(q, a))
  {
    hide Samples, AfterWork, Pending, Shape, Held, Stamped;
    StepPending(q, a);
    assert Free(Arrived(q, a), DATA) by { DatalessArrival(q, a); }
    if a.Work? {
      HeldStays(q, a.answer);
    } else {
      HeldElsewhere(q, a);
      assert Held(AtLoop) == [] by { IdleHolds(); }
    }
  }

  lemma DatalessArrival(q: Queue, a: Act)
    requires q.hr != S_OK || !(a.Receive? || a.EOS?)
    ensures Free(Arrived(q, a), DATA)
  {
  }

  lemma HeldElsewhere(q: Queue, a: Act)
    requires Enabled(q, a) && !a.Work?
    ensures After(q, a).worker == if a.Wake? then AtLoop else q.worker
  {
    hide Samples, Stamped, AfterWork, Held;
  }

  lemma IdleHolds()
    ensures Held(AtLoop) == []
  {
  }

  lemma HeldStays(q: Queue, answer: int)
    requires NoData(q) && Shape(q) && Enabled(q, Work(answer))
    ensures Held(AfterWork(q, answer).worker) == []
  {
    hide Samples, Gather, Stamped, Framed;
    if q.worker == AtLoop {
      LoopPending(q);
      LoopShape(q);
      LoopStage(q);
      HeldIsPending(AfterLoop(q));
      if Held(AfterLoop(q).worker) != [] {
        SamplesAreData(Held(AfterLoop(q).worker), Pending(AfterLoop(q)));
      }
    }
  }

  lemma HeldIsPending(q: Queue)
    requires q.worker.Busy? ==> q.worker.stage in {ToCheck, ToPacket}
    ensures Within(Held(q.worker), Pending(q))
    ensures (q.worker.Busy? ==> OnlySamples(q.worker.sending)) ==> OnlySamples(Held(q.worker))
  {
  }

  lemma SamplesAreData(s: seq<Entry>, t: seq<Entry>)
    requires s != [] && OnlySamples(s) && Within(s, t)
    ensures !Free(t, DATA) && !Free(t, {Sample})
  {
    assert s[0] in t;
  }

  lemma FreedIsEmpty(q: Queue)
    requires q.worker == AtLoop && q.flushing && !q.terminate
    ensures var r := AfterLoop(q);
      r.worker == Waiting && NoDataNorReset(r) && r.flushComplete && r.hr == q.hr
  {
    hide Samples;
  }

  lemma OtherLoop(q: Queue)
    requires q.worker == AtLoop && !q.flushing
    ensures AfterLoop(q).flushComplete == q.flushComplete && AfterLoop(q).hr == q.hr
  {
    hide Samples, Gather;
  }

  lemma LoopKeepsFlush(q: Queue)
    requires FlushSound(q) && Shape(q) && q.worker == AtLoop
    ensures FlushSound(AfterLoop(q))
  {
    hide Samples, Gather, NoData, ResetPending, AfterLoop, Framed, WorkerShape, OnlySamples;
    var a := Work(S_OK);
    WorkKeeps(q, a);
    if q.flushing {
      FreedIsEmpty(q);
    } else {
      OtherLoop(q);
      if !ResetPending(q) {
        StaysResetless(q, a);
        NoResetInHand(AfterLoop(q));
      }
      if NoData(q) {
        StaysDataless(q, a);
      }
    }
  }

  lemma NoResetInHand(q: Queue)
    requires !ResetPending(q)
    ensures !Ends(q.worker, ResetPacket)
  {
    if q.worker.Busy? {
      ResetlessHand(q);
    }
  }

  lemma BusyKeepsFlush(q: Queue, answer: int)
    requires FlushSound(q) && Shape(q) && q.worker.Busy?
    ensures FlushSound(AfterBusy(q, answer))
  {
    hide Samples, NoData, LetGo, PassedOn, Framed, OnlySamples, Pending, Free, ResetPending;
    var a := Work(answer);
    if !ResetPending(q) {
      StaysResetless(q, a);
    }
    if NoData(q) {
      StaysDataless(q, a);
    }
  }

  predicate IsCall(a: Act) {
    a.Receive? || a.SendAnyway? || a.EOS? || a.CheckNewSegment? || a.QueueNewSegment? || a.Reset?
  }

  /** The calls that do not flush. */
  lemma CallKeepsFlush(q: Queue, a: Act)
    requires FlushSound(q) && Shape(q) && Enabled(q, a) && Apart(q, a) && IsCall(a)
    ensures FlushSound(After(q, a))
  {
    hide Shape, AfterReceive, AfterEOS, AfterWork, NoData, ResetPending;
    if q.hr == S_OK && (a.Receive? || a.EOS?) {
      DataKeepsFlush(q, a);
    } else {
      if !ResetPending(q) && !a.Reset? {
        StaysResetless(q, a);
      }
      if NoData(q) {
        StaysDataless(q, a);
      }
      FlagsStay(q, a);
    }
  }

  /** Data is accepted only outside a flush, and then the queue does not count as flushed. */
  lemma DataKeepsFlush(q: Queue, a: Act)
    requires FlushSound(q) && q.hr == S_OK && (a.Receive? || a.EOS?) && Enabled(q, a)
    ensures FlushSound(After(q, a))
  {
    hide Samples, NoData, ResetPending, Stamped, AfterWork;
  }

  predicate SameFlags(q: Queue, r: Queue) {
    && r.flusher == q.flusher && r.flushing == q.flushing && r.flushed == q.flushed && r.hr == q.hr
    && r.flushComplete == q.flushComplete && r.worker == q.worker && r.config == q.config
  }

  lemma FlagsStay(q: Queue, a: Act)
    requires Enabled(q, a) && IsCall(a) && (q.hr != S_OK || !(a.Receive? || a.EOS?))
    ensures SameFlags(q, After(q, a))
  {
    hide AfterWork, AfterBeginFlush, AfterEndFlush, AfterReceive, AfterEOS, AfterQueueNewSegment, Queued;
    match a
    case Receive(n) => RefusedFlags(q, n);
    case EOS => RefusedFlags(q, 0);
    case SendAnyway => QueuedFlags(q, [SendPacket]);
    case QueueNewSegment => QueuedFlags(q, [NewSegment, Parameters]);
    case Reset => QueuedFlags(q, [ResetPacket]);
    case _ =>
  }

  lemma RefusedFlags(q: Queue, n: nat)
    requires q.hr != S_OK
    ensures SameFlags(q, AfterReceive(q, n)) && SameFlags(q, AfterEOS(q))
  {
    hide Samples, Stamped;
  }

  lemma QueuedFlags(q: Queue, kinds: seq<Kind>)
    ensures SameFlags(q, Notified(Queued(q, kinds)))
    ensures SameFlags(q, Notified(Queued(q, kinds).(resetCallers := q.resetCallers + 1)))
    ensures q.segmentCallers > 0 && kinds == [NewSegment, Parameters] ==> SameFlags(q, AfterQueueNewSegment(q))
  {
    hide Stamped;
  }

  lemma FlushKeepsFlush(q: Queue, a: Act)
    requires FlushSound(q) && Sound(q) && Enabled(q, a) && Apart(q, a) && !IsCall(a) && !a.Work?
    ensures FlushSound(After(q, a))
  {
    hide Samples, NoData, ResetPending, Stamped, AfterWork, Framed, WorkerShape, OnlySamples, Order, Owned,
      AfterReceive, AfterEOS, AfterQueueNewSegment;
    if !ResetPending(q) {
      StaysResetless(q, a);
    }
    if NoData(q) {
      StaysDataless(q, a);
    }
  }

  lemma StepKeepsFlush(q: Queue, a: Act)
    requires FlushSound(q) && Sound(q) && Enabled(q, a) && Apart(q, a)
    ensures FlushSound(After(q, a))
  {
    hide FlushSound, AfterBusy, AfterLoop, Shape, Owned, Order, Wakeup, Apart;
    if a.Work? {
      if q.worker == AtLoop {
        LoopKeepsFlush(q);
      } else {
        BusyKeepsFlush(q, a.answer);
      }
    } else if IsCall(a) {
      CallKeepsFlush(q, a);
    } else {
      FlushKeepsFlush(q, a);
    }
  }

  lemma {:induction false} RunKeepsFlush(q: Queue, acts: seq<Act>)
    requires FlushSound(q) && Sound(q) && LegalApart(q, acts)
    ensures Legal(q, acts) && FlushSound(Run(q, acts)) && Sound(Run(q, acts))
    decreases acts
  {
    hide FlushSound, Sound, After, Apart;
    ApartIsLegal(q, acts);
    if acts != [] {
      StepKeeps(q, acts[0]);
      StepKeepsFlush(q, acts[0]);
      RunKeepsFlush(After(q, acts[0]), acts[1..]);
    }
  }

  lemma InitialFlush(q: Queue)
    requires Initial(q)
    ensures Sound(q) && FlushSound(q)
  {
    InitialSound(q);
  }

  lemma ReachableApart(q: Queue, acts: seq<Act>)
    requires Initial(q) && LegalApart(q, acts)
    ensures Legal(q, acts) && FlushSound(Run(q, acts)) && Sound(Run(q, acts))
  {
    hide FlushSound, Sound;
    InitialFlush(q);
    RunKeepsFlush(q, acts);
  }

  /** If Reset keeps apart from flushes, the worker's assertions hold in every reachable state; and
      each flush discards all data that has arrived. */
  lemma SendingIsNotFlushed(q: Queue, acts: seq<Act>)
    requires Initial(q) && LegalApart(q, acts)
    ensures Legal(q, acts) && AssertsHold(Run(q, acts))
    ensures var r := Run(q, acts);
      Enabled(r, BeginFlush) && Apart(r, BeginFlush) ==> Guaranteed(r, DATA)
  {
    hide Guaranteed, Run, Legal, LegalApart, Order, Owned, Wakeup;
    ReachableApart(q, acts);
    var r := Run(q, acts);
    SendingIsHeld(r);
    if Enabled(r, BeginFlush) && Apart(r, BeginFlush) {
      FlushGuarantee(r, DATA);
    }
  }

  lemma SendingIsHeld(q: Queue)
    requires Shape(q) && FlushSound(q)
    ensures AssertsHold(q)
  {
    hide Framed, OnlySamples;
  }

  // ----- In all runs -----

  /** No sample is left, and none has been handed to the pin that has not answered yet. */
  predicate NothingToSend(q: Queue) {
    Free(Pending(q), {Sample}) && !(q.worker.Busy? && q.worker.stage.ToUpdate?)
  }

  /** EndFlush does not set m_bFlushed again. */
  predicate Unmarked(acts: seq<Act>) {
    forall i :: 0 <= i < |acts| ==> acts[i] != MarkFlushed
  }

  /** From here on the assertions hold, until EndFlush sets m_bFlushed the next time. */
  ghost predicate AssertsHoldOn(q: Queue) {
    forall acts | Legal(q, acts) && Unmarked(acts) :: AssertsHold(Run(q, acts))
  }

  predicate Clean(q: Queue) {
    q.flushed ==> NothingToSend(q)
  }

  lemma StepKeepsClean(q: Queue, a: Act)
    requires Clean(q) && Shape(q) && Enabled(q, a) && a != MarkFlushed
    ensures Clean(After(q, a))
  {
    hide Samples, AfterLoop, AfterBusy, Pending, Stamped, Framed, Free;
    StepPending(q, a);
    SampleArrival(q, a);
    if After(q, a).flushed {
      FlushedBefore(q, a);
      BothFree(Pending(q), Arrived(q, a));
      FreeOf(Pending(After(q, a)), Pending(q) + Arrived(q, a), {Sample});
      if a.Work? && q.worker.Busy? {
        AnswerAwaited(q, a.answer);
      } else if a.Work? {
        LoopStage(q);
      } else {
        HeldElsewhere(q, a);
      }
    }
  }

  lemma FlushedBefore(q: Queue, a: Act)
    requires Enabled(q, a) && After(q, a).flushed && a != MarkFlushed
    ensures q.flushed && (q.hr != S_OK || !(a.Receive? || a.EOS?))
  {
    hide Samples, AfterWork, Stamped;
    if a.Work? {
      WorkKeeps(q, a);
    }
  }

  lemma SampleArrival(q: Queue, a: Act)
    requires Enabled(q, a)
    ensures q.hr != S_OK || !(a.Receive? || a.EOS?) ==> Free(Arrived(q, a), {Sample})
  {
    hide AfterWork, Samples;
  }

  lemma FreeOf(s: seq<Entry>, t: seq<Entry>, kinds: set<Kind>)
    requires Within(s, t)
    ensures Free(t, kinds) ==> Free(s, kinds)
  {
  }

  /** The pin is asked only for a batch, which is pending until then. */
  lemma AnswerAwaited(q: Queue, answer: int)
    requires Shape(q) && q.worker.Busy? && Free(Pending(q), {Sample})
    ensures var w := AfterBusy(q, answer).worker; !(w.Busy? && w.stage.ToUpdate?)
    ensures q.worker.stage != ToCall
  {
    hide Samples, PassedOn, LetGo, HrAfter, Framed;
    if q.worker.stage == ToCall {
      SendingIsPending(q);
      SamplesAreData(q.worker.sending, Pending(q));
    }
  }

  lemma SendingIsPending(q: Queue)
    requires q.worker.Busy? && q.worker.stage == ToCall
    ensures Within(q.worker.sending, Pending(q))
  {
  }

  lemma CleanHolds(q: Queue)
    requires Clean(q) && Shape(q)
    ensures AssertsHold(q)
  {
    hide Pending, Free, Framed, OnlySamples, WorkerShape;
    if q.flushed && q.worker.Busy? {
      AnswerAwaited(q, S_OK);
    }
  }

  lemma {:induction false} RunKeepsClean(q: Queue, acts: seq<Act>)
    requires Clean(q) && Sound(q) && Legal(q, acts) && Unmarked(acts)
    ensures AssertsHold(Run(q, acts))
    decreases acts
  {
    hide Clean, AssertsHold, After, Order, Shape, Owned, Wakeup;
    if acts == [] {
      CleanHolds(q);
    } else {
      StepKeepsClean(q, acts[0]);
      StepKeeps(q, acts[0]);
      RunKeepsClean(After(q, acts[0]), acts[1..]);
    }
  }

  lemma HoldsOnAfter(q: Queue, a: Act)
    requires AssertsHoldOn(q) && Enabled(q, a) && a != MarkFlushed
    ensures AssertsHoldOn(After(q, a)) && AssertsHold(q)
  {
    hide AssertsHold, After;
    forall acts | Legal(After(q, a), acts) && Unmarked(acts)
      ensures AssertsHold(Run(After(q, a), acts))
    {
      Prefixed(q, a, acts);
      assert Unmarked([a] + acts);
    }
    assert Legal(q, []) && Run(q, []) == q && Unmarked([]);
  }

  /** As long as the assertions hold and the queue counts as flushed, no sample is passed on. */
  lemma {:induction false} HoldingPassesNone(q: Queue, acts: seq<Act>)
    requires AssertsHoldOn(q) && q.flushed && Sound(q) && Legal(q, acts)
    requires forall i :: 0 <= i < |acts| ==> acts[i] == SendAnyway || acts[i] == Wake || acts[i] == Work(S_OK)
    ensures Free(PassedIn(q, acts), {Sample})
    decreases acts
  {
    hide AssertsHoldOn, AssertsHold, After, Sound, Free;
    RunPending(q, acts);
    if acts == [] {
      NoneSample(q.delivered);
    } else {
      var s, r := After(q, acts[0]), Run(q, acts);
      HoldsOnAfter(q, acts[0]);
      StepKeeps(q, acts[0]);
      PassesNone(q, acts[0]);
      RunPending(s, acts[1..]);
      HoldingPassesNone(s, acts[1..]);
      assert r.delivered[|q.delivered|..] == s.delivered[|q.delivered|..] + r.delivered[|s.delivered|..];
      BothFree(s.delivered[|q.delivered|..], r.delivered[|s.delivered|..]);
    }
  }

  lemma NoneSample(s: seq<Entry>)
    ensures Free(s[|s|..], {Sample})
  {
  }

  lemma BothFree(s: seq<Entry>, t: seq<Entry>)
    requires Free(s, {Sample}) && Free(t, {Sample})
    ensures Free(s + t, {Sample})
  {
  }

  lemma PassesNone(q: Queue, a: Act)
    requires AssertsHold(q) && q.flushed && Sound(q)
    requires Enabled(q, a) && (a == SendAnyway || a == Wake || a == Work(S_OK))
    ensures After(q, a).flushed && q.delivered <= After(q, a).delivered
    ensures Free(After(q, a).delivered[|q.delivered|..], {Sample})
  {
    hide Samples, AfterLoop, Stamped, Order, Owned, Wakeup, Framed, OnlySamples, PassedOn, Onward, LetGo, HrAfter,
      Free;
    NoneSample(q.delivered);
    if a.Work? && q.worker == AtLoop {
      LoopPending(q);
      WorkKeeps(q, a);
    } else if a.Work? {
      Suffix(q.delivered, PassedOn(q.worker));
      PassedNoSample(q.config, q.worker);
    }
  }

  lemma PassedNoSample(config: Config, w: Worker)
    requires w.Busy? && w.stage != ToCall && WorkerShape(config, w)
    ensures Free(PassedOn(w), {Sample})
  {
  }

  /** In every reachable state in which EndFlush comes to set m_bFlushed: the worker's assertions
      hold from then on, until it is set the next time, if and only if there is nothing to send. */
  lemma SendingIsNotFlushedIff(q: Queue)
    requires Reached(q) && Enabled(q, MarkFlushed)
    ensures AssertsHoldOn(After(q, MarkFlushed)) <==> NothingToSend(q)
  {
    hide Sound, Run, Legal, NothingToSend, AssertsHoldOn, After, Reached;
    ReachedIsSound(q);
    StepKeeps(q, MarkFlushed);
    if NothingToSend(q) {
      MarkedClean(q);
      HoldsFrom(After(q, MarkFlushed));
    } else {
      FailsFrom(q);
    }
  }

  lemma MarkedClean(q: Queue)
    requires Enabled(q, MarkFlushed) && NothingToSend(q)
    ensures Clean(After(q, MarkFlushed))
  {
    hide Samples;
  }

  lemma HoldsFrom(q: Queue)
    requires Clean(q) && Sound(q)
    ensures AssertsHoldOn(q)
  {
    hide Clean, Sound, AssertsHold, Unmarked;
    forall acts | Legal(q, acts) && Unmarked(acts)
      ensures AssertsHold(Run(q, acts))
    {
      RunKeepsClean(q, acts);
    }
  }

  /** And they hold from the start. */
  lemma AssertsHoldAtFirst(q: Queue)
    requires Initial(q)
    ensures AssertsHoldOn(q)
  {
    InitialSound(q);
    hide AssertsHoldOn;
    HoldsFrom(q);
  }

  lemma FailsFrom(q: Queue)
    requires Sound(q) && Enabled(q, MarkFlushed) && !NothingToSend(q)
    ensures !AssertsHoldOn(After(q, MarkFlushed))
  {
    hide Sound, AssertsHoldOn, After, Run, Legal, PassedIn, Undisturbed, Pending;
    var m := After(q, MarkFlushed);
    StepKeeps(q, MarkFlushed);
    if AssertsHoldOn(m) {
      assert Enabled(m, ClearHr) by { MarkedIsNext(q); }
      HoldsOnAfter(m, ClearHr);
      StepKeeps(m, ClearHr);
      var s, e := SampleLeft(q);
      var acts := Drains(s);
      HoldingPassesNone(s, acts);
      assert false;
    }
  }

  lemma MarkedIsNext(q: Queue)
    requires Enabled(q, MarkFlushed)
    ensures Enabled(After(q, MarkFlushed), ClearHr)
  {
  }

  lemma SampleLeft(q: Queue) returns (s: Queue, e: Entry)
    requires Sound(q) && Enabled(q, MarkFlushed) && !NothingToSend(q)
    requires AssertsHold(After(q, MarkFlushed))
    ensures Enabled(After(q, MarkFlushed), ClearHr) && s == After(After(q, MarkFlushed), ClearHr)
    ensures Undisturbed(s) && s.flushed && e in Pending(s) && e.kind == Sample
  {
    hide Order, Owned, Wakeup, Framed, OnlySamples, WorkerShape;
    s := After(After(q, MarkFlushed), ClearHr);
    assert Pending(s) == Pending(q);
    e :| e in Pending(q) && e.kind == Sample;
  }

  // ----- An assertion that fails -----

  /** For example: the worker has a ResetPacket in hand when the flush begins. The event it sets for
      Reset ends the wait of EndFlush while a sample stands in the list; m_bFlushed is set, and then
      the sample is sent. */
  lemma SentWhileFlushed(q: Queue)
    requires Initial(q) && q.config == Config(1, false, false)
    ensures var acts := [Reset, Work(0), Receive(1)]
                        + [BeginFlush, EndFlush, Work(0), Work(0), FlushWaited, ClearFlushing];
      && Legal(q, acts) && Enabled(Run(q, acts), MarkFlushed)
      && !AssertsHoldOn(After(Run(q, acts), MarkFlushed))
  {
    hide AssertsHoldOn, Run, Legal, After, Enabled, NothingToSend;
    var r := SampleBehindReset(q);
    var f := EventTaken(r);
    var before, flush := [Reset, Work(0), Receive(1)],
      [BeginFlush, EndFlush, Work(0), Work(0), FlushWaited, ClearFlushing];
    RunAppends(q, before, flush);
    assert Reached(f);
    assert !NothingToSend(f) by { StillToSend(f, Entry(Sample, 1)); }
    SendingIsNotFlushedIff(f);
  }

  lemma StillToSend(q: Queue, e: Entry)
    requires e in q.list && e.kind == Sample
    ensures !NothingToSend(q)
  {
    assert e in Pending(q);
  }

  /** The flush, up to the point where EndFlush is to set m_bFlushed. */
  lemma EventTaken(r: Queue) returns (f: Queue)
    requires r.worker == Busy(ToPacket, [], Some(Entry(ResetPacket, 0)))
    requires !Shortcut(r) && Enabled(r, BeginFlush)
    ensures var flush := [BeginFlush, EndFlush, Work(0), Work(0), FlushWaited, ClearFlushing];
      Legal(r, flush) && f == Run(r, flush)
    ensures f.list == r.list && Enabled(f, MarkFlushed)
  {
    hide Run, Legal, After, Enabled;
    var b, w := FlushBegins(r);
    var w1, w2 := SignalsSoon(w);
    var w3;
    w3, f := WaitIsOver(w2);
    Trace([BeginFlush, EndFlush, Work(0), Work(0), FlushWaited, ClearFlushing], [r, b, w, w1, w2, w3, f]);
  }

  lemma SignalsSoon(w: Queue) returns (w1: Queue, w2: Queue)
    requires w.worker == Busy(ToPacket, [], Some(Entry(ResetPacket, 0))) && w.flusher == AwaitsWorker
    ensures Enabled(w, Work(0)) && w1 == After(w, Work(0)) && Enabled(w1, Work(0)) && w2 == After(w1, Work(0))
    ensures w2.flushComplete && w2.flusher == AwaitsWorker && w2.list == w.list
  {
    hide Samples;
    w1 := After(w, Work(0));
    w2 := After(w1, Work(0));
  }

  lemma WaitIsOver(w2: Queue) returns (w3: Queue, f: Queue)
    requires w2.flushComplete && w2.flusher == AwaitsWorker
    ensures Enabled(w2, FlushWaited) && w3 == After(w2, FlushWaited)
    ensures Enabled(w3, ClearFlushing) && f == After(w3, ClearFlushing)
    ensures f.list == w2.list && Enabled(f, MarkFlushed)
  {
    w3 := After(w2, FlushWaited);
    f := After(w3, ClearFlushing);
  }
}
