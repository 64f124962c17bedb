/** Reset and EndFlush wait for one and the same auto-reset event. When such a wait is sure to end. */
module QueueWaits {
  import opened QueueSteps
  import opened QueueInvariants
  import opened QueueGuarantees
  import opened QueueDelivery
  import opened QueueRest
  import opened QueueFlush
  import opened Wrappers

  /** The threads that wait for m_evFlushComplete. */
  function Waiters(q: Queue): nat {
    q.resetCallers + if q.flusher == AwaitsWorker then 1 else 0
  }

  /** What happens without a new call: the worker goes on, and waits end. */
  predicate Closed(a: Act) {
    a == Wake || a.Work? || a == ResetReturns || a == FlushWaited
  }

  predicate AllClosed(acts: seq<Act>) {
    forall i :: 0 <= i < |acts| ==> Closed(acts[i])
  }

  ghost predicate AtRest(q: Queue) {
    forall a | Closed(a) :: !Enabled(q, a)
  }

  /** However the threads take turns: when nothing more happens, nobody waits. */
  ghost predicate SureToReturn(q: Queue) {
    forall acts | Legal(q, acts) && AllClosed(acts) && AtRest(Run(q, acts)) :: Waiters(Run(q, acts)) == 0
  }

  /** The event is set, or the worker is going to set it: for a ResetPacket that it has or finds in
      the list, or because of a flush when it is not asleep. */
  predicate SignalComing(q: Queue) {
    || q.flushComplete
    || Ends(q.worker, ResetPacket)
    || !Free(q.list, {ResetPacket})
    || (q.flushing && !Asleep(q))
  }

  predicate WaitEnds(q: Queue) {
    Waiters(q) == 0 || (Waiters(q) == 1 && SignalComing(q))
  }

  // ----- Such runs are finite -----

  /** At most as many steps as this are left without a new call. */
  function StepsToRest(q: Queue): nat {
    8 * (|q.batch| + |q.list|) + Distance(q) + Waiters(q)
  }

  lemma LoopIsCloser(q: Queue)
    requires Sound(q) && q.worker == AtLoop
    ensures StepsToRest(AfterLoop(q)) < StepsToRest(q)
  {
    hide Gather, Samples, Order, Owned, Shape, Framed;
    WorkKeeps(q, Work(S_OK));
    if !q.terminate {
      var f := if q.flushing then Freed(q) else q;
      GatherSizes(q.config, f.batch, f.list);
      GatherShrinks(q.config, f.batch, f.list);
      GatherWaits(q.config, f.batch, f.list);
    }
  }

  lemma {:induction false} GatherSizes(config: Config, batch: seq<Entry>, list: seq<Entry>)
    ensures var g := Gather(config, batch, list); |g.batch| + |g.list| <= |batch| + |list|
    decreases |list|
  {
    if list != [] {
      if list[0].kind == Sample {
        GatherSizes(config, batch + [list[0]], list[1..]);
      } else {
        GatherSizes(config, batch, list[1..]);
      }
    }
  }

  lemma BusyIsCloser(q: Queue, answer: int)
    requires q.worker.Busy?
    ensures StepsToRest(AfterBusy(q, answer)) < StepsToRest(q)
  {
    hide Samples, Onward, PassedOn, LetGo, HrAfter;
    OnwardLeft(q.worker, q.hr, answer);
  }

  lemma ClosedStepIsCloser(q: Queue, a: Act)
    requires Sound(q) && Enabled(q, a) && Closed(a)
    ensures StepsToRest(After(q, a)) < StepsToRest(q)
  {
    hide Sound, AfterLoop, AfterBusy;
    if a.Work? {
      if q.worker == AtLoop {
        LoopIsCloser(q);
      } else {
        BusyIsCloser(q, a.answer);
      }
    }
  }

  /** Without a new call everything comes to rest. */
  lemma {:induction false} ClosedRunsEnd(q: Queue, acts: seq<Act>)
    requires Sound(q) && Legal(q, acts) && AllClosed(acts)
    ensures |acts| <= StepsToRest(q)
    decreases acts
  {
    hide Sound, After, StepsToRest, Closed, Enabled;
    if acts != [] {
      ClosedStepIsCloser(q, acts[0]);
      StepKeeps(q, acts[0]);
      ClosedRunsEnd(After(q, acts[0]), acts[1..]);
    }
  }

  // ----- A wait that ends -----

  lemma {:induction false} GatherKeepsReset(config: Config, batch: seq<Entry>, list: seq<Entry>)
    requires Framed(list) && !Free(list, {ResetPacket})
    ensures var g := Gather(config, batch, list);
      !g.wait && (!Free(g.list, {ResetPacket}) || (g.packet.Some? && g.packet.value.kind == ResetPacket))
    decreases |list|
  {
    var e :| e in list && e.kind == ResetPacket;
    if list[0].kind == Sample {
      assert e in list[1..];
      var more := batch + [list[0]];
      if |more| != config.batchSize {
        GatherKeepsReset(config, more, list[1..]);
      }
    } else if list[0].kind == SendPacket && batch == [] {
      assert e in list[1..];
      GatherKeepsReset(config, batch, list[1..]);
    } else if list[0].kind == NewSegment {
      assert list == [list[0], list[1]] + list[2..];
      assert e in list[2..];
    } else if list[0] != e {
      assert e in list[1..];
    }
  }

  lemma LoopKeepsSignal(q: Queue)
    requires Shape(q) && SignalComing(q) && q.worker == AtLoop && !q.terminate
    ensures SignalComing(AfterLoop(q))
  {
    hide Gather, Samples, Framed, OnlySamples;
    if !q.flushing && !q.flushComplete {
      GatherKeepsReset(q.config, q.batch, q.list);
    }
  }

  lemma BusyKeepsSignal(q: Queue, answer: int)
    requires Shape(q) && SignalComing(q) && q.worker.Busy?
    ensures SignalComing(AfterBusy(q, answer))
  {
    hide Samples, PassedOn, LetGo, HrAfter, Framed, OnlySamples, Free;
  }

  lemma WorkKeepsWaiters(q: Queue, a: Act)
    requires Enabled(q, a) && (a.Work? || a == Wake)
    ensures Waiters(After(q, a)) == Waiters(q)
  {
    hide AfterWork;
    if a.Work? {
      WorkKeeps(q, a);
    }
  }

  lemma ClosedKeepsEnding(q: Queue, a: Act)
    requires Shape(q) && WaitEnds(q) && Enabled(q, a) && Closed(a)
    ensures WaitEnds(After(q, a))
  {
    hide AfterLoop, AfterBusy, Free, Framed, OnlySamples, WorkerShape;
    if a.Work? {
      WorkKeepsWaiters(q, a);
      if Waiters(q) == 1 {
        if q.worker == AtLoop {
          LoopKeepsSignal(q);
        } else {
          BusyKeepsSignal(q, a.answer);
        }
      }
    }
  }

  lemma RestIsWaitless(q: Queue)
    requires Shape(q) && Wakeup(q) && WaitEnds(q) && AtRest(q)
    ensures Waiters(q) == 0
  {
    hide Framed;
    assert Closed(Wake) && Closed(Work(S_OK)) && Closed(ResetReturns) && Closed(FlushWaited);
    assert !Enabled(q, Wake) && !Enabled(q, Work(S_OK)) && !Enabled(q, ResetReturns) && !Enabled(q, FlushWaited);
  }

  lemma {:induction false} EndsForSure(q: Queue, acts: seq<Act>)
    requires Sound(q) && WaitEnds(q) && Legal(q, acts) && AllClosed(acts) && AtRest(Run(q, acts))
    ensures Waiters(Run(q, acts)) == 0
    decreases acts
  {
    hide After, WaitEnds, AtRest, Closed, Order, Owned, Shape, Wakeup, Waiters, Enabled;
    if acts == [] {
      RestIsWaitless(q);
    } else {
      ClosedKeepsEnding(q, acts[0]);
      StepKeeps(q, acts[0]);
      EndsForSure(After(q, acts[0]), acts[1..]);
    }
  }

  // ----- A wait that need not end -----

  lemma {:induction false} GatherFindsNoReset(config: Config, batch: seq<Entry>, list: seq<Entry>)
    requires Free(list, {ResetPacket})
    ensures var g := Gather(config, batch, list);
      Free(g.list, {ResetPacket}) && !(g.packet.Some? && g.packet.value.kind == ResetPacket)
    decreases |list|
  {
    if list != [] {
      assert forall e :: e in list[1..] ==> e in list;
      assert list[0] in list;
      if list[0].kind == Sample {
        GatherFindsNoReset(config, batch + [list[0]], list[1..]);
      } else {
        GatherFindsNoReset(config, batch, list[1..]);
      }
    }
  }

  lemma StaysQuiet(q: Queue, a: Act)
    requires Shape(q) && !SignalComing(q) && Enabled(q, a) && (a == Wake || a == Work(S_OK))
    ensures !SignalComing(After(q, a))
  {
    hide Gather, Samples, PassedOn, LetGo, HrAfter, Framed, OnlySamples, Free;
    if a.Work? && q.worker == AtLoop {
      GatherFindsNoReset(q.config, q.batch, q.list);
      assert Free([], {ResetPacket}) by { NoneReset(); }
    }
  }

  lemma NoneReset()
    ensures Free([], {ResetPacket})
  {
  }

  lemma {:induction false} RunStaysQuiet(q: Queue, acts: seq<Act>)
    requires Sound(q) && Legal(q, acts) && OnlyWorker(acts)
    ensures Waiters(Run(q, acts)) == Waiters(q)
    ensures !SignalComing(q) ==> !SignalComing(Run(q, acts))
    decreases acts
  {
    hide After, SignalComing, Waiters, Order, Owned, Shape, Wakeup, Enabled;
    if acts != [] {
      if !SignalComing(q) {
        StaysQuiet(q, acts[0]);
      }
      WorkKeepsWaiters(q, acts[0]);
      StepKeeps(q, acts[0]);
      RunStaysQuiet(After(q, acts[0]), acts[1..]);
    }
  }

  lemma Stops(q: Queue)
    requires Asleep(q) && !q.flushComplete
    ensures AtRest(q)
  {
  }

  /** One of several waits ends, and with it the event is gone. */
  lemma OneReturns(q: Queue) returns (a: Act)
    requires Asleep(q) && q.flushComplete && Waiters(q) > 0
    ensures Closed(a) && Enabled(q, a)
    ensures var r := After(q, a); Asleep(r) && !r.flushComplete && Waiters(r) == Waiters(q) - 1
  {
    a := if q.resetCallers > 0 then ResetReturns else FlushWaited;
  }

  lemma MayWaitForEver(q: Queue) returns (acts: seq<Act>)
    requires Sound(q) && !WaitEnds(q)
    ensures Legal(q, acts) && AllClosed(acts) && AtRest(Run(q, acts)) && Waiters(Run(q, acts)) > 0
  {
    hide Sound, Legal, Run, After, Enabled, AtRest, Asleep;
    assert !q.terminate by { WaitersKeepIt(q); }
    acts := Settles(q);
    RunStaysQuiet(q, acts);
    var r := Run(q, acts);
    if r.flushComplete {
      var a := OneReturns(r);
      JustOne(r, a);
      RunAppends(q, acts, [a]);
      acts := acts + [a];
      Stops(After(r, a));
    } else {
      Stops(r);
    }
  }

  lemma WaitersKeepIt(q: Queue)
    requires Sound(q) && Waiters(q) > 0
    ensures !q.terminate
  {
    hide Order, Owned, Wakeup;
  }

  // ----- Exactly when -----

  /** In every reachable state: those who wait for the event are sure to get through if and only if
      nobody waits, or only one does and a signal is set or coming. Two overlapping waits are never
      sure to end, for the worker can set the event twice before the first of them has noticed. */
  lemma WaitEndsIff(q: Queue)
    requires Reached(q)
    ensures SureToReturn(q) <==> WaitEnds(q)
  {
    hide Sound, Run, Legal, AtRest, WaitEnds, AllClosed, Waiters, Reached;
    ReachedIsSound(q);
    if WaitEnds(q) {
      forall acts | Legal(q, acts) && AllClosed(acts) && AtRest(Run(q, acts))
        ensures Waiters(Run(q, acts)) == 0
      {
        EndsForSure(q, acts);
      }
    } else {
      var acts := MayWaitForEver(q);
    }
  }

  /** For example: two calls of Reset on a new queue. */
  lemma TwoResets(q: Queue)
    requires Initial(q)
    ensures Legal(q, [Reset, Reset]) && !SureToReturn(Run(q, [Reset, Reset]))
  {
    hide SureToReturn, Run, Legal, Samples;
    var q1 := After(q, Reset);
    var q2 := After(q1, Reset);
    Trace([Reset, Reset], [q, q1, q2]);
    assert Reached(q2);
    WaitEndsIff(q2);
  }
}
