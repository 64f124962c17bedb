/** What a flush keeps from the pin, in every run, with calls of Reset at any time. */
module QueueFlush {
  import opened QueueSteps
  import opened QueueInvariants
  import opened QueueGuarantees
  import opened QueueDelivery
  import opened QueueRest
  import opened Wrappers

  /** What of these kinds is in s arrived at cut or later. */
  predicate Late(s: seq<Entry>, cut: nat, kinds: set<Kind>) {
    forall e :: e in s && e.kind in kinds ==> cut <= e.stamp
  }

  predicate Since(q: Queue, cut: nat, kinds: set<Kind>) {
    Late(Pending(q), cut, kinds)
  }

  /** EndFlush is sure to wait, and what it waits for is the worker freeing the old entries: the
      worker has no ResetPacket in hand that could set the event before, or the list is free of
      them already. */
  predicate WillPurge(q: Queue, cut: nat, kinds: set<Kind>) {
    && q.flusher in {Began, AwaitsWorker} && q.flushing && !q.flushComplete && !Shortcut(q)
    && (Ends(q.worker, ResetPacket) ==> Late(q.list, cut, kinds))
  }

  predicate Purging(q: Queue, cut: nat, kinds: set<Kind>) {
    cut <= q.next && (Since(q, cut, kinds) || WillPurge(q, cut, kinds))
  }

  // ----- The guarantee is kept -----

  lemma StaysSince(q: Queue, a: Act, cut: nat, kinds: set<Kind>)
    requires Since(q, cut, kinds) && cut <= q.next && Enabled(q, a)
    ensures Since(After(q, a), cut, kinds) && cut <= After(q, a).next
  {
    hide After, Pending, Arrived;
    StepPending(q, a);
    ArrivedOrdered(q, a);
    NextGrows(q, a);
  }

  lemma FreeAll(q: Queue)
    requires q.worker == AtLoop && q.flushing && !q.terminate
    ensures Pending(AfterLoop(q)) == []
  {
    hide Samples;
  }

  lemma NonePending(q: Queue, cut: nat, kinds: set<Kind>)
    requires Pending(q) == []
    ensures Since(q, cut, kinds)
  {
  }

  /** The worker finishes with what it has in hand; it sets the event only for a ResetPacket, and
      then the list is all that is pending. */
  lemma BusyPurges(q: Queue, answer: int, cut: nat, kinds: set<Kind>)
    requires WillPurge(q, cut, kinds) && Shape(q) && q.worker.Busy?
    ensures var r := AfterBusy(q, answer); Since(r, cut, kinds) || WillPurge(r, cut, kinds)
  {
    hide Samples, PassedOn, LetGo, HrAfter, Framed, OnlySamples, Late;
    var r := AfterBusy(q, answer);
    if q.worker.stage == ToSignal {
      assert Pending(r) == [] + ([] + q.list) == q.list;
    }
  }

  lemma ListGrowsLate(q: Queue, a: Act, cut: nat, kinds: set<Kind>)
    requires Late(q.list, cut, kinds) && cut <= q.next && Enabled(q, a) && !a.Work?
    ensures Late(After(q, a).list, cut, kinds)
  {
    hide AfterWork, Samples, Stamped;
    ArrivedOrdered(q, a);
    assert After(q, a).list == q.list + Arrived(q, a);
  }

  lemma CallPurges(q: Queue, a: Act, cut: nat, kinds: set<Kind>)
    requires WillPurge(q, cut, kinds) && Shape(q) && cut <= q.next && Enabled(q, a) && !a.Work?
    ensures WillPurge(After(q, a), cut, kinds)
  {
    hide Samples, AfterWork, Framed, OnlySamples, WorkerShape, Late, Stamped;
    if Late(q.list, cut, kinds) {
      ListGrowsLate(q, a, cut, kinds);
    }
  }

  lemma StepKeepsPurging(q: Queue, a: Act, cut: nat, kinds: set<Kind>)
    requires Shape(q) && Purging(q, cut, kinds) && Enabled(q, a)
    ensures Purging(After(q, a), cut, kinds)
  {
    hide Since, AfterLoop, AfterBusy, Pending, Framed, OnlySamples, WorkerShape, Late, Ends;
    if Since(q, cut, kinds) {
      StaysSince(q, a, cut, kinds);
    } else {
      NextGrows(q, a);
      if !a.Work? {
        CallPurges(q, a, cut, kinds);
      } else if q.worker == AtLoop {
        FreeAll(q);
        NonePending(After(q, a), cut, kinds);
      } else {
        BusyPurges(q, a.answer, cut, kinds);
      }
    }
  }

  lemma {:induction false} RunKeepsPurging(q: Queue, acts: seq<Act>, cut: nat, kinds: set<Kind>)
    requires Sound(q) && Purging(q, cut, kinds) && Legal(q, acts)
    ensures Purging(Run(q, acts), cut, kinds)
    decreases acts
  {
    hide Purging, After, Order, Shape, Owned, Wakeup;
    if acts != [] {
      StepKeeps(q, acts[0]);
      StepKeepsPurging(q, acts[0], cut, kinds);
      RunKeepsPurging(After(q, acts[0]), acts[1..], cut, kinds);
    }
  }

  /** What is passed on from now on is of these kinds only if it arrived at cut or later. */
  lemma {:induction false} PassesSince(q: Queue, acts: seq<Act>, cut: nat, kinds: set<Kind>)
    requires Since(q, cut, kinds) && cut <= q.next && Legal(q, acts)
    ensures Late(PassedIn(q, acts), cut, kinds)
    decreases acts
  {
    hide After, Pending;
    RunPending(q, acts);
    if acts != [] {
      var s, r := After(q, acts[0]), Run(q, acts);
      StaysSince(q, acts[0], cut, kinds);
      StepPasses(q, acts[0]);
      RunPending(s, acts[1..]);
      PassesSince(s, acts[1..], cut, kinds);
      assert r.delivered[|q.delivered|..] == s.delivered[|q.delivered|..] + r.delivered[|s.delivered|..];
    }
  }

  // ----- The flush guarantee -----

  /** Whatever happens after BeginFlush takes the lock in q: once EndFlush has returned, nothing of
      these kinds that had arrived is passed on. The run is mid from BeginFlush to some point at
      which no flush is under way, and then rest. */
  ghost predicate Guaranteed(q: Queue, kinds: set<Kind>)
    requires Enabled(q, BeginFlush)
  {
    forall mid, rest | FlushOver(After(q, BeginFlush), mid) && Legal(Run(After(q, BeginFlush), mid), rest) ::
      Late(PassedIn(Run(After(q, BeginFlush), mid), rest), q.next, kinds)
  }

  /** After the run no flush is under way. */
  predicate FlushOver(q: Queue, acts: seq<Act>) {
    Legal(q, acts) && Run(q, acts).flusher == NoFlush
  }

  /** When the flush does its work: if it is cut short, nothing must be pending; and otherwise the
      worker must not have a ResetPacket in hand, unless there is nothing in the list. */
  predicate FlushWorks(q: Queue, kinds: set<Kind>) {
    if Shortcut(q) then Free(Pending(q), kinds)
    else Ends(q.worker, ResetPacket) ==> Free(q.list, kinds)
  }

  lemma FlushStarts(q: Queue, kinds: set<Kind>)
    requires Enabled(q, BeginFlush) && FlushWorks(q, kinds)
    ensures Purging(After(q, BeginFlush), q.next, kinds)
  {
    hide Samples;
    assert Pending(After(q, BeginFlush)) == Pending(q);
  }

  lemma FlushGuarantee(q: Queue, kinds: set<Kind>)
    requires Sound(q) && Enabled(q, BeginFlush) && FlushWorks(q, kinds)
    ensures Guaranteed(q, kinds)
  {
    hide Sound, After, FlushWorks, Since, Late, Enabled;
    FlushStarts(q, kinds);
    var b := After(q, BeginFlush);
    StepKeeps(q, BeginFlush);
    forall mid, rest | FlushOver(b, mid) && Legal(Run(b, mid), rest)
      ensures Late(PassedIn(Run(b, mid), rest), q.next, kinds)
    {
      RunKeepsPurging(b, mid, q.next, kinds);
      PassesSince(Run(b, mid), rest, q.next, kinds);
    }
  }

  // ----- And where it is not -----

  lemma PendingIsOld(q: Queue)
    requires Sound(q)
    ensures forall e :: e in Pending(q) ==> e.stamp < q.next
  {
    hide Shape, Owned, Wakeup;
    forall e | e in Pending(q)
      ensures e.stamp < q.next
    {
      assert e in Stream(q);
    }
  }

  /** A flush that is cut short leaves everything as it is. */
  lemma ShortcutLeaves(q: Queue) returns (mid: seq<Act>)
    requires Sound(q) && Enabled(q, BeginFlush) && Shortcut(q)
    ensures FlushOver(After(q, BeginFlush), mid)
    ensures var s := Run(After(q, BeginFlush), mid);
      Sound(s) && Undisturbed(s) && Pending(s) == Pending(q)
  {
    hide Sound, Run, Legal, Samples;
    var b := After(q, BeginFlush);
    StepKeeps(q, BeginFlush);
    if q.worker.Busy? && q.worker.stage.ToUpdate? {
      Updates(b);
      var u := After(b, Work(S_OK));
      StepKeeps(b, Work(S_OK));
      ShortcutEnds(u);
      Prefixed(b, Work(S_OK), [EndFlush]);
      mid := [Work(S_OK)] + [EndFlush];
    } else {
      ShortcutEnds(b);
      mid := [EndFlush];
    }
  }

  /** The answer of the pin comes too late to be kept. */
  lemma Updates(b: Queue)
    requires b.worker.Busy? && b.worker.stage.ToUpdate? && b.hr != S_OK
    ensures var u := After(b, Work(S_OK));
      && Pending(u) == Pending(b) && u.flusher == b.flusher
      && Shortcut(u) == Shortcut(b) && u.terminate == b.terminate
      && u.worker.Busy? && u.worker.stage == ToRelease
  {
    hide Samples;
  }

  lemma ShortcutEnds(b: Queue)
    requires Sound(b) && b.flusher == Began && Shortcut(b) && !b.terminate
    requires b.worker.Busy? ==> !b.worker.stage.ToUpdate?
    ensures FlushOver(b, [EndFlush])
    ensures var s := Run(b, [EndFlush]); Sound(s) && Undisturbed(s) && Pending(s) == Pending(b)
  {
    hide Sound;
    StepKeeps(b, EndFlush);
    assert [EndFlush][1..] == [];
    assert Run(After(b, EndFlush), []) == After(b, EndFlush);
  }

  /** With a ResetPacket in hand the worker comes to set the event, and leaves the list alone. */
  lemma {:induction false} Signals(q: Queue) returns (acts: seq<Act>)
    requires Sound(q) && q.worker.Busy? && Ends(q.worker, ResetPacket)
    ensures Legal(q, acts)
    ensures var r := Run(q, acts);
      && Sound(r) && r.worker == AtLoop && r.flushComplete
      && r.list == q.list && r.flusher == q.flusher && r.terminate == q.terminate && r.flushed == q.flushed
    decreases StepsLeft(q.worker)
  {
    hide Sound, StepsLeft, Samples, PassedOn, LetGo, HrAfter, AfterLoop, Legal, Run;
    var r := After(q, Work(S_OK));
    StepKeeps(q, Work(S_OK));
    OnwardLeft(q.worker, q.hr, S_OK);
    if q.worker.stage == ToSignal {
      JustOne(q, Work(S_OK));
      acts := [Work(S_OK)];
    } else {
      NotAtEnd(q);
      var rest := Signals(r);
      Prefixed(q, Work(S_OK), rest);
      acts := [Work(S_OK)] + rest;
    }
  }

  lemma NotAtEnd(q: Queue)
    requires Sound(q) && q.worker.Busy? && Ends(q.worker, ResetPacket)
    ensures q.worker.stage != ToEndOfStream
  {
    hide Order, Owned, Wakeup;
  }

  lemma FlushEnds(b: Queue) returns (s: Queue)
    requires b.flusher == AwaitsWorker && b.flushComplete
    ensures var acts := [FlushWaited, ClearFlushing, MarkFlushed, ClearHr]; Legal(b, acts) && s == Run(b, acts)
    ensures s == b.(flusher := NoFlush, flushComplete := false, flushing := false, flushed := true, hr := S_OK)
  {
    hide Run, Legal, Samples, AfterWork, AfterReceive, AfterBeginFlush, AfterEndFlush, Queued, AfterEOS,
      AfterQueueNewSegment;
    var b3 := After(b, FlushWaited);
    var b4 := After(b3, ClearFlushing);
    var b5 := After(b4, MarkFlushed);
    s := After(b5, ClearHr);
    Trace([FlushWaited, ClearFlushing, MarkFlushed, ClearHr], [b, b3, b4, b5, s]);
  }

  /** A run is legal and ends where it does if each state comes from the one before. */
  lemma {:induction false} Trace(acts: seq<Act>, states: seq<Queue>)
    requires |states| == |acts| + 1
    requires forall i :: 0 <= i < |acts| ==> Enabled(states[i], acts[i]) && states[i + 1] == After(states[i], acts[i])
    ensures Legal(states[0], acts) && Run(states[0], acts) == states[|acts|]
    decreases acts
  {
    hide After, Enabled;
    if acts != [] {
      Trace(acts[1..], states[1..]);
    }
  }

  /** The event that the worker sets for Reset ends the wait of EndFlush: the list is as it was. */
  lemma ResetOvertakes(q: Queue) returns (mid: seq<Act>)
    requires Sound(q) && Enabled(q, BeginFlush) && !Shortcut(q) && Ends(q.worker, ResetPacket)
    ensures FlushOver(After(q, BeginFlush), mid)
    ensures var s := Run(After(q, BeginFlush), mid); Sound(s) && Undisturbed(s) && s.list == q.list
  {
    hide Sound, Run, Legal, After, Enabled;
    var b, w := FlushBegins(q);
    StepKeeps(q, BeginFlush);
    StepKeeps(b, EndFlush);
    var toSignal := Signals(w);
    var r := Run(w, toSignal);
    var s := FlushEnds(r);
    var last := [FlushWaited, ClearFlushing, MarkFlushed, ClearHr];
    RunKeeps(r, last);
    RunAppends(w, toSignal, last);
    Prefixed(b, EndFlush, toSignal + last);
    mid := [EndFlush] + (toSignal + last);
  }

  lemma FlushBegins(q: Queue) returns (b: Queue, w: Queue)
    requires Enabled(q, BeginFlush) && !Shortcut(q)
    ensures b == After(q, BeginFlush) && Enabled(b, EndFlush) && w == After(b, EndFlush)
    ensures w.flusher == AwaitsWorker && w.worker == q.worker && w.list == q.list && !w.terminate
  {
    b := After(q, BeginFlush);
    w := After(b, EndFlush);
  }

  /** From a state that is not disturbed everything pending can be passed on. */
  lemma Surfaces(s: Queue, e: Entry, cut: nat, kinds: set<Kind>) returns (rest: seq<Act>)
    requires Sound(s) && Undisturbed(s) && e in Pending(s) && e.kind in kinds && kinds <= PASSED && e.stamp < cut
    ensures Legal(s, rest) && !Late(PassedIn(s, rest), cut, kinds)
  {
    hide Sound, Undisturbed, Pending, PassedIn, Legal;
    rest := Drains(s);
  }

  lemma NotGuaranteed(q: Queue, kinds: set<Kind>)
    requires Sound(q) && Enabled(q, BeginFlush) && kinds <= PASSED && !FlushWorks(q, kinds)
    ensures !Guaranteed(q, kinds)
  {
    hide Sound, Run, Legal, After, Undisturbed, Late, Enabled;
    PendingIsOld(q);
    var mid, e;
    if Shortcut(q) {
      mid := ShortcutLeaves(q);
      e :| e in Pending(q) && e.kind in kinds;
    } else {
      mid := ResetOvertakes(q);
      e :| e in q.list && e.kind in kinds;
    }
    var rest := Surfaces(Run(After(q, BeginFlush), mid), e, q.next, kinds);
  }

  /** In every reachable state and for any of the kinds that the pin gets: the flush guarantee holds
      if and only if the flush does its work. Calls of Reset, before, during and after the flush, do
      not matter otherwise. */
  lemma FlushGuaranteeIff(q: Queue, kinds: set<Kind>)
    requires Reached(q) && Enabled(q, BeginFlush) && kinds <= PASSED
    ensures Guaranteed(q, kinds) <==> FlushWorks(q, kinds)
  {
    hide Sound, Run, Legal, Guaranteed, FlushWorks, Enabled, Reached;
    ReachedIsSound(q);
    if FlushWorks(q, kinds) {
      FlushGuarantee(q, kinds);
    } else {
      NotGuaranteed(q, kinds);
    }
  }

  // ----- A Reset that overlaps -----

  /** For example: the worker has taken a ResetPacket off the queue and a sample stands in the list
      when the flush begins. The guarantee does not hold even for samples. */
  lemma ResetInFlight(q: Queue)
    requires Initial(q) && q.config == Config(1, false, false)
    ensures var before := [Reset, Work(0), Receive(1)];
      && Legal(q, before) && Enabled(Run(q, before), BeginFlush)
      && !Guaranteed(Run(q, before), DATA)
  {
    hide Guaranteed;
    var r := SampleBehindReset(q);
    assert Reached(r);
    FlushGuaranteeIff(r, DATA);
    assert Entry(Sample, 1) in r.list;
  }

  lemma SampleBehindReset(q: Queue) returns (r: Queue)
    requires Initial(q) && q.config == Config(1, false, false)
    ensures var before := [Reset, Work(0), Receive(1)]; Legal(q, before) && r == Run(q, before)
    ensures r.worker == Busy(ToPacket, [], Some(Entry(ResetPacket, 0))) && r.list == [Entry(Sample, 1)]
    ensures !Shortcut(r) && Enabled(r, BeginFlush)
  {
    hide Run, Legal, Samples;
    var reset := Entry(ResetPacket, 0);
    var q1 := After(q, Reset);
    assert q1.list == [reset];
    var q2 := After(q1, Work(0));
    assert q2 == q1.(worker := Busy(ToPacket, [], Some(reset)), list := []);
    r := After(q2, Receive(1));
    assert r.list == [Entry(Sample, 1)];
    Trace([Reset, Work(0), Receive(1)], [q, q1, q2, r]);
  }
}
