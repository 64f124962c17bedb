/** What the queue passes on: everything, as long as the pin accepts it and nobody flushes; and no
    more data once the pin has refused some. */
module QueueDelivery {
  import opened QueueSteps
  import opened QueueInvariants
  import opened QueueGuarantees
  import opened Wrappers

  /** The entries that are meant for the pin. */
  function Passing(s: seq<Entry>): seq<Entry> {
    if s == [] then [] else (if s[0].kind in PASSED then [s[0]] else []) + Passing(s[1..])
  }

  /** No flush, no destruction, and a pin that accepts what it gets. */
  predicate Calm(a: Act) {
    match a
    case BeginFlush => false
    case Terminate => false
    case Work(answer) => answer == S_OK
    case _ => true
  }

  predicate Undisturbed(q: Queue) {
    && q.hr == S_OK && !q.flushing && !q.terminate && q.flusher == NoFlush
    && (q.worker.Busy? && q.worker.stage.ToUpdate? ==> q.worker.stage.answer == S_OK)
  }

  lemma PassingFirst(s: seq<Entry>)
    requires s != []
    ensures Passing(s) == Passing([s[0]]) + Passing(s[1..])
    ensures Passing([s[0]]) == if s[0].kind in PASSED then [s[0]] else []
  {
    assert [s[0]][1..] == [];
  }

  lemma {:induction false} PassingAppend(s: seq<Entry>, t: seq<Entry>)
    ensures Passing(s + t) == Passing(s) + Passing(t)
    decreases |s|
  {
    hide Passing;
    if s == [] {
      NonePassing();
      assert s + t == t;
    } else {
      PassingFirst(s);
      PassingFirst(s + t);
      assert (s + t)[1..] == s[1..] + t;
      PassingAppend(s[1..], t);
      Associative(Passing([s[0]]), Passing(s[1..]), Passing(t));
    }
  }

  lemma {:induction false} GatherPasses(config: Config, batch: seq<Entry>, list: seq<Entry>)
    requires Framed(list)
    ensures var g := Gather(config, batch, list);
      Passing(g.batch) + (Passing(Lone(g.packet)) + Passing(g.list)) == Passing(batch) + Passing(list)
    decreases |list|
  {
    hide Passing;
    NonePassing();
    if list != [] {
      PassingFirst(list);
      var g := Gather(config, batch, list);
      if list[0].kind == Sample {
        var more := batch + [list[0]];
        PassingAppend(batch, [list[0]]);
        assert Passing(more) + Passing(list[1..]) == Passing(batch) + Passing(list);
        if |more| != config.batchSize {
          GatherPasses(config, more, list[1..]);
        }
      } else if list[0].kind == SendPacket && batch == [] {
        GatherPasses(config, batch, list[1..]);
      } else if list[0].kind == NewSegment {
        PassingFirst(list[1..]);
        assert list[1..][1..] == list[2..];
      }
    }
  }

  lemma LonePasses(p: Option<Entry>)
    ensures Passing(Lone(p)) == if p.Some? && p.value.kind in PASSED then [p.value] else []
  {
  }

  /** Of what the worker has in hand it drops only what is not for the pin. */
  lemma HandPasses(w: Worker, config: Config)
    requires w.Busy? && WorkerShape(config, w)
    ensures Passing(InHand(w)) == Passing(PassedOn(w)) + Passing(InHand(Onward(w, S_OK, S_OK)))
  {
    hide Passing, OnlySamples;
    NonePassing();
    PassingAppend(w.sending, Lone(w.packet));
    LonePasses(w.packet);
    if w.packet.Some? {
      LonePasses(Some(w.packet.value));
    }
  }

  lemma StreamPasses(q: Queue)
    ensures Passing(Stream(q))
      == Passing(q.delivered) + (Passing(InHand(q.worker)) + (Passing(q.batch) + Passing(q.list)))
  {
    hide Passing, InHand;
    PassingAppend(q.delivered, InHand(q.worker) + (q.batch + q.list));
    PassingAppend(InHand(q.worker), q.batch + q.list);
    PassingAppend(q.batch, q.list);
  }

  lemma LoopPasses(q: Queue)
    requires Undisturbed(q) && Shape(q) && q.worker == AtLoop
    ensures Passing(Stream(AfterLoop(q))) == Passing(Stream(q)) && Undisturbed(AfterLoop(q))
  {
    hide Gather, Samples, Framed, Stream, OnlySamples, WorkerShape, Passing;
    GatherPasses(q.config, q.batch, q.list);
    GatherWaits(q.config, q.batch, q.list);
    var g, r := Gather(q.config, q.batch, q.list), AfterLoop(q);
    StreamPasses(q);
    StreamPasses(r);
    PassingAppend(g.batch, Lone(g.packet));
    NonePassing();
    Associative(Passing(g.batch), Passing(Lone(g.packet)), Passing(g.list));
    if !g.wait {
      assert InHand(r.worker) == g.batch + Lone(g.packet);
    }
  }

  lemma BusyPasses(q: Queue)
    requires Undisturbed(q) && Shape(q) && q.worker.Busy?
    ensures Passing(Stream(AfterBusy(q, S_OK))) == Passing(Stream(q)) && Undisturbed(AfterBusy(q, S_OK))
  {
    hide Samples, Framed, Stream, OnlySamples, WorkerShape, InHand, Passing, PassedOn, LetGo;
    StreamPasses(q);
    StreamPasses(AfterBusy(q, S_OK));
    HandPasses(q.worker, q.config);
    PassingAppend(q.delivered, PassedOn(q.worker));
  }

  lemma QueuedPasses(q: Queue, kinds: seq<Kind>)
    ensures Stream(Queued(q, kinds)) == Stream(q) + Stamped(kinds, q.next)
  {
    hide Stamped;
    assert q.batch + Queued(q, kinds).list == (q.batch + q.list) + Stamped(kinds, q.next);
  }

  lemma StepPassesAll(q: Queue, a: Act)
    requires Undisturbed(q) && Shape(q) && Enabled(q, a) && Calm(a)
    ensures Undisturbed(After(q, a))
    ensures Passing(Stream(After(q, a))) == Passing(Stream(q)) + Passing(Arrived(q, a))
  {
    hide Samples, Passing, AfterLoop, AfterBusy, Stamped, Shape;
    assert Passing([]) == [] by { NonePassing(); }
    PassingAppend(Stream(q), Arrived(q, a));
    match a
    case Receive(n) => QueuedPasses(q, AllSamples(n));
    case SendAnyway => QueuedPasses(q, [SendPacket]);
    case EOS => QueuedPasses(q, [EosPacket]);
    case QueueNewSegment => QueuedPasses(q, [NewSegment, Parameters]);
    case Reset => QueuedPasses(q, [ResetPacket]);
    case Work(_) =>
      if q.worker == AtLoop {
        LoopPasses(q);
      } else {
        BusyPasses(q);
      }
    case _ =>
  }

  lemma NonePassing()
    ensures Passing([]) == []
  {
  }

  lemma {:induction false} RunPassesAll(q: Queue, acts: seq<Act>)
    requires Undisturbed(q) && Sound(q) && Legal(q, acts) && forall i :: 0 <= i < |acts| ==> Calm(acts[i])
    ensures Undisturbed(Run(q, acts))
    ensures Passing(Stream(Run(q, acts))) == Passing(Stream(q)) + Passing(Arrivals(q, acts))
    decreases acts
  {
    hide After, Undisturbed, Passing, Arrived, Stream, Order, Shape, Owned, Wakeup;
    if acts == [] {
      NonePassing();
    } else {
      var r := After(q, acts[0]);
      StepPassesAll(q, acts[0]);
      StepKeeps(q, acts[0]);
      RunPassesAll(r, acts[1..]);
      PassingAppend(Arrived(q, acts[0]), Arrivals(r, acts[1..]));
    }
  }

  // ----- Only what is for the pin -----

  predicate OnlyPassing(s: seq<Entry>) {
    forall i :: 0 <= i < |s| ==> s[i].kind in PASSED
  }

  lemma PassedIsPassing(w: Worker, config: Config)
    requires WorkerShape(config, w)
    ensures OnlyPassing(PassedOn(w))
  {
  }

  lemma StepDeliversPassing(q: Queue, a: Act)
    requires OnlyPassing(q.delivered) && Shape(q) && Enabled(q, a)
    ensures OnlyPassing(After(q, a).delivered)
  {
    hide Samples, AfterLoop, Stamped, PassedOn, WorkerShape, Framed, OnlySamples;
    if a.Work? && q.worker == AtLoop {
      LoopPending(q);
    } else if a.Work? {
      PassedIsPassing(q.worker, q.config);
    }
  }

  lemma {:induction false} RunDeliversPassing(q: Queue, acts: seq<Act>)
    requires OnlyPassing(q.delivered) && Sound(q) && Legal(q, acts)
    ensures OnlyPassing(Run(q, acts).delivered)
    decreases acts
  {
    hide After, OnlyPassing, Order, Shape, Owned, Wakeup;
    if acts != [] {
      StepDeliversPassing(q, acts[0]);
      StepKeeps(q, acts[0]);
      RunDeliversPassing(After(q, acts[0]), acts[1..]);
    }
  }

  lemma {:induction false} PassingOfPassing(s: seq<Entry>)
    requires OnlyPassing(s)
    ensures Passing(s) == s
    decreases |s|
  {
    if s != [] {
      PassingOfPassing(s[1..]);
    }
  }

  // ----- What the users can rely on -----

  /** Nothing is lost: what has been passed on, followed by what is still pending, is all that was
      queued for the pin, in the order of the queueing; and when the queue is idle all of it has
      been passed on. */
  lemma NothingLost(q: Queue, acts: seq<Act>)
    requires Initial(q) && Legal(q, acts) && forall i :: 0 <= i < |acts| ==> Calm(acts[i])
    ensures var r := Run(q, acts);
      && r.delivered + Passing(Pending(r)) == Passing(Arrivals(q, acts))
      && (TrulyIdle(r) ==> r.delivered == Passing(Arrivals(q, acts)))
  {
    hide Run, Legal, Order, Shape, Owned, Wakeup, Arrivals;
    InitialSound(q);
    RunPassesAll(q, acts);
    RunDeliversPassing(q, acts);
    var r := Run(q, acts);
    PassingOfPassing(r.delivered);
    PassingAppend(r.delivered, Pending(r));
  }

  // ----- Refusal -----

  /** A ResetPacket is in the list, or the worker is about to act on one. */
  predicate ResetPending(q: Queue) {
    !Free(Pending(q), {ResetPacket}) || (q.worker.Busy? && q.worker.stage == ToSignal)
  }

  lemma StaysResetless(q: Queue, a: Act)
    requires !ResetPending(q) && Enabled(q, a) && !a.Reset?
    ensures !ResetPending(After(q, a))
  {
    hide Samples, AfterLoop, Pending, Stamped;
    StepPending(q, a);
    assert Free(Arrived(q, a), {ResetPacket}) by { ResetlessArrival(q, a); }
    if a.Work? && q.worker.Busy? {
      if q.worker.packet.Some? {
        PacketIsPending(q);
      }
    } else if a.Work? {
      LoopStage(q);
    }
  }

  lemma ResetlessArrival(q: Queue, a: Act)
    requires !a.Reset?
    ensures Free(Arrived(q, a), {ResetPacket})
  {
  }

  lemma PacketIsPending(q: Queue)
    requires q.worker.Busy? && q.worker.packet.Some?
    ensures q.worker.stage != ToSignal ==> q.worker.packet.value in Pending(q)
  {
  }

  lemma LoopStage(q: Queue)
    ensures AfterLoop(q).worker.Busy? ==> AfterLoop(q).worker.stage in {ToCheck, ToPacket}
  {
    hide Samples, Gather;
  }

  lemma ResetlessHand(q: Queue)
    requires q.worker.Busy? && !ResetPending(q)
    ensures !Ends(q.worker, ResetPacket)
  {
    if q.worker.packet.Some? {
      PacketIsPending(q);
    }
  }

  /** The pin has refused something, or a flush has begun, and the worker has not already decided to
      pass data on. */
  predicate Hushed(q: Queue) {
    && q.hr != S_OK && !ResetPending(q)
    && !(q.worker.Busy? && (q.worker.stage == ToCall || q.worker.stage == ToEndOfStream))
  }

  /** Not a Reset, and not the end of a flush. */
  predicate KeepsHr(a: Act) {
    !a.Reset? && !a.EndFlush? && !a.ClearHr?
  }

  lemma StaysHushed(q: Queue, a: Act)
    requires Hushed(q) && Enabled(q, a) && KeepsHr(a)
    ensures Hushed(After(q, a))
    ensures Free(After(q, a).delivered[|q.delivered|..], DATA)
  {
    hide Samples, AfterLoop, Stamped, ResetPending, Free;
    StaysResetless(q, a);
    StepPasses(q, a);
    NoneFree();
    assert q.delivered[|q.delivered|..] == [];
    if a.Work? && q.worker.Busy? {
      hide PassedOn;
      ResetlessHand(q);
      HushedPasses(q.worker);
      Suffix(q.delivered, PassedOn(q.worker));
    } else if a.Work? {
      LoopPending(q);
      LoopStage(q);
      LoopHr(q);
    }
  }

  lemma NoneFree()
    ensures Free([], DATA)
  {
  }

  lemma LoopHr(q: Queue)
    ensures AfterLoop(q).hr == q.hr
  {
    hide Samples, Gather;
  }

  lemma HushedPasses(w: Worker)
    requires w.Busy? && w.stage != ToCall && w.stage != ToEndOfStream
    ensures Free(PassedOn(w), DATA)
  {
  }

  /** A refusal sticks: until a Reset or the end of a flush no sample and no end of stream is passed
      on, whatever is queued. */
  lemma {:induction false} RefusalSticks(q: Queue, acts: seq<Act>)
    requires Hushed(q) && Legal(q, acts) && forall i :: 0 <= i < |acts| ==> KeepsHr(acts[i])
    ensures var r := Run(q, acts);
      && Hushed(r) && q.delivered <= r.delivered
      && Free(r.delivered[|q.delivered|..], DATA)
    decreases acts
  {
    hide After, Hushed;
    if acts != [] {
      var r := After(q, acts[0]);
      StaysHushed(q, acts[0]);
      StepPasses(q, acts[0]);
      RefusalSticks(r, acts[1..]);
      var end := Run(q, acts);
      assert end.delivered[|q.delivered|..] == r.delivered[|q.delivered|..] + end.delivered[|r.delivered|..];
    }
  }
}
