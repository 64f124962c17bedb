/** What the worker does when it is left alone: it comes to rest, and if somebody calls SendAnyway
    first it has passed on everything. */
module QueueRest {
  import opened QueueSteps
  import opened QueueInvariants
  import opened QueueGuarantees
  import opened QueueDelivery
  import opened Wrappers

  predicate Asleep(q: Queue) {
    q.worker == Waiting && q.semaphore == 0
  }

  /** The worker's next step, with a pin that accepts. */
  function NextStep(q: Queue): Act {
    if q.worker == Waiting then Wake else Work(S_OK)
  }

  /** How far the worker is from its wait, within one turn. */
  function Distance(q: Queue): nat {
    if Asleep(q) then 0 else StepsLeft(q.worker)
  }

  predicate OnlyWorker(acts: seq<Act>) {
    forall i :: 0 <= i < |acts| ==> acts[i] == Wake || acts[i] == Work(S_OK)
  }

  lemma {:induction false} GatherShrinks(config: Config, batch: seq<Entry>, list: seq<Entry>)
    ensures var g := Gather(config, batch, list);
      |g.list| <= |list| && (!g.wait ==> |g.list| < |batch| + |list|)
    decreases |list|
  {
    if list != [] {
      if list[0].kind == Sample {
        GatherShrinks(config, batch + [list[0]], list[1..]);
      } else {
        GatherShrinks(config, batch, list[1..]);
      }
    }
  }

  lemma LoopComesCloser(q: Queue)
    requires Sound(q) && !q.terminate && q.worker == AtLoop
    ensures var r := AfterLoop(q);
      !r.terminate && (Asleep(r) || |r.batch| + |r.list| < |q.batch| + |q.list|)
  {
    hide Gather, Samples, Order, Owned, Shape;
    var f := if q.flushing then Freed(q) else q;
    GatherShrinks(q.config, f.batch, f.list);
    GatherWaits(q.config, f.batch, f.list);
  }

  lemma BusyComesCloser(q: Queue)
    requires q.worker.Busy?
    ensures var r := AfterBusy(q, S_OK);
      && r.terminate == q.terminate && r.batch == q.batch && r.list == q.list
      && !Asleep(r) && Distance(r) < Distance(q)
  {
    hide Samples, Onward, PassedOn, LetGo, HrAfter;
    OnwardLeft(q.worker, q.hr, S_OK);
    assert Onward(q.worker, q.hr, S_OK) != Waiting by { NotToWait(q.worker, q.hr); }
  }

  lemma NotToWait(w: Worker, hr: int)
    requires w.Busy?
    ensures Onward(w, hr, S_OK) != Waiting
  {
  }

  lemma ComesCloser(q: Queue)
    requires Sound(q) && !q.terminate && !Asleep(q)
    ensures Enabled(q, NextStep(q))
    ensures var r := After(q, NextStep(q));
      && !r.terminate && Sound(r)
      && (|r.batch| + |r.list| < |q.batch| + |q.list|
          || (|r.batch| + |r.list| == |q.batch| + |q.list| && Distance(r) < Distance(q)) || Asleep(r))
  {
    hide Sound, AfterLoop, AfterBusy, StepsLeft;
    AwakeCanGo(q);
    StepKeeps(q, NextStep(q));
    if q.worker == AtLoop {
      LoopComesCloser(q);
    } else if q.worker.Busy? {
      BusyComesCloser(q);
    } else {
      assert StepsLeft(AtLoop) < StepsLeft(Waiting) by { WakingIsCloser(); }
    }
  }

  lemma WakingIsCloser()
    ensures StepsLeft(AtLoop) < StepsLeft(Waiting)
  {
  }

  lemma AwakeCanGo(q: Queue)
    requires Sound(q) && !q.terminate && !Asleep(q)
    ensures Enabled(q, NextStep(q))
  {
  }

  /** Left alone, the worker comes to its wait. */
  lemma {:induction false} Settles(q: Queue) returns (acts: seq<Act>)
    requires Sound(q) && !q.terminate
    ensures Legal(q, acts) && OnlyWorker(acts) && Asleep(Run(q, acts)) && Sound(Run(q, acts))
    decreases !Asleep(q), |q.batch| + |q.list|, Distance(q)
  {
    hide Sound, After, Distance, Enabled, Asleep;
    acts := [];
    if !Asleep(q) {
      ComesCloser(q);
      var a := NextStep(q);
      var rest := Settles(After(q, a));
      acts := [a] + rest;
      assert acts[1..] == rest;
    }
  }

  // ----- With a SendPacket at the end -----

  /** The last thing in the list is a SendPacket, or there is nothing at all. */
  predicate Tidy(batch: seq<Entry>, list: seq<Entry>) {
    if list == [] then batch == [] else list[|list| - 1].kind == SendPacket
  }

  lemma {:induction false} GatherKeepsTidy(config: Config, batch: seq<Entry>, list: seq<Entry>)
    requires Framed(list) && Tidy(batch, list)
    ensures var g := Gather(config, batch, list);
      Tidy(if g.wait then g.batch else [], g.list)
    decreases |list|
  {
    if list == [] {
    } else if list[0].kind == Sample {
      var more := batch + [list[0]];
      assert list[1..] != [] && list[1..][|list| - 2] == list[|list| - 1];
      if |more| != config.batchSize {
        GatherKeepsTidy(config, more, list[1..]);
      }
    } else if list[0].kind == SendPacket && batch == [] {
      GatherKeepsTidy(config, batch, list[1..]);
    }
  }

  predicate TidyQueue(q: Queue) {
    Tidy(q.batch, q.list)
  }

  lemma StepKeepsTidy(q: Queue, a: Act)
    requires Sound(q) && TidyQueue(q) && !q.flushing && !q.terminate
    requires Enabled(q, a) && (a == Wake || a == Work(S_OK))
    ensures TidyQueue(After(q, a)) && !After(q, a).flushing && !After(q, a).terminate
  {
    hide Samples, Gather, Framed, Order, Owned, Wakeup, Onward, PassedOn, LetGo, HrAfter, OnlySamples, WorkerShape;
    if a.Work? && q.worker == AtLoop {
      GatherKeepsTidy(q.config, q.batch, q.list);
    }
  }

  lemma {:induction false} RunKeepsTidy(q: Queue, acts: seq<Act>)
    requires Sound(q) && TidyQueue(q) && !q.flushing && !q.terminate && Legal(q, acts) && OnlyWorker(acts)
    ensures TidyQueue(Run(q, acts))
    decreases acts
  {
    hide Sound, After, TidyQueue;
    if acts != [] {
      StepKeepsTidy(q, acts[0]);
      StepKeeps(q, acts[0]);
      RunKeepsTidy(After(q, acts[0]), acts[1..]);
    }
  }

  lemma AsleepAndTidy(q: Queue)
    requires Sound(q) && Asleep(q) && TidyQueue(q)
    ensures Pending(q) == []
  {
    hide Order, Owned;
  }

  /** What the run of acts passes on. */
  function PassedIn(q: Queue, acts: seq<Act>): seq<Entry>
    requires Legal(q, acts)
  {
    RunPending(q, acts);
    Run(q, acts).delivered[|q.delivered|..]
  }

  /** SendAnyway, and then the worker alone: all that was pending for the pin is passed on. */
  lemma Drains(q: Queue) returns (acts: seq<Act>)
    requires Sound(q) && Undisturbed(q)
    ensures Legal(q, acts)
    ensures forall i :: 0 <= i < |acts| ==> acts[i] == SendAnyway || acts[i] == Wake || acts[i] == Work(S_OK)
    ensures forall e :: e in Pending(q) && e.kind in PASSED ==> e in PassedIn(q, acts)
  {
    hide Sound, Run, Legal, Asleep, OnlyWorker, Pending, TidyQueue, Undisturbed;
    assert !q.terminate && !q.flushing by { Untroubled(q); }
    SendsTidy(q);
    var s := After(q, SendAnyway);
    StepKeeps(q, SendAnyway);
    var rest := Settles(s);
    RunKeepsTidy(s, rest);
    AsleepAndTidy(Run(s, rest));
    acts := [SendAnyway] + rest;
    Prefixed(q, SendAnyway, rest);
    CalmWork(rest);
    RunPassesAll(q, acts);
    AllPassed(q, acts);
  }

  lemma Untroubled(q: Queue)
    requires Undisturbed(q)
    ensures !q.terminate && !q.flushing && q.hr == S_OK
  {
  }

  lemma SendsTidy(q: Queue)
    requires !q.terminate && !q.flushing
    ensures var s := After(q, SendAnyway); TidyQueue(s) && !s.flushing && !s.terminate
  {
  }

  lemma Prefixed(q: Queue, a: Act, rest: seq<Act>)
    requires Enabled(q, a) && Legal(After(q, a), rest)
    ensures Legal(q, [a] + rest) && Run(q, [a] + rest) == Run(After(q, a), rest)
  {
    hide After;
    assert ([a] + rest)[1..] == rest;
  }

  lemma JustOne(q: Queue, a: Act)
    requires Enabled(q, a)
    ensures Legal(q, [a]) && Run(q, [a]) == After(q, a)
  {
    hide After;
    assert [a][1..] == [];
    assert Run(After(q, a), []) == After(q, a);
  }

  lemma CalmWork(rest: seq<Act>)
    requires OnlyWorker(rest)
    ensures forall i :: 0 <= i < |[SendAnyway] + rest| ==>
      ([SendAnyway] + rest)[i] == SendAnyway || ([SendAnyway] + rest)[i] == Wake
      || ([SendAnyway] + rest)[i] == Work(S_OK)
    ensures forall i :: 0 <= i < |[SendAnyway] + rest| ==> Calm(([SendAnyway] + rest)[i])
  {
  }

  lemma {:induction false} InPassing(s: seq<Entry>, e: Entry)
    ensures e in Passing(s) <==> e in s && e.kind in PASSED
    decreases |s|
  {
    if s != [] {
      assert s == [s[0]] + s[1..];
      InPassing(s[1..], e);
    }
  }

  lemma AllPassed(q: Queue, acts: seq<Act>)
    requires Legal(q, acts) && Pending(Run(q, acts)) == []
    requires Passing(Stream(Run(q, acts))) == Passing(Stream(q)) + Passing(Arrivals(q, acts))
    ensures forall e :: e in Pending(q) && e.kind in PASSED ==> e in PassedIn(q, acts)
  {
    hide Passing, Run, Legal, Arrivals, Pending;
    RunPending(q, acts);
    var r, t := Run(q, acts), PassedIn(q, acts);
    assert r.delivered == q.delivered + t;
    assert Stream(r) == q.delivered + t by { StreamIs(r); }
    assert Stream(q) == q.delivered + Pending(q) by { StreamIs(q); }
    PassingAppend(q.delivered, t);
    PassingAppend(q.delivered, Pending(q));
    Cancel(Passing(q.delivered), Passing(t), Passing(Pending(q)), Passing(Arrivals(q, acts)));
    forall e | e in Pending(q) && e.kind in PASSED
      ensures e in t
    {
      InPassing(Pending(q), e);
      InPassing(t, e);
    }
  }

  lemma StreamIs(q: Queue)
    ensures Stream(q) == q.delivered + Pending(q)
  {
  }

  lemma Cancel(a: seq<Entry>, b: seq<Entry>, c: seq<Entry>, d: seq<Entry>)
    requires a + b == a + c + d
    ensures b == c + d
  {
    assert (a + b)[|a|..] == b;
    assert (a + c + d)[|a|..] == c + d;
  }
}
