/** What every step of the queue keeps: the arrival order, the ownership of the samples, the shape
    of what is stored, and the wake-ups of the worker. */
module QueueInvariants {
  import opened QueueSteps
  import opened Wrappers

  // ----- Order -----

  predicate Increasing(s: seq<Entry>) {
    forall i, j :: 0 <= i < j < |s| ==> s[i].stamp < s[j].stamp
  }

  predicate Below(s: seq<Entry>, n: nat) {
    forall i :: 0 <= i < |s| ==> s[i].stamp < n
  }

  predicate Ordered(s: seq<Entry>, n: nat) {
    Increasing(s) && Below(s, n)
  }

  function Lone(p: Option<Entry>): seq<Entry> {
    if p.Some? then [p.value] else []
  }

  /** What the worker has taken off the queue and could still pass on. */
  function InHand(w: Worker): seq<Entry> {
    match w
    case Busy(ToCheck, sending, packet) => sending + Lone(packet)
    case Busy(ToCall, sending, packet) => sending + Lone(packet)
    case Busy(ToSignal, _, _) => []
    case Busy(_, _, packet) => Lone(packet)
    case _ => []
  }

  /** Everything that has been or may yet be passed on, in the order in which that happens. */
  function Stream(q: Queue): seq<Entry> {
    q.delivered + (InHand(q.worker) + (q.batch + q.list))
  }

  predicate Order(q: Queue) {
    Ordered(Stream(q), q.next)
  }

  lemma DropMiddle(a: seq<Entry>, b: seq<Entry>, c: seq<Entry>, n: nat)
    requires Ordered(a + (b + c), n)
    ensures Ordered(a + c, n)
  {
    var s, t := a + (b + c), a + c;
    assert forall i :: 0 <= i < |a| ==> s[i] == t[i];
    assert forall i :: |a| <= i < |t| ==> t[i] == s[i + |b|];
  }

  lemma Extend(s: seq<Entry>, n: nat, kinds: seq<Kind>)
    requires Ordered(s, n)
    ensures Ordered(s + Stamped(kinds, n), n + |kinds|)
  {
    var t := s + Stamped(kinds, n);
    assert forall i :: 0 <= i < |s| ==> t[i] == s[i];
    assert forall i :: |s| <= i < |t| ==> t[i].stamp == n + (i - |s|);
  }

  lemma {:induction false} GatherOrder(pre: seq<Entry>, config: Config, batch: seq<Entry>, list: seq<Entry>, n: nat)
    requires Ordered(pre + (batch + list), n)
    ensures var g := Gather(config, batch, list);
      Ordered(pre + (g.batch + (Lone(g.packet) + g.list)), n)
    decreases |list|
  {
    hide Ordered;
    var g := Gather(config, batch, list);
    if list == [] {
      assert Lone(g.packet) + g.list == list;
    } else if list[0].kind == Sample {
      var more := batch + [list[0]];
      assert batch + list == more + list[1..];
      if |more| == config.batchSize {
        assert Lone(g.packet) + g.list == list[1..];
      } else {
        GatherOrder(pre, config, more, list[1..], n);
      }
    } else if list[0].kind == SendPacket && batch == [] {
      assert batch + list == [list[0]] + list[1..];
      assert batch + list[1..] == list[1..];
      DropMiddle(pre, [list[0]], list[1..], n);
      GatherOrder(pre, config, batch, list[1..], n);
    } else if list[0].kind == NewSegment && |list| > 1 {
      var front := pre + (batch + [list[0]]);
      assert pre + (batch + list) == front + ([list[1]] + list[2..]);
      DropMiddle(front, [list[1]], list[2..], n);
      assert front + list[2..] == pre + (g.batch + (Lone(g.packet) + g.list));
    } else {
      assert Lone(g.packet) + g.list == list;
    }
  }

  lemma QueuedOrder(q: Queue, kinds: seq<Kind>)
    requires Order(q)
    ensures Order(Queued(q, kinds))
  {
    hide Ordered;
    Extend(Stream(q), q.next, kinds);
    var r := Queued(q, kinds);
    assert q.batch + r.list == (q.batch + q.list) + Stamped(kinds, q.next);
    assert Stream(r) == Stream(q) + Stamped(kinds, q.next);
  }

  lemma LoopOrder(q: Queue)
    requires Order(q) && q.worker == AtLoop
    ensures Order(AfterLoop(q))
  {
    hide Ordered, Taken, Samples, Freed;
    FreedOrder(q);
    var f := if q.flushing then Freed(q).(flushComplete := true) else q;
    if !q.terminate {
      GatheredOrder(f);
    }
  }

  lemma FreedOrder(q: Queue)
    requires Order(q) && q.worker == AtLoop
    ensures Order(Freed(q)) && Freed(q).worker == AtLoop && !Freed(q).terminate == !q.terminate
    ensures Freed(q).config == q.config && Order(Freed(q).(worker := Ended))
  {
    hide Ordered, Samples;
    assert Stream(q) == q.delivered + ((q.batch + q.list) + []);
    DropMiddle(q.delivered, q.batch + q.list, [], q.next);
    assert Stream(Freed(q)) == q.delivered + [];
  }

  lemma GatheredOrder(f: Queue)
    requires Order(f) && f.worker == AtLoop
    ensures Order(Taken(f))
  {
    hide Ordered, Gather;
    var g := Gather(f.config, f.batch, f.list);
    assert [] + (f.batch + f.list) == f.batch + f.list;
    GatherOrder(f.delivered, f.config, f.batch, f.list, f.next);
    GatherWaits(f.config, f.batch, f.list);
    assert (g.batch + Lone(g.packet)) + ([] + g.list) == g.batch + (Lone(g.packet) + g.list);
    if g.batch == [] {
      assert g.batch + (Lone(g.packet) + g.list) == Lone(g.packet) + ([] + g.list);
    }
    if g.wait {
      assert g.batch + (Lone(g.packet) + g.list) == [] + (g.batch + g.list);
    }
  }

  lemma {:induction false} GatherWaits(config: Config, batch: seq<Entry>, list: seq<Entry>)
    ensures var g := Gather(config, batch, list);
      && (g.wait ==> g.list == [] && g.packet == None && (config.exact || g.batch == []))
      && (!g.wait && g.packet == None ==> g.batch != [])
    decreases |list|
  {
    if list == [] {
    } else if list[0].kind == Sample {
      GatherWaits(config, batch + [list[0]], list[1..]);
    } else {
      GatherWaits(config, batch, list[1..]);
    }
  }

  lemma Associative(a: seq<Entry>, b: seq<Entry>, c: seq<Entry>)
    ensures a + (b + c) == (a + b) + c
  {
  }

  /** A step of the worker passes on the front of what it has in hand, or drops some of it. */
  lemma HandAfter(w: Worker, hr: int, answer: int) returns (dropped: seq<Entry>)
    requires w.Busy?
    ensures InHand(w) == (PassedOn(w) + dropped) + InHand(Onward(w, hr, answer))
  {
    dropped := if w.stage == ToCheck && hr != S_OK then w.sending
               else if w.stage == ToPacket && Onward(w, hr, answer).Busy? && Onward(w, hr, answer).stage == ToSignal
               then Lone(w.packet)
               else if w.stage == ToPacket && Onward(w, hr, answer) == AtLoop && PassedOn(w) == [] then Lone(w.packet)
               else [];
  }

  lemma BusyOrder(q: Queue, answer: int)
    requires Order(q) && q.worker.Busy?
    ensures Order(AfterBusy(q, answer))
  {
    hide Ordered, Onward, PassedOn, InHand, Samples;
    var dropped := HandAfter(q.worker, q.hr, answer);
    var p, h, rest := PassedOn(q.worker), InHand(Onward(q.worker, q.hr, answer)), q.batch + q.list;
    Associative(p + dropped, h, rest);
    Associative(p, dropped, h + rest);
    Associative(q.delivered, p, dropped + (h + rest));
    DropMiddle(q.delivered + p, dropped, h + rest, q.next);
  }

  lemma StepKeepsOrder(q: Queue, a: Act)
    requires Order(q) && Enabled(q, a)
    ensures Order(After(q, a))
  {
    hide Ordered, AfterLoop, Samples, Queued;
    match a
    case Receive(n) => ReceiveOrder(q, n);
    case SendAnyway => QueuedOrder(q, [SendPacket]);
    case EOS => QueuedOrder(q, [EosPacket]);
    case QueueNewSegment => QueuedOrder(q, [NewSegment, Parameters]);
    case Reset => QueuedOrder(q, [ResetPacket]);
    case Work(answer) =>
      if q.worker == AtLoop {
        LoopOrder(q);
      } else {
        BusyOrder(q, answer);
      }
    case _ =>
  }

  lemma ReceiveOrder(q: Queue, n: nat)
    requires Order(q)
    ensures Order(AfterReceive(q, n))
  {
    hide Ordered, Samples, Stamped;
    MoreRoom(Stream(q), q.next, n);
    QueuedOrder(q, AllSamples(n));
  }

  lemma MoreRoom(s: seq<Entry>, n: nat, more: nat)
    requires Ordered(s, n)
    ensures Ordered(s, n + more)
  {
  }

  // ----- Shape -----

  predicate OnlySamples(s: seq<Entry>) {
    forall i :: 0 <= i < |s| ==> s[i].kind == Sample
  }

  /** Parameters stand behind a NewSegment, and nowhere else. */
  predicate Framed(s: seq<Entry>)
    decreases |s|
  {
    if s == [] then true
    else if s[0].kind == NewSegment then |s| > 1 && s[1].kind == Parameters && Framed(s[2..])
    else s[0].kind != Parameters && Framed(s[1..])
  }

  /** The samples the worker has in hand and has not released. */
  function Held(w: Worker): seq<Entry> {
    match w
    case Busy(ToCheck, sending, _) => sending
    case Busy(ToCall, sending, _) => sending
    case Busy(ToUpdate(_), sending, _) => sending
    case Busy(ToRelease, sending, _) => sending
    case _ => []
  }

  predicate ControlPacket(p: Option<Entry>) {
    p.Some? ==> p.value.kind != Sample && p.value.kind != Parameters
  }

  /** What the worker holds: a batch of samples, full unless something ended it. */
  predicate WorkerShape(config: Config, w: Worker) {
    w.Busy? ==>
      && OnlySamples(w.sending) && |w.sending| <= config.batchSize
      && ControlPacket(w.packet)
      && (w.stage == ToEndOfStream ==> w.packet.Some? && w.packet.value.kind == EosPacket)
      && (w.stage == ToSignal ==> w.packet.Some? && w.packet.value.kind == ResetPacket)
      && (w.stage in {ToPacket, ToEndOfStream, ToSignal} <==> w.sending == [])
      && (config.exact && 0 < |w.sending| < config.batchSize ==> w.packet.Some?)
  }

  predicate Shape(q: Queue) {
    && q.config.batchSize > 0
    && Framed(q.list)
    && OnlySamples(q.batch) && |q.batch| < q.config.batchSize
    && (q.worker.Busy? ==> q.batch == [])
    && WorkerShape(q.config, q.worker)
    && (q.worker == Ended ==> q.terminate && q.list == [] && q.batch == [])
    && (q.terminate ==> q.segmentCallers == 0 && q.resetCallers == 0 && q.flusher == NoFlush)
    && (q.flushing <==> q.flusher in {Began, AwaitsWorker, Woken})
  }

  lemma {:induction false} FramedAppends(s: seq<Entry>, t: seq<Entry>)
    requires Framed(s) && Framed(t)
    ensures Framed(s + t)
    decreases |s|
  {
    if s == [] {
      assert s + t == t;
    } else if s[0].kind == NewSegment {
      assert (s + t)[2..] == s[2..] + t;
      FramedAppends(s[2..], t);
    } else {
      assert (s + t)[1..] == s[1..] + t;
      FramedAppends(s[1..], t);
    }
  }

  lemma {:induction false} SamplesFramed(s: seq<Entry>)
    requires OnlySamples(s)
    ensures Framed(s)
    decreases |s|
  {
    if s != [] {
      SamplesFramed(s[1..]);
    }
  }

  lemma {:induction false} GatherShape(config: Config, batch: seq<Entry>, list: seq<Entry>)
    requires Framed(list) && OnlySamples(batch) && |batch| < config.batchSize
    ensures var g := Gather(config, batch, list);
      && Framed(g.list) && OnlySamples(g.batch) && |g.batch| <= config.batchSize
      && ControlPacket(g.packet)
      && (g.wait ==> |g.batch| < config.batchSize)
      && (config.exact && !g.wait && |g.batch| < config.batchSize ==> g.packet.Some?)
    decreases |list|
  {
    if list == [] {
    } else if list[0].kind == Sample {
      var more := batch + [list[0]];
      if |more| != config.batchSize {
        GatherShape(config, more, list[1..]);
      }
    } else if list[0].kind == SendPacket && batch == [] {
      GatherShape(config, batch, list[1..]);
    }
  }

  lemma QueuedShape(q: Queue, kinds: seq<Kind>)
    requires Shape(q) && Framed(Stamped(kinds, q.next)) && q.worker != Ended
    ensures Shape(Queued(q, kinds))
  {
    FramedAppends(q.list, Stamped(kinds, q.next));
  }

  lemma LoopShape(q: Queue)
    requires Shape(q) && q.worker == AtLoop
    ensures Shape(AfterLoop(q))
  {
    hide Gather, Samples;
    var f := if q.flushing then Freed(q) else q;
    GatherShape(q.config, f.batch, f.list);
    GatherWaits(q.config, f.batch, f.list);
  }

  lemma SpecialsFramed(n: nat)
    ensures forall k | k in {SendPacket, EosPacket, ResetPacket} :: Framed(Stamped([k], n))
    ensures Framed(Stamped([NewSegment, Parameters], n))
  {
    var s := Stamped([NewSegment, Parameters], n);
    assert s[2..] == [];
  }

  lemma SpecialShape(q: Queue, kind: Kind)
    requires Shape(q) && !q.terminate && kind in {SendPacket, EosPacket, ResetPacket}
    ensures var r := Queued(q, [kind]);
      && Shape(Notified(r)) && Shape(Notified(r.(flushed := false)))
      && Shape(Notified(r.(resetCallers := q.resetCallers + 1)))
  {
    hide Framed, Samples, Stamped, OnlySamples, WorkerShape;
    SpecialsFramed(q.next);
    QueuedShape(q, [kind]);
  }

  lemma SegmentShape(q: Queue)
    requires Shape(q) && q.segmentCallers > 0
    ensures Shape(AfterQueueNewSegment(q))
  {
    hide Framed, Samples, Stamped, OnlySamples, WorkerShape;
    SpecialsFramed(q.next);
    QueuedShape(q, [NewSegment, Parameters]);
  }

  lemma StepKeepsShape(q: Queue, a: Act)
    requires Shape(q) && Enabled(q, a)
    ensures Shape(After(q, a))
  {
    hide Shape, AfterWork, AfterReceive, AfterBeginFlush, AfterEndFlush, AfterQueueNewSegment, Notified, Queued;
    match a
    case Receive(n) => ReceiveShape(q, n);
    case SendAnyway => SpecialShape(q, SendPacket);
    case EOS =>
      if q.hr == S_OK {
        SpecialShape(q, EosPacket);
      }
    case QueueNewSegment => SegmentShape(q);
    case Reset => SpecialShape(q, ResetPacket);
    case Work(answer) => WorkShape(q, answer);
    case _ => OtherShape(q, a);
  }

  /** The steps that put nothing in the list. */
  predicate Quiet(a: Act) {
    match a
    case Receive(_) => false
    case SendAnyway => false
    case EOS => false
    case QueueNewSegment => false
    case Reset => false
    case Work(_) => false
    case _ => true
  }

  lemma OtherShape(q: Queue, a: Act)
    requires Shape(q) && Enabled(q, a) && Quiet(a)
    ensures Shape(After(q, a))
  {
    hide Framed, AfterWork, Samples, Queued, OnlySamples, WorkerShape, AfterReceive, AfterEOS, AfterQueueNewSegment;
    NothingHeld(q.config);
  }

  lemma WorkShape(q: Queue, answer: int)
    requires Shape(q) && Enabled(q, Work(answer))
    ensures Shape(AfterWork(q, answer))
  {
    hide Shape, AfterLoop, AfterBusy;
    if q.worker == AtLoop {
      LoopShape(q);
    } else {
      BusyShape(q, answer);
    }
  }

  lemma BusyShape(q: Queue, answer: int)
    requires Shape(q) && q.worker.Busy?
    ensures Shape(AfterBusy(q, answer))
  {
    hide Framed, Samples, OnlySamples, Onward, WorkerShape, PassedOn, HrAfter, LetGo;
    OnwardShape(q.config, q.worker, q.hr, answer);
  }

  lemma OnwardShape(config: Config, w: Worker, hr: int, answer: int)
    requires WorkerShape(config, w) && w.Busy?
    ensures WorkerShape(config, Onward(w, hr, answer)) && Onward(w, hr, answer) != Ended
  {
  }

  lemma NothingHeld(config: Config)
    ensures WorkerShape(config, AtLoop)
  {
  }

  lemma ReceiveShape(q: Queue, n: nat)
    requires Shape(q) && !q.terminate
    ensures Shape(AfterReceive(q, n))
  {
    hide Framed, Samples;
    SamplesFramed(Stamped(AllSamples(n), q.next));
    QueuedShape(q, AllSamples(n));
  }

  // ----- Ownership -----

  /** Every sample that came is released or still here, and none came twice. */
  ghost predicate Owned(q: Queue) {
    Balanced(q) && Once(q.given, q.next)
  }

  predicate Balanced(q: Queue) {
    Balance(q.given, q.released, Held(q.worker), q.batch, q.list)
  }

  predicate Balance(given: multiset<nat>, released: multiset<nat>, held: seq<Entry>, batch: seq<Entry>,
                    list: seq<Entry>)
  {
    given == released + (Samples(held) + (Samples(batch) + Samples(list)))
  }

  ghost predicate Once(m: multiset<nat>, n: nat) {
    forall x: nat :: m[x] <= if x < n then 1 else 0
  }

  lemma {:induction false} SamplesAppend(s: seq<Entry>, t: seq<Entry>)
    ensures Samples(s + t) == Samples(s) + Samples(t)
    decreases |s|
  {
    if s == [] {
      assert s + t == t;
    } else {
      assert (s + t)[1..] == s[1..] + t;
      SamplesAppend(s[1..], t);
    }
  }

  lemma {:induction false} SamplesOnce(kinds: seq<Kind>, n: nat, x: nat)
    ensures Samples(Stamped(kinds, n))[x] <= if n <= x < n + |kinds| then 1 else 0
    decreases |kinds|
  {
    if kinds != [] {
      assert Stamped(kinds, n)[1..] == Stamped(kinds[1..], n + 1);
      SamplesOnce(kinds[1..], n + 1, x);
    }
  }

  lemma {:induction false} GatherOwns(config: Config, batch: seq<Entry>, list: seq<Entry>)
    requires Framed(list)
    ensures var g := Gather(config, batch, list);
      Samples(g.batch) + Samples(g.list) == Samples(batch) + Samples(list)
    decreases |list|
  {
    if list == [] {
    } else if list[0].kind == Sample {
      var more := batch + [list[0]];
      SamplesAppend(batch, [list[0]]);
      assert Samples([list[0]]) == multiset{list[0].stamp};
      if |more| != config.batchSize {
        GatherOwns(config, more, list[1..]);
      }
    } else if list[0].kind == SendPacket && batch == [] {
      GatherOwns(config, batch, list[1..]);
    } else if list[0].kind == NewSegment {
      assert Samples(list) == Samples(list[1..]) == Samples(list[1..][1..]);
      assert list[1..][1..] == list[2..];
    }
  }

  lemma NoneOf(n: nat)
    ensures Samples([]) == multiset{}
    ensures forall k | k in {SendPacket, EosPacket, ResetPacket} :: Samples(Stamped([k], n)) == multiset{}
    ensures Samples(Stamped([NewSegment, Parameters], n)) == multiset{}
  {
    var s := Stamped([NewSegment, Parameters], n);
    assert s[1..][1..] == [];
  }

  lemma QueuedOwns(q: Queue, kinds: seq<Kind>)
    requires Owned(q) && Samples(Stamped(kinds, q.next)) == multiset{}
    ensures Owned(Queued(q, kinds))
  {
    hide Samples, Stamped;
    SamplesAppend(q.list, Stamped(kinds, q.next));
  }

  lemma OnceMore(m: multiset<nat>, kinds: seq<Kind>, n: nat)
    requires Once(m, n)
    ensures Once(m + Samples(Stamped(kinds, n)), n + |kinds|)
  {
    hide Samples, Stamped;
    forall x: nat
      ensures (m + Samples(Stamped(kinds, n)))[x] <= if x < n + |kinds| then 1 else 0
    {
      SamplesOnce(kinds, n, x);
    }
  }

  lemma ArrivalBalances(given: multiset<nat>, released: multiset<nat>, held: seq<Entry>, batch: seq<Entry>,
                        list: seq<Entry>, more: seq<Entry>)
    requires Balance(given, released, held, batch, list)
    ensures Balance(given + Samples(more), released, held, batch, list + more)
    ensures Balance(given + Samples(more), released + Samples(more), held, batch, list)
  {
    hide Samples;
    SamplesAppend(list, more);
    var h, b, l, m := Samples(held), Samples(batch), Samples(list), Samples(more);
    assert (released + (h + (b + l))) + m == (released + m) + (h + (b + l));
    assert (released + (h + (b + l))) + m == released + (h + (b + (l + m)));
  }

  lemma ReceiveOwns(q: Queue, n: nat)
    requires Owned(q)
    ensures Owned(AfterReceive(q, n))
  {
    hide Samples, Stamped, Once, Balance;
    ArrivalBalances(q.given, q.released, Held(q.worker), q.batch, q.list, Stamped(AllSamples(n), q.next));
    OnceMore(q.given, AllSamples(n), q.next);
  }

  lemma FreeBalances(given: multiset<nat>, released: multiset<nat>, batch: seq<Entry>, list: seq<Entry>)
    requires Balance(given, released, [], batch, list)
    ensures Balance(given, released + Samples(batch) + Samples(list), [], [], [])
  {
    hide Samples;
    NoneOf(0);
    var b, l := Samples(batch), Samples(list);
    assert released + (multiset{} + (b + l)) == released + b + l + (multiset{} + (multiset{} + multiset{}));
  }

  lemma GatherBalances(given: multiset<nat>, released: multiset<nat>, config: Config, batch: seq<Entry>,
                       list: seq<Entry>)
    requires Balance(given, released, [], batch, list) && Framed(list)
    ensures var g := Gather(config, batch, list);
      Balance(given, released, [], g.batch, g.list) && Balance(given, released, g.batch, [], g.list)
  {
    hide Samples, Gather, Framed;
    NoneOf(0);
    GatherOwns(config, batch, list);
    var g := Gather(config, batch, list);
    assert multiset{} + (Samples(batch) + Samples(list)) == Samples(g.batch) + (multiset{} + Samples(g.list));
  }

  lemma LoopOwns(q: Queue)
    requires Owned(q) && Shape(q) && q.worker == AtLoop
    ensures Owned(AfterLoop(q))
  {
    hide Samples, Gather, Once, Balance, OnlySamples;
    FreeBalances(q.given, q.released, q.batch, q.list);
    var f := if q.flushing then Freed(q) else q;
    GatherBalances(f.given, f.released, q.config, f.batch, f.list);
  }

  lemma BusyOwns(q: Queue, answer: int)
    requires Owned(q) && Shape(q) && q.worker.Busy?
    ensures Owned(AfterBusy(q, answer))
  {
    hide Samples, Once, Onward, Balance, PassedOn, HrAfter, LetGo, Framed, OnlySamples, WorkerShape;
    var w := q.worker;
    HeldAfter(q.config, w, q.hr, answer);
    if LetGo(w) == [] {
      NoneOf(0);
      assert q.released + multiset{} == q.released;
    } else {
      ReleaseBalances(q.given, q.released, Held(w), q.batch, q.list);
    }
  }

  lemma HeldAfter(config: Config, w: Worker, hr: int, answer: int)
    requires w.Busy? && WorkerShape(config, w)
    ensures if LetGo(w) == [] then Held(Onward(w, hr, answer)) == Held(w)
      else LetGo(w) == Held(w) && Held(Onward(w, hr, answer)) == []
  {
  }

  lemma ReleaseBalances(given: multiset<nat>, released: multiset<nat>, held: seq<Entry>, batch: seq<Entry>,
                        list: seq<Entry>)
    requires Balance(given, released, held, batch, list)
    ensures Balance(given, released + Samples(held), [], batch, list)
  {
    hide Samples;
    NoneOf(0);
    var h, rest := Samples(held), Samples(batch) + Samples(list);
    assert released + (h + rest) == (released + h) + (multiset{} + rest);
  }

  lemma StepKeepsOwned(q: Queue, a: Act)
    requires Owned(q) && Shape(q) && Enabled(q, a)
    ensures Owned(After(q, a))
  {
    hide Samples, Shape, AfterLoop, AfterBusy, Stamped, Queued, AfterReceive, Once, Balance;
    NoneOf(q.next);
    match a
    case Receive(n) => ReceiveOwns(q, n);
    case SendAnyway => QueuedOwns(q, [SendPacket]);
    case EOS => QueuedOwns(q, [EosPacket]);
    case QueueNewSegment => QueuedOwns(q, [NewSegment, Parameters]);
    case Reset => QueuedOwns(q, [ResetPacket]);
    case Work(answer) =>
      if q.worker == AtLoop {
        LoopOwns(q);
      } else {
        BusyOwns(q, answer);
      }
    case _ =>
  }

  // ----- Wake-ups -----

  /** The worker is recorded as waiting, or its semaphore is set, just while it is at its wait; and
      if it is recorded there is nothing for it to do. */
  predicate Wakeup(q: Queue) {
    && q.waiting + q.semaphore == (if q.worker == Waiting then 1 else 0)
    && (q.waiting == 1 ==> !q.terminate && NothingToDo(q.config, q.batch, q.list))
  }

  /** No control packet, and too few samples for a batch. */
  predicate NothingToDo(config: Config, batch: seq<Entry>, list: seq<Entry>) {
    && OnlySamples(list)
    && |batch| + |list| < config.batchSize
    && (!config.exact ==> list == [] && batch == [])
  }

  lemma LoopWakeup(q: Queue)
    requires Wakeup(q) && Shape(q) && q.worker == AtLoop
    ensures Wakeup(AfterLoop(q))
  {
    hide Samples, Gather;
    var f := if q.flushing then Freed(q) else q;
    GatherWaits(q.config, f.batch, f.list);
    GatherShape(q.config, f.batch, f.list);
  }

  lemma ReceiveWakeup(q: Queue, n: nat)
    requires Wakeup(q)
    ensures Wakeup(AfterReceive(q, n))
  {
    hide Samples;
    assert OnlySamples(Stamped(AllSamples(n), q.next));
  }

  lemma NotifiedWakeup(q: Queue)
    requires q.waiting + q.semaphore == if q.worker == Waiting then 1 else 0
    ensures Wakeup(Notified(q))
  {
  }

  lemma BusyWakeup(q: Queue, answer: int)
    requires Wakeup(q) && q.worker.Busy?
    ensures Wakeup(AfterBusy(q, answer))
  {
    hide NothingToDo, Samples, PassedOn, HrAfter, LetGo;
    assert Onward(q.worker, q.hr, answer) != Waiting;
  }

  lemma WorkWakeup(q: Queue, answer: int)
    requires Wakeup(q) && Shape(q) && Enabled(q, Work(answer))
    ensures Wakeup(AfterWork(q, answer))
  {
    hide Wakeup, Shape, AfterLoop, AfterBusy;
    if q.worker == AtLoop {
      LoopWakeup(q);
    } else {
      BusyWakeup(q, answer);
    }
  }

  lemma StepKeepsWakeup(q: Queue, a: Act)
    requires Wakeup(q) && Shape(q) && Enabled(q, a)
    ensures Wakeup(After(q, a))
  {
    hide Samples, AfterWork, Shape, NothingToDo, Stamped, AfterReceive, Notified;
    match a
    case Receive(n) => ReceiveWakeup(q, n);
    case Work(answer) => WorkWakeup(q, answer);
    case SendAnyway => NotifiedWakeup(Queued(q, [SendPacket]));
    case EOS => NotifiedWakeup(Queued(q, [EosPacket]).(flushed := false));
    case QueueNewSegment =>
      NotifiedWakeup(Queued(q, [NewSegment, Parameters]).(segmentCallers := q.segmentCallers - 1));
    case Reset => NotifiedWakeup(Queued(q, [ResetPacket]).(resetCallers := q.resetCallers + 1));
    case BeginFlush =>
      NotifiedWakeup(q.(flushing := true, hr := if q.hr == S_OK then S_FALSE else q.hr, flusher := Began,
                        flushComplete := false));
    case Terminate => NotifiedWakeup(q.(terminate := true, hr := S_FALSE));
    case _ =>
  }

  // ----- Every run -----

  ghost predicate Sound(q: Queue) {
    Order(q) && Shape(q) && Owned(q) && Wakeup(q)
  }

  lemma StepKeeps(q: Queue, a: Act)
    requires Sound(q) && Enabled(q, a)
    ensures Sound(After(q, a))
  {
    hide Order, Shape, Owned, Wakeup, After;
    StepKeepsOrder(q, a);
    StepKeepsShape(q, a);
    StepKeepsOwned(q, a);
    StepKeepsWakeup(q, a);
  }

  lemma {:induction false} RunKeeps(q: Queue, acts: seq<Act>)
    requires Sound(q) && Legal(q, acts)
    ensures Sound(Run(q, acts))
    decreases acts
  {
    hide Sound, After;
    if acts != [] {
      StepKeeps(q, acts[0]);
      RunKeeps(After(q, acts[0]), acts[1..]);
    }
  }

  lemma InitialSound(q: Queue)
    requires Initial(q)
    ensures Sound(q)
  {
  }

  lemma Reachable(q: Queue, acts: seq<Act>)
    requires Initial(q) && Legal(q, acts)
    ensures Sound(Run(q, acts))
  {
    InitialSound(q);
    RunKeeps(q, acts);
  }

  /** A state that some run leads to. */
  ghost predicate Reached(q: Queue) {
    exists start, acts :: Initial(start) && Legal(start, acts) && Run(start, acts) == q
  }

  lemma ReachedIsSound(q: Queue)
    requires Reached(q)
    ensures Sound(q)
  {
    hide Sound, Initial;
    var start, acts :| Initial(start) && Legal(start, acts) && Run(start, acts) == q;
    Reachable(start, acts);
  }

  // ----- The same for each critical section -----

  lemma ReceiveKeeps(q: Queue, n: nat)
    requires Sound(q) && !q.terminate
    ensures Sound(AfterReceive(q, n))
  {
    hide Sound, AfterReceive;
    StepKeeps(q, Receive(n));
  }

  lemma SendKeeps(q: Queue)
    requires Sound(q) && !q.terminate
    ensures Sound(Notified(Queued(q, [SendPacket])))
  {
    hide Sound, Notified, Queued;
    StepKeeps(q, Act.SendAnyway);
  }

  lemma EndKeeps(q: Queue)
    requires Sound(q) && !q.terminate
    ensures Sound(AfterEOS(q))
  {
    hide Sound, AfterEOS;
    StepKeeps(q, Act.EOS);
  }

  lemma SegmentKeeps(q: Queue)
    requires Sound(q) && q.segmentCallers > 0
    ensures Sound(AfterQueueNewSegment(q))
  {
    hide Sound, AfterQueueNewSegment;
    StepKeeps(q, Act.QueueNewSegment);
  }

  lemma ResetKeeps(q: Queue)
    requires Sound(q) && !q.terminate
    ensures Sound(Notified(Queued(q, [ResetPacket]).(resetCallers := q.resetCallers + 1)))
  {
    hide Sound, Notified, Queued;
    StepKeeps(q, Act.Reset);
  }

  lemma BeginKeeps(q: Queue)
    requires Sound(q) && !q.terminate && q.flusher == NoFlush
    ensures Sound(AfterBeginFlush(q))
  {
    hide Sound, AfterBeginFlush;
    StepKeeps(q, Act.BeginFlush);
  }

  lemma EndFlushKeeps(q: Queue)
    requires Sound(q) && q.flusher == Began
    ensures Sound(AfterEndFlush(q))
  {
    hide Sound, AfterEndFlush;
    StepKeeps(q, Act.EndFlush);
  }

  lemma TerminateKeeps(q: Queue)
    requires Sound(q) && Enabled(q, Act.Terminate)
    ensures Sound(Notified(q.(terminate := true, hr := S_FALSE)))
  {
    hide Sound, Notified;
    StepKeeps(q, Act.Terminate);
  }

  lemma WorkerKeeps(q: Queue, answer: int)
    requires Sound(q) && Enabled(q, Work(answer))
    ensures Sound(AfterWork(q, answer))
  {
    hide Sound, AfterWork;
    StepKeeps(q, Work(answer));
  }

  lemma LoopKeeps(q: Queue)
    requires Sound(q) && q.worker == AtLoop
    ensures Sound(AfterLoop(q))
  {
    hide Sound, AfterLoop;
    WorkerKeeps(q, S_OK);
  }
}
