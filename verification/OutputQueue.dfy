/** COutputQueue with its thread: the fields under the lock, and the methods that are the critical
    sections of QueueSteps. */
module OutputQueue {
  import opened QueueSteps
  import opened QueueInvariants
  import opened QueueGuarantees
  import opened QueueFlush
  import opened Wrappers

  datatype Outcome = Accepted | Refused(hr: int) | InvalidArgument

  class OutputQueue {
    const config: Config
    /** m_ppSamples, of which the first nBatched are the batch. */
    const samples: array<Entry>
    var nBatched: nat
    /** m_List. */
    var list: seq<Entry>
    var waiting: nat
    /** m_hSem. */
    var semaphore: nat
    var hr: int
    var flushing: bool
    var flushed: bool
    var terminate: bool
    /** m_evFlushComplete. */
    var flushComplete: bool
    ghost var worker: Worker
    ghost var flusher: Flusher
    ghost var segmentCallers: nat
    ghost var resetCallers: nat
    ghost var delivered: seq<Entry>
    ghost var given: multiset<nat>
    ghost var released: multiset<nat>
    /** The number of the next arrival. */
    var next: nat

    function Batch(): seq<Entry>
      requires nBatched <= samples.Length
      reads `nBatched, samples
    {
      samples[..nBatched]
    }

    ghost predicate Fits()
      reads `nBatched
    {
      nBatched < config.batchSize == samples.Length
    }

    ghost function Abs(): Queue
      requires Fits()
      reads this, samples
    {
      Queue(config, list, Batch(), waiting, semaphore, hr, flushing, flushed, terminate, flushComplete, worker,
            flusher, segmentCallers, resetCallers, next, delivered, given, released)
    }

    ghost predicate Valid()
      reads this, samples
    {
      Fits() && Sound(Abs())
    }

    constructor (batchSize: nat, exact: bool, flushingOpt: bool)
      requires batchSize > 0
      ensures Valid() && Initial(Abs()) && fresh(samples)
      ensures config == Config(batchSize, exact && batchSize > 1, flushingOpt)
    {
      config := Config(batchSize, exact && batchSize > 1, flushingOpt);
      samples := new Entry[batchSize](i => Entry(Sample, 0));
      nBatched, list, waiting, semaphore, hr := 0, [], 0, 0, S_OK;
      flushing, flushed, terminate, flushComplete := false, true, false, false;
      worker, flusher, segmentCallers, resetCallers := AtLoop, NoFlush, 0, 0;
      delivered, given, released, next := [], multiset{}, multiset{}, 0;
      new;
      InitialSound(Abs());
    }

    /** Abs field by field: with it an assignment is seen to be the update of one field. */
    lemma Fields()
      requires Fits()
      ensures var q := Abs();
        && q.config == config && q.list == list && q.batch == Batch() && |q.batch| == nBatched
        && q.waiting == waiting && q.semaphore == semaphore && q.hr == hr
        && q.flushing == flushing && q.flushed == flushed && q.terminate == terminate
        && q.flushComplete == flushComplete && q.worker == worker && q.flusher == flusher
        && q.segmentCallers == segmentCallers && q.resetCallers == resetCallers && q.next == next
        && q.delivered == delivered && q.given == given && q.released == released
    {
    }

    method QueueSample(kind: Kind)
      requires Fits()
      modifies `list, `next
      ensures Fits() && Abs() == Queued(old(Abs()), [kind])
    {
      assert [Entry(kind, next)] == Stamped([kind], next);
      list := list + [Entry(kind, next)];
      next := next + 1;
    }

    method NotifyThread()
      requires Fits()
      modifies `semaphore, `waiting
      ensures Fits() && Abs() == Notified(old(Abs()))
    {
      if waiting != 0 {
        semaphore := semaphore + waiting;
        waiting := 0;
      }
    }

    /** ReceiveMultiple of n samples. */
    method ReceiveMultiple(n: int) returns (outcome: Outcome)
      requires Valid() && !terminate
      modifies `list, `next, `semaphore, `waiting, `flushed, `given, `released
      ensures Valid()
      ensures outcome == (if n < 0 then InvalidArgument else if hr != S_OK then Refused(hr) else Accepted)
      ensures n < 0 ==> Abs() == old(Abs())
      ensures n >= 0 ==> Abs() == AfterReceive(old(Abs()), n)
    {
      hide Sound, Samples, Stamped, AllSamples, Abs, Notified;
      if n < 0 {
        outcome := InvalidArgument;
        return;
      }
      Fields();
      ReceiveKeeps(Abs(), n);
      if hr != S_OK {
        Refuse(n);
        outcome := Refused(hr);
        return;
      }
      Accept(n);
      Fields();
      outcome := Accepted;
      if !config.exact || nBatched + |list| >= config.batchSize {
        NotifyThread();
      }
    }

    /** Samples that are not wanted are released, one by one. */
    method Refuse(n: nat)
      requires Fits()
      modifies `next, `given, `released
      ensures Fits()
      ensures var arrived := Samples(Stamped(AllSamples(n), old(next)));
        Abs() == old(Abs()).(next := old(next) + n, given := old(given) + arrived,
                             released := old(released) + arrived)
    {
      hide Samples, Stamped, AllSamples, Abs;
      Fields();
      ReleaseAll(n);
      Fields();
      given := given + Samples(Stamped(AllSamples(n), next));
      next := next + n;
      Fields();
    }

    method ReleaseAll(n: nat)
      requires Fits()
      modifies `released
      ensures Fits()
      ensures Abs() == old(Abs()).(released := old(released) + Samples(Stamped(AllSamples(n), next)))
    {
      hide Samples, Stamped, AllSamples;
      NoneStamped(next);
      NoSamples();
      for i := 0 to n
        invariant released == old(released) + Samples(Stamped(AllSamples(i), next))
      {
        OneStamped(i, next);
        SamplesAppend(Stamped(AllSamples(i), next), Stamped([Sample], next + i));
        JustStamped(next + i);
        ReleaseOne(Entry(Sample, next + i));
      }
    }

    /** Samples that are accepted are queued, one by one. */
    method Accept(n: nat)
      requires Fits()
      modifies `list, `next, `flushed, `given
      ensures Fits()
      ensures Abs() == Queued(old(Abs()), AllSamples(n)).(flushed := false,
        given := old(given) + Samples(Stamped(AllSamples(n), old(next))))
    {
      hide Samples, Stamped, AllSamples;
      given := given + Samples(Stamped(AllSamples(n), next));
      flushed := false;
      QueueAll(n);
    }

    method QueueAll(n: nat)
      requires Fits()
      modifies `list, `next
      ensures Fits() && Abs() == Queued(old(Abs()), AllSamples(n))
    {
      hide Stamped, AllSamples;
      NoneStamped(next);
      for i := 0 to n
        invariant Fits() && Abs() == old(Abs()).(next := next, list := list)
        invariant next == old(next) + i
        invariant list == old(list) + Stamped(AllSamples(i), old(next))
      {
        OneStamped(i, old(next));
        QueueSample(Sample);
        Fields();
      }
    }

    method SendAnyway()
      requires Valid() && !terminate
      modifies `list, `next, `semaphore, `waiting
      ensures Valid() && Abs() == Notified(Queued(old(Abs()), [SendPacket]))
    {
      hide Sound, Abs, Notified, Queued;
      Fields();
      SendKeeps(Abs());
      QueueSample(SendPacket);
      NotifyThread();
    }

    method EOS()
      requires Valid() && !terminate
      modifies `list, `next, `semaphore, `waiting, `flushed
      ensures Valid() && Abs() == AfterEOS(old(Abs()))
    {
      hide Sound, Abs, Notified, Queued;
      Fields();
      EndKeeps(Abs());
      if hr == S_OK {
        QueueSample(EosPacket);
        Fields();
        flushed := false;
        Fields();
        NotifyThread();
      }
    }

    /** NewSegment's look at m_hr before it takes the lock: is the segment to be queued? */
    method CheckNewSegment() returns (admitted: bool)
      requires Valid() && !terminate
      modifies `segmentCallers
      ensures Valid() && Abs() == After(old(Abs()), Act.CheckNewSegment)
      ensures admitted <==> hr == S_OK
      ensures segmentCallers == old(segmentCallers) + if admitted then 1 else 0
    {
      hide Sound, Abs;
      Fields();
      StepKeeps(Abs(), Act.CheckNewSegment);
      admitted := false;
      if hr == S_OK {
        admitted := true;
        segmentCallers := segmentCallers + 1;
      }
      Fields();
    }

    /** The locked part of NewSegment: the packet and right behind it its parameters. */
    method QueueNewSegment()
      requires Valid() && segmentCallers > 0
      modifies `list, `next, `semaphore, `waiting, `segmentCallers
      ensures Valid() && Abs() == AfterQueueNewSegment(old(Abs()))
    {
      hide Sound, Abs, Notified, Stamped;
      Fields();
      SegmentStamped(next);
      SegmentKeeps(Abs());
      ghost var was := Abs();
      QueueSample(NewSegment);
      QueueSample(Parameters);
      assert Abs() == Queued(was, [NewSegment, Parameters]);
      Fields();
      segmentCallers := segmentCallers - 1;
      Fields();
      NotifyThread();
    }

    /** downstream tells whether the flush is passed on to the pin. */
    method BeginFlush() returns (downstream: bool)
      requires Valid() && !terminate && flusher == NoFlush
      modifies `flushing, `hr, `flushComplete, `semaphore, `waiting, `flusher
      ensures Valid() && Abs() == AfterBeginFlush(old(Abs()))
      ensures downstream <==> !Shortcut(old(Abs()))
    {
      hide Sound, Abs, Notified;
      Fields();
      BeginKeeps(Abs());
      flusher := Began;
      flushing := true;
      if hr == S_OK {
        hr := S_FALSE;
      }
      downstream := !(flushed && config.flushingOpt);
      if downstream {
        flushComplete := false;
        Fields();
        NotifyThread();
      } else {
        Fields();
      }
    }

    /** The locked part of EndFlush; wait tells whether the event is to be waited for. */
    method EndFlush() returns (wait: bool)
      requires Valid() && flusher == Began
      modifies `flushing, `hr, `flusher
      ensures Valid() && Abs() == AfterEndFlush(old(Abs()))
      ensures wait <==> flusher == AwaitsWorker
    {
      hide Sound;
      EndFlushKeeps(Abs());
      if config.flushingOpt && flushed {
        flushing := false;
        hr := S_OK;
        flusher := NoFlush;
        wait := false;
        return;
      }
      flusher := AwaitsWorker;
      wait := true;
    }

    /** The rest of EndFlush, when nothing else happens in between: four steps that QueueSteps keeps
        apart. */
    method FinishFlush()
      requires Valid() && flusher == AwaitsWorker && flushComplete
      modifies `flushing, `flushed, `hr, `flusher, `flushComplete
      ensures Valid()
      ensures Abs() == old(Abs()).(flusher := NoFlush, flushComplete := false, flushing := false, flushed := true,
                                   hr := S_OK)
    {
      hide Sound, Run, Legal;
      ghost var after := FlushEnds(Abs());
      RunKeeps(Abs(), [FlushWaited, ClearFlushing, MarkFlushed, ClearHr]);
      flushComplete := false;
      flushing := false;
      flushed := true;
      hr := S_OK;
      flusher := NoFlush;
    }

    /** The locked part of Reset. */
    method Reset()
      requires Valid() && !terminate
      modifies `list, `next, `semaphore, `waiting, `resetCallers
      ensures Valid()
      ensures Abs() == Notified(Queued(old(Abs()), [ResetPacket]).(resetCallers := old(resetCallers) + 1))
    {
      hide Sound, Abs, Notified, Queued;
      Fields();
      ResetKeeps(Abs());
      QueueSample(ResetPacket);
      Fields();
      resetCallers := resetCallers + 1;
      Fields();
      NotifyThread();
    }

    /** The locked part of the destructor. */
    method Terminate()
      requires Valid() && !terminate && flusher == NoFlush && segmentCallers == 0 && resetCallers == 0
      modifies `terminate, `hr, `semaphore, `waiting
      ensures Valid() && Abs() == Notified(old(Abs()).(terminate := true, hr := S_FALSE))
    {
      hide Sound;
      TerminateKeeps(Abs());
      terminate := true;
      hr := S_FALSE;
      NotifyThread();
    }

    /** FreeSamples: each sample of the list and the batch is released once. */
    method FreeSamples()
      requires Fits() && Framed(list)
      modifies `list, `nBatched, `released
      ensures Fits() && Abs() == Freed(old(Abs()))
    {
      hide Samples, Framed;
      ghost var batch := Batch();
      ReleaseList();
      ReleaseBatch();
      nBatched := 0;
    }

    method ReleaseBatch()
      requires Fits()
      modifies `released
      ensures released == old(released) + Samples(Batch())
    {
      hide Samples;
      NoSamples();
      var i := 0;
      while i < nBatched
        invariant 0 <= i <= nBatched
        invariant released == old(released) + Samples(samples[..i])
      {
        assert samples[..i + 1] == samples[..i] + [samples[i]];
        SamplesAppend(samples[..i], [samples[i]]);
        ReleaseOne(samples[i]);
        i := i + 1;
      }
    }

    /** Release, of what bears a reference: a sample. */
    method ReleaseOne(entry: Entry)
      modifies `released
      ensures released == old(released) + Samples([entry])
    {
      if entry.kind == Sample {
        released := released + multiset{entry.stamp};
      }
    }

    method ReleaseList()
      requires Framed(list)
      modifies `list, `released
      ensures list == [] && released == old(released) + Samples(old(list))
    {
      hide Framed, Samples;
      NoSamples();
      while list != []
        invariant Framed(list)
        invariant released + Samples(list) == old(released) + Samples(old(list))
        decreases |list|
      {
        Peel(list);
        var entry := list[0];
        list := list[1..];
        if entry.kind != NewSegment {
          ReleaseOne(entry);
        } else {
          list := list[1..];
        }
      }
    }

    /** The loop of ThreadProc under the lock, once it is clear that the thread is neither to end nor
        to flush: it fills the batch until it is full or something ends it. */
    method GatherBatch() returns (wait: bool, packet: Option<Entry>)
      requires Fits() && Framed(list)
      modifies `list, `nBatched, samples
      ensures nBatched <= samples.Length
      ensures Gathered(Batch(), packet, list, wait) == Gather(config, old(Batch()), old(list))
    {
      wait, packet := false, None;
      while true
        invariant Fits() && Framed(list)
        invariant !wait && packet == None
        invariant Gather(config, Batch(), list) == Gather(config, old(Batch()), old(list))
        decreases |list|
      {
        if list != [] && list[0].kind == Sample {
          ghost var was := Batch();
          samples[nBatched] := list[0];
          nBatched := nBatched + 1;
          assert Batch() == was + [list[0]];
          list := list[1..];
          if nBatched == config.batchSize {
            break;
          }
        } else {
          if list == [] && (config.exact || nBatched == 0) {
            wait := true;
          } else if list != [] {
            if list[0].kind == SendPacket && nBatched == 0 {
              list := list[1..];
              continue;
            }
            packet := Some(list[0]);
            list := if list[0].kind == NewSegment then list[2..] else list[1..];
          }
          break;
        }
      }
    }

    /** The locked part of a turn of ThreadProc. The flags are looked at once: while the lock is held
        they do not change, but for m_bFlushing, and that matters only on the first turn. */
    method ThreadSection()
      requires Valid() && worker == AtLoop
      modifies samples, `list, `nBatched, `waiting, `worker, `flushComplete, `released
      ensures Valid() && Abs() == AfterLoop(old(Abs()))
    {
      hide Sound, Gather, Samples, Taken, Framed, Abs, Freed;
      Fields();
      LoopKeeps(Abs());
      KeepsRoom(Abs());
      if terminate {
        FreeSamples();
        Fields();
        worker := Ended;
        Fields();
        return;
      }
      if flushing {
        FreeSamples();
        Fields();
        flushComplete := true;
        Fields();
      }
      TakeBatch();
    }

    /** The end of the locked part: to wait, or to leave with what was gathered. */
    method TakeBatch()
      requires Fits() && Ready(Abs())
      modifies samples, `list, `nBatched, `waiting, `worker
      ensures Fits() && Abs() == Taken(old(Abs()))
    {
      hide Gather, Framed;
      GatherWaits(config, Batch(), list);
      var wait, packet := GatherBatch();
      if wait {
        waiting := waiting + 1;
        worker := Waiting;
      } else {
        worker := Busy(if nBatched == 0 then ToPacket else ToCheck, Batch(), packet);
        nBatched := 0;
      }
    }

    /** What ThreadProc does under the lock when ReceiveMultiple has returned. */
    method UpdateHr(answer: int)
      requires Valid() && worker.Busy? && worker.stage == ToUpdate(answer)
      modifies `hr, `worker
      ensures Valid() && Abs() == AfterWork(old(Abs()), answer)
    {
      hide Sound, AfterWork;
      UpdateResult(Abs(), answer);
      WorkerKeeps(Abs(), answer);
      if hr == S_OK {
        hr := answer;
      }
      worker := worker.(stage := ToRelease);
    }

    /** IsIdle: the answer is right when it is no; when it is yes, what may be left are samples in
        the list of an exactly batching queue, less than a batch. */
    method IsIdle() returns (idle: bool)
      requires Valid()
      ensures idle <==> QueueGuarantees.IsIdle(Abs())
      ensures TrulyIdle(Abs()) ==> idle
      ensures idle && !TrulyIdle(Abs()) ==> config.exact && OnlySamples(list) && 0 < |list| < config.batchSize
    {
      hide Order, Owned;
      idle := !(waiting == 0 || nBatched != 0);
    }
  }

  lemma NoSamples()
    ensures Samples([]) == multiset{}
  {
  }

  lemma Peel(s: seq<Entry>)
    requires s != [] && Framed(s)
    ensures if s[0].kind == NewSegment then
        |s| > 1 && s[1..][1..] == s[2..] && Framed(s[2..]) && Samples(s) == Samples(s[2..])
      else Framed(s[1..]) && Samples(s) == Samples([s[0]]) + Samples(s[1..])
  {
    if s[0].kind == NewSegment {
      assert s[1..][1..] == s[2..];
      assert Samples(s[1..]) == Samples(s[1..][1..]);
    } else {
      assert s == [s[0]] + s[1..];
      SamplesAppend([s[0]], s[1..]);
    }
  }

  lemma NoneStamped(n: nat)
    ensures Stamped(AllSamples(0), n) == []
  {
  }

  lemma JustStamped(n: nat)
    ensures Stamped([Sample], n) == [Entry(Sample, n)]
  {
  }

  lemma OneStamped(i: nat, n: nat)
    ensures Stamped(AllSamples(i + 1), n) == Stamped(AllSamples(i), n) + Stamped([Sample], n + i)
  {
  }

  lemma SegmentStamped(n: nat)
    ensures Stamped([NewSegment, Parameters], n) == Stamped([NewSegment], n) + Stamped([Parameters], n + 1)
  {
  }

  lemma UpdateResult(q: Queue, answer: int)
    requires q.worker.Busy? && q.worker.stage == ToUpdate(answer)
    ensures AfterWork(q, answer)
      == q.(hr := if q.hr == S_OK then answer else q.hr, worker := q.worker.(stage := ToRelease))
  {
    assert q.released + Samples([]) == q.released;
  }

  /** The batch that a waiting worker will keep leaves room. */
  predicate Ready(q: Queue) {
    var g := Gather(q.config, q.batch, q.list);
    Framed(q.list) && (g.wait ==> |g.batch| < q.config.batchSize)
  }

  lemma KeepsRoom(q: Queue)
    requires Sound(q)
    ensures Framed(q.list)
    ensures Ready(q) && Ready(Freed(q).(flushComplete := true))
  {
    hide Order, Owned, Wakeup, Samples;
    GatherShape(q.config, q.batch, q.list);
  }
}
