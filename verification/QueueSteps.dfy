/** COutputQueue with a worker thread, as a state machine: one step for each critical section, and
    one for each unlocked access of the worker and of the callers to what they share. */
module QueueSteps {
  import opened Wrappers

  const S_OK := 0
  const S_FALSE := 1

  /** What the list holds: samples, the special pointers, and the parameters behind a NewSegment. */
  datatype Kind = Sample | SendPacket | EosPacket | ResetPacket | NewSegment | Parameters

  /** Each entry bears the number of its arrival. */
  datatype Entry = Entry(kind: Kind, stamp: nat)

  datatype Config = Config(batchSize: nat, exact: bool, flushingOpt: bool)

  /** Where the worker is between two critical sections. */
  datatype Stage =
    | ToCheck
    | ToCall
    | ToUpdate(answer: int)
    | ToRelease
    | ToPacket
    | ToEndOfStream
    | ToSignal

  /** Busy: outside the lock with what it took off the queue, its local batch and pSample. */
  datatype Worker =
    | AtLoop
    | Waiting
    | Busy(stage: Stage, sending: seq<Entry>, packet: Option<Entry>)
    | Ended

  /** Where the thread that flushes is: between BeginFlush and EndFlush, in EndFlush's wait, and
      after the wait with m_bFlushing cleared and then m_bFlushed set. */
  datatype Flusher = NoFlush | Began | AwaitsWorker | Woken | Cleared | Marked

  datatype Queue = Queue(
    config: Config,
    list: seq<Entry>,
    batch: seq<Entry>,
    waiting: nat,
    semaphore: nat,
    hr: int,
    flushing: bool,
    flushed: bool,
    terminate: bool,
    flushComplete: bool,
    worker: Worker,
    flusher: Flusher,
    segmentCallers: nat,
    resetCallers: nat,
    next: nat,
    delivered: seq<Entry>,
    given: multiset<nat>,
    released: multiset<nat>)

  /** The calls of the users, each as its critical sections, and the steps of the worker: Wake ends
      its wait, Work is whatever it does next, with the answer of the pin if it calls the pin. */
  datatype Act =
    | Receive(n: nat)
    | SendAnyway
    | EOS
    | CheckNewSegment
    | QueueNewSegment
    | BeginFlush
    | EndFlush
    | FlushWaited
    | ClearFlushing
    | MarkFlushed
    | ClearHr
    | Reset
    | ResetReturns
    | Terminate
    | Wake
    | Work(answer: int)

  /** Nothing is called once the queue is being destroyed, and it is destroyed only when no call is
      under way. One thread at a time flushes. */
  predicate Enabled(q: Queue, a: Act) {
    match a
    case Receive(_) => !q.terminate
    case SendAnyway => !q.terminate
    case EOS => !q.terminate
    case CheckNewSegment => !q.terminate
    case QueueNewSegment => q.segmentCallers > 0
    case BeginFlush => !q.terminate && q.flusher == NoFlush
    case EndFlush => q.flusher == Began
    case FlushWaited => q.flusher == AwaitsWorker && q.flushComplete
    case ClearFlushing => q.flusher == Woken
    case MarkFlushed => q.flusher == Cleared
    case ClearHr => q.flusher == Marked
    case Reset => !q.terminate
    case ResetReturns => q.resetCallers > 0 && q.flushComplete
    case Terminate => !q.terminate && q.flusher == NoFlush && q.segmentCallers == 0 && q.resetCallers == 0
    case Wake => q.worker == Waiting && q.semaphore > 0
    case Work(_) => q.worker == AtLoop || q.worker.Busy?
  }

  // ----- Entries -----

  function Stamped(kinds: seq<Kind>, from: nat): (s: seq<Entry>)
    ensures |s| == |kinds|
  {
    seq(|kinds|, i requires 0 <= i < |kinds| => Entry(kinds[i], from + i))
  }

  /** The stamps of the samples. */
  function Samples(s: seq<Entry>): multiset<nat> {
    if s == [] then multiset{}
    else (if s[0].kind == Sample then multiset{s[0].stamp} else multiset{}) + Samples(s[1..])
  }

  function AllSamples(n: nat): (s: seq<Kind>)
    ensures |s| == n && forall i :: 0 <= i < n ==> s[i] == Sample
  {
    seq(n, i => Sample)
  }

  // ----- The users -----

  /** NotifyThread. */
  function Notified(q: Queue): Queue {
    if q.waiting != 0 then q.(semaphore := q.semaphore + q.waiting, waiting := 0) else q
  }

  /** QueueSample, for several entries at once. */
  function Queued(q: Queue, kinds: seq<Kind>): Queue {
    q.(list := q.list + Stamped(kinds, q.next), next := q.next + |kinds|)
  }

  /** ReceiveMultiple: refused samples are released at once; the worker is told only when it can
      make use of the new samples. */
  function AfterReceive(q: Queue, n: nat): Queue {
    var arrived := Samples(Stamped(AllSamples(n), q.next));
    if q.hr != S_OK then q.(next := q.next + n, given := q.given + arrived, released := q.released + arrived)
    else
      var r := Queued(q, AllSamples(n)).(flushed := false, given := q.given + arrived);
      if !q.config.exact || |r.batch| + |r.list| >= q.config.batchSize then Notified(r) else r
  }

  function AfterEOS(q: Queue): Queue {
    if q.hr == S_OK then Notified(Queued(q, [EosPacket]).(flushed := false)) else q
  }

  function AfterQueueNewSegment(q: Queue): Queue
    requires q.segmentCallers > 0
  {
    Notified(Queued(q, [NewSegment, Parameters]).(segmentCallers := q.segmentCallers - 1))
  }

  /** BeginFlush and EndFlush do nothing downstream when nothing has come since the last flush. */
  predicate Shortcut(q: Queue) {
    q.flushed && q.config.flushingOpt
  }

  function AfterBeginFlush(q: Queue): Queue {
    var r := q.(flushing := true, hr := if q.hr == S_OK then S_FALSE else q.hr, flusher := Began);
    if Shortcut(q) then r else Notified(r.(flushComplete := false))
  }

  function AfterEndFlush(q: Queue): Queue {
    if Shortcut(q) then q.(flushing := false, hr := S_OK, flusher := NoFlush)
    else q.(flusher := AwaitsWorker)
  }

  // ----- The worker -----

  /** What comes of a turn through the locked loop: what to send, the packet that ended the batch,
      what stays in the list, and whether to wait instead, keeping the batch. */
  datatype Gathered = Gathered(batch: seq<Entry>, packet: Option<Entry>, list: seq<Entry>, wait: bool)

  function Gather(config: Config, batch: seq<Entry>, list: seq<Entry>): Gathered
    decreases |list|
  {
    if list == [] then Gathered(batch, None, [], config.exact || batch == [])
    else if list[0].kind == Sample then
      var more := batch + [list[0]];
      if |more| == config.batchSize then Gathered(more, None, list[1..], false)
      else Gather(config, more, list[1..])
    else if list[0].kind == SendPacket && batch == [] then Gather(config, batch, list[1..])
    else if list[0].kind == NewSegment && |list| > 1 then Gathered(batch, Some(list[0]), list[2..], false)
    else Gathered(batch, Some(list[0]), list[1..], false)
  }

  /** FreeSamples. */
  function Freed(q: Queue): Queue {
    q.(list := [], batch := [], released := q.released + Samples(q.batch) + Samples(q.list))
  }

  /** The worker waits, or leaves with a batch and what ended it. */
  function Taken(q: Queue): Queue {
    var g := Gather(q.config, q.batch, q.list);
    if g.wait then q.(list := g.list, batch := g.batch, waiting := q.waiting + 1, worker := Waiting)
    else q.(list := g.list, batch := [],
            worker := Busy(if g.batch == [] then ToPacket else ToCheck, g.batch, g.packet))
  }

  /** The locked part of a turn of ThreadProc. */
  function AfterLoop(q: Queue): Queue {
    if q.terminate then Freed(q).(worker := Ended)
    else Taken(if q.flushing then Freed(q).(flushComplete := true) else q)
  }

  predicate Ends(w: Worker, kind: Kind) {
    w.Busy? && w.packet.Some? && w.packet.value.kind == kind
  }

  /** Where the worker goes from where it is outside the lock, given m_hr and what the pin answers
      if it is called. */
  function Onward(w: Worker, hr: int, answer: int): Worker
    requires w.Busy?
  {
    match w.stage
    case ToCheck => w.(stage := if hr == S_OK then ToCall else ToRelease)
    case ToCall => w.(stage := ToUpdate(answer))
    case ToUpdate(_) => w.(stage := ToRelease)
    case ToRelease => w.(stage := ToPacket, sending := [])
    case ToPacket =>
      if Ends(w, EosPacket) && hr == S_OK then w.(stage := ToEndOfStream)
      else if Ends(w, ResetPacket) then w.(stage := ToSignal)
      else AtLoop
    case ToEndOfStream => AtLoop
    case ToSignal => AtLoop
  }

  /** What the pin gets in a step of the worker: a batch, the end of the stream or a new segment. */
  function PassedOn(w: Worker): seq<Entry> {
    if !w.Busy? then []
    else if w.stage == ToCall then w.sending
    else if w.packet.Some? && (w.stage == ToEndOfStream || (w.stage == ToPacket && Ends(w, NewSegment))) then
      [w.packet.value]
    else []
  }

  function HrAfter(w: Worker, hr: int): int {
    if w.Busy? && w.stage.ToUpdate? && hr == S_OK then w.stage.answer
    else if w.Busy? && w.stage == ToPacket && Ends(w, ResetPacket) then S_OK
    else hr
  }

  function LetGo(w: Worker): seq<Entry> {
    if w.Busy? && w.stage == ToRelease then w.sending else []
  }

  function AfterBusy(q: Queue, answer: int): Queue
    requires q.worker.Busy?
  {
    var w := q.worker;
    q.(worker := Onward(w, q.hr, answer), hr := HrAfter(w, q.hr), delivered := q.delivered + PassedOn(w),
       released := q.released + Samples(LetGo(w)), flushComplete := q.flushComplete || w.stage == ToSignal)
  }

  function AfterWork(q: Queue, answer: int): Queue
    requires q.worker == AtLoop || q.worker.Busy?
  {
    if q.worker == AtLoop then AfterLoop(q) else AfterBusy(q, answer)
  }

  function After(q: Queue, a: Act): Queue
    requires Enabled(q, a)
  {
    match a
    case Receive(n) => AfterReceive(q, n)
    case SendAnyway => Notified(Queued(q, [SendPacket]))
    case EOS => AfterEOS(q)
    case CheckNewSegment => if q.hr == S_OK then q.(segmentCallers := q.segmentCallers + 1) else q
    case QueueNewSegment => AfterQueueNewSegment(q)
    case BeginFlush => AfterBeginFlush(q)
    case EndFlush => AfterEndFlush(q)
    case FlushWaited => q.(flusher := Woken, flushComplete := false)
    case ClearFlushing => q.(flusher := Cleared, flushing := false)
    case MarkFlushed => q.(flusher := Marked, flushed := true)
    case ClearHr => q.(flusher := NoFlush, hr := S_OK)
    case Reset => Notified(Queued(q, [ResetPacket]).(resetCallers := q.resetCallers + 1))
    case ResetReturns => q.(resetCallers := q.resetCallers - 1, flushComplete := false)
    case Terminate => Notified(q.(terminate := true, hr := S_FALSE))
    case Wake => q.(worker := AtLoop, semaphore := q.semaphore - 1)
    case Work(answer) => AfterWork(q, answer)
  }

  /** A queue that has just been made with a thread. */
  predicate Initial(q: Queue) {
    && q.config.batchSize > 0 && (q.config.exact ==> q.config.batchSize > 1)
    && q == Queue(q.config, [], [], 0, 0, S_OK, false, true, false, false, AtLoop, NoFlush, 0, 0, 0, [],
                  multiset{}, multiset{})
  }

  predicate Legal(q: Queue, acts: seq<Act>)
    decreases acts
  {
    acts != [] ==> Enabled(q, acts[0]) && Legal(After(q, acts[0]), acts[1..])
  }

  function Run(q: Queue, acts: seq<Act>): Queue
    requires Legal(q, acts)
    decreases acts
  {
    if acts == [] then q else Run(After(q, acts[0]), acts[1..])
  }

  lemma {:induction false} RunAppends(q: Queue, first: seq<Act>, second: seq<Act>)
    requires Legal(q, first) && Legal(Run(q, first), second)
    ensures Legal(q, first + second) && Run(q, first + second) == Run(Run(q, first), second)
    decreases first
  {
    hide After;
    if first == [] {
      assert first + second == second;
    } else {
      assert (first + second)[1..] == first[1..] + second;
      RunAppends(After(q, first[0]), first[1..], second);
    }
  }
}
