/** The interleaver as a state machine: bounded packet queues with a write event each, one read
    event, a producer for every stream and the muxing thread that reads. */
module StreamQueues {
  import opened MuxPacket

  /** A CMuxInterStream: limit is its queue size, canWrite its event. */
  datatype Stream = Stream(interleaved: bool, active: bool, limit: nat, queue: seq<Packet>, canWrite: bool)

  /** The critical sections, with what is needed to speak about runs: whether the producer of a
      stream has seen the write event and not written yet, what was written to each stream, and
      what Read has handed out. */
  datatype Mux = Mux(
    streams: seq<Stream>,
    canRead: bool,
    granted: seq<bool>,
    written: seq<seq<Packet>>,
    delivered: seq<Packet>)

  // ----- One stream -----

  function Pushed(s: Stream, p: Packet): Stream {
    s.(queue := s.queue + [p], canWrite := if |s.queue| + 1 >= s.limit then false else s.canWrite)
  }

  function Popped(s: Stream): Stream
    requires s.queue != []
  {
    s.(queue := s.queue[1..], canWrite := if |s.queue| - 1 < s.limit then true else s.canWrite)
  }

  function Flushed(s: Stream): Stream {
    s.(queue := [], canWrite := true)
  }

  predicate AtEos(s: Stream) {
    s.queue != [] && s.queue[0].isEos
  }

  // ----- The scan of Read -----

  predicate Ready(s: Stream) {
    s.active && s.queue != []
  }

  function FrontTime(s: Stream): int
    requires s.queue != []
  {
    s.queue[0].rtStart
  }

  /** The stream the scan settles on: later streams only win with a strictly lower time. */
  function Lowest(ss: seq<Stream>): (r: int)
    ensures -1 <= r < |ss|
    ensures r >= 0 ==> Ready(ss[r])
  {
    if ss == [] then -1
    else
      var n := |ss| - 1;
      var l := Lowest(ss[..n]);
      if Ready(ss[n]) && (l == -1 || FrontTime(ss[n]) < FrontTime(ss[l])) then n else l
  }

  predicate HasEmpty(ss: seq<Stream>) {
    exists i :: 0 <= i < |ss| && ss[i].active && ss[i].interleaved && ss[i].queue == []
  }

  predicate HasInterleaved(ss: seq<Stream>) {
    exists i :: 0 <= i < |ss| && ss[i].active && ss[i].interleaved
  }

  predicate AllAtEos(ss: seq<Stream>) {
    forall i :: 0 <= i < |ss| && ss[i].active && ss[i].interleaved ==> AtEos(ss[i])
  }

  /** What one pass of the loop in Read ends with: nothing to hand out yet, the end of the stream
      (-3), or the first packet of a stream. */
  datatype Outcome = Again | End | Take(from: nat)

  function Pass(ss: seq<Stream>): (r: Outcome)
    ensures r.Take? ==> r.from < |ss| && Ready(ss[r.from]) && !ss[r.from].queue[0].isEos
  {
    if AllAtEos(ss) then End
    else if Lowest(ss) < 0 || HasEmpty(ss) then Again
    else if AtEos(ss[Lowest(ss)]) then End
    else Take(Lowest(ss))
  }

  /** The stream chosen has the least start time of all that have a packet; among equals, the
      lowest index. */
  lemma {:induction false} LowestIsStableMinimum(ss: seq<Stream>)
    ensures Lowest(ss) == -1 <==> forall i :: 0 <= i < |ss| ==> !Ready(ss[i])
    ensures forall i :: 0 <= i < |ss| && Ready(ss[i]) ==>
      && Lowest(ss) >= 0
      && FrontTime(ss[Lowest(ss)]) <= FrontTime(ss[i])
      && (i < Lowest(ss) ==> FrontTime(ss[Lowest(ss)]) < FrontTime(ss[i]))
  {
    if ss != [] {
      var n := |ss| - 1;
      LowestIsStableMinimum(ss[..n]);
      assert forall i :: 0 <= i < n ==> ss[..n][i] == ss[i];
    }
  }

  /** And nothing else could be chosen. */
  lemma LowestUnique(ss: seq<Stream>, l: nat)
    requires l < |ss| && Ready(ss[l])
    requires forall i :: 0 <= i < |ss| && Ready(ss[i]) ==>
      FrontTime(ss[l]) <= FrontTime(ss[i]) && (i < l ==> FrontTime(ss[l]) < FrontTime(ss[i]))
    ensures Lowest(ss) == l
  {
    LowestIsStableMinimum(ss);
  }

  /** When Read says end of stream: every interleaved stream is at its end; or all have a packet
      and some stream is at its end whose EOS packet, with its start time of 0, is chosen before
      the packets that the others still hold. */
  lemma EndIff(ss: seq<Stream>)
    requires forall i :: 0 <= i < |ss| && AtEos(ss[i]) ==> FrontTime(ss[i]) == 0
    ensures Pass(ss) == End <==>
      AllAtEos(ss) || (!HasEmpty(ss) && exists e :: 0 <= e < |ss| && EosWins(ss, e))
  {
    LowestIsStableMinimum(ss);
    if exists e :: 0 <= e < |ss| && EosWins(ss, e) {
      var e :| 0 <= e < |ss| && EosWins(ss, e);
      LowestUnique(ss, e);
    }
    if Pass(ss) == End && !AllAtEos(ss) {
      assert EosWins(ss, Lowest(ss));
    }
  }

  /** Stream e is at its end; no earlier stream has a packet at or before time 0, and no later one
      has a packet before time 0. */
  ghost predicate EosWins(ss: seq<Stream>, e: nat)
    requires e < |ss|
  {
    && ss[e].active && AtEos(ss[e])
    && forall i :: 0 <= i < |ss| && Ready(ss[i]) ==> if i < e then FrontTime(ss[i]) > 0 else FrontTime(ss[i]) >= 0
  }

  /** The packet in front of stream l is the next one: some interleaved stream is not at its end,
      each of them has a packet, and of all packets in front this one is the first in time, and
      among equals the one of the lowest index, and no EOS packet. */
  ghost predicate Next(ss: seq<Stream>, l: nat) {
    && (exists i :: 0 <= i < |ss| && ss[i].active && ss[i].interleaved && !AtEos(ss[i]))
    && (forall i :: 0 <= i < |ss| && ss[i].active && ss[i].interleaved ==> ss[i].queue != [])
    && l < |ss| && ss[l].active && ss[l].queue != [] && !ss[l].queue[0].isEos
    && forall i :: 0 <= i < |ss| && ss[i].active && ss[i].queue != [] ==>
      && ss[l].queue[0].rtStart <= ss[i].queue[0].rtStart
      && (i < l ==> ss[l].queue[0].rtStart < ss[i].queue[0].rtStart)
  }

  /** A pass takes the packet of a stream exactly when it is the next one. */
  lemma TakeIff(ss: seq<Stream>, l: nat)
    ensures Pass(ss) == Take(l) <==> Next(ss, l)
  {
    hide Lowest;
    LowestIsStableMinimum(ss);
    if Next(ss, l) {
      LowestUnique(ss, l);
    }
  }

  /** A pass has to go round again exactly when an interleaved stream has no packet. */
  lemma AgainIff(ss: seq<Stream>)
    ensures Pass(ss) == Again <==> exists i :: 0 <= i < |ss| && ss[i].active && ss[i].interleaved && ss[i].queue == []
  {
    hide Lowest;
    LowestIsStableMinimum(ss);
    if !AllAtEos(ss) && !HasEmpty(ss) {
      var i :| 0 <= i < |ss| && ss[i].active && ss[i].interleaved && !AtEos(ss[i]);
      assert Ready(ss[i]);
    }
  }

  ghost predicate EndsEarly(ss: seq<Stream>) {
    && Pass(ss) == End
    && (forall i :: 0 <= i < |ss| ==> ss[i].active && ss[i].interleaved && ss[i].queue != [])
    && exists i :: 0 <= i < |ss| && !AtEos(ss[i])
  }

  // ----- Steps -----

  datatype Act = Grant(i: nat) | Put(i: nat, p: Packet) | Read | FlushOne(i: nat) | FlushAll

  /** A producer first waits for the write event of its stream, and writes one packet after that. */
  predicate Enabled(m: Mux, a: Act) {
    match a
    case Grant(i) => i < |m.streams| && m.streams[i].canWrite && i < |m.granted| && !m.granted[i]
    case Put(i, p) => i < |m.streams| && i < |m.granted| && m.granted[i] && i < |m.written| && p.streamNo == i
    case Read => true
    case FlushOne(i) => i < |m.streams|
    case FlushAll => true
  }

  predicate AnyQueued(ss: seq<Stream>) {
    exists i :: 0 <= i < |ss| && ss[i].queue != []
  }

  function AfterRead(m: Mux): Mux {
    var m' := if HasEmpty(m.streams) then m.(canRead := false) else m;
    match Pass(m.streams)
    case Take(i) =>
      m'.(streams := m.streams[i := Popped(m.streams[i])], delivered := m.delivered + [m.streams[i].queue[0]])
    case _ => m'
  }

  function After(m: Mux, a: Act): Mux
    requires Enabled(m, a)
  {
    match a
    case Grant(i) => m.(granted := m.granted[i := true])
    case Put(i, p) =>
      m.(streams := m.streams[i := Pushed(m.streams[i], p)],
         canRead := true,
         granted := m.granted[i := false],
         written := m.written[i := m.written[i] + [p]])
    case Read => AfterRead(m)
    case FlushOne(i) =>
      var ss := m.streams[i := Flushed(m.streams[i])];
      m.(streams := ss, canRead := if AnyQueued(ss) then m.canRead else false)
    case FlushAll =>
      m.(streams := seq(|m.streams|, i requires 0 <= i < |m.streams| => Flushed(m.streams[i])), canRead := false)
  }

  predicate Legal(m: Mux, acts: seq<Act>)
    decreases acts
  {
    acts != [] ==> Enabled(m, acts[0]) && Legal(After(m, acts[0]), acts[1..])
  }

  function Run(m: Mux, acts: seq<Act>): Mux
    requires Legal(m, acts)
    decreases acts
  {
    if acts == [] then m else Run(After(m, acts[0]), acts[1..])
  }

  /** Streams as AddStream and StartStreaming set them up. */
  predicate Initial(m: Mux) {
    && !m.canRead && m.delivered == []
    && |m.granted| == |m.written| == |m.streams|
    && forall i :: 0 <= i < |m.streams| ==>
      && m.streams[i].queue == [] && m.streams[i].canWrite && m.streams[i].limit >= 1
      && !m.granted[i] && m.written[i] == []
  }

  // ----- Flow control -----

  ghost predicate Flow(m: Mux) {
    && |m.granted| == |m.written| == |m.streams|
    && (forall i :: 0 <= i < |m.streams| ==> FlowAt(m.streams[i], m.granted[i]))
    && (!m.canRead ==> HasEmpty(m.streams) || !AnyQueued(m.streams))
  }

  ghost predicate FlowAt(s: Stream, granted: bool) {
    && s.limit >= 1
    && (s.canWrite <==> |s.queue| < s.limit)
    && |s.queue| <= s.limit
    && (granted ==> |s.queue| < s.limit)
  }

  lemma FlowInitially(m: Mux)
    requires Initial(m)
    ensures Flow(m)
  {
  }

  lemma FlowKept(m: Mux, a: Act)
    requires Flow(m) && Enabled(m, a)
    ensures Flow(After(m, a))
  {
    var m' := After(m, a);
    if a.FlushOne? && !m'.canRead && AnyQueued(m'.streams) {
      var i :| 0 <= i < |m.streams| && m.streams[i].active && m.streams[i].interleaved && m.streams[i].queue == [];
      assert m'.streams[i].active && m'.streams[i].interleaved && m'.streams[i].queue == [];
    }
  }

  lemma {:induction false} FlowAlways(m: Mux, acts: seq<Act>)
    requires Flow(m) && Legal(m, acts)
    ensures Flow(Run(m, acts))
    decreases acts
  {
    if acts != [] {
      FlowKept(m, acts[0]);
      FlowAlways(After(m, acts[0]), acts[1..]);
    }
  }

  /** The reader waits for the read event; a producer waits while the write event of its stream is
      reset. */
  predicate ReaderBlocked(m: Mux) {
    !m.canRead
  }

  predicate ProducerBlocked(m: Mux, i: nat)
    requires i < |m.streams| && i < |m.granted|
  {
    !m.granted[i] && !m.streams[i].canWrite
  }

  /** In every reachable state: no queue exceeds its limit, a write event is set exactly while its
      queue is below the limit, and some thread can go on. */
  lemma FlowControl(m0: Mux, acts: seq<Act>)
    requires Initial(m0) && Legal(m0, acts)
    ensures var m := Run(m0, acts);
      && |m.granted| == |m.streams|
      && (forall i :: 0 <= i < |m.streams| ==>
            |m.streams[i].queue| <= m.streams[i].limit
            && (m.streams[i].canWrite <==> |m.streams[i].queue| < m.streams[i].limit))
      && (!m.canRead && HasInterleaved(m.streams) ==> HasEmpty(m.streams))
      && (m.streams != [] ==>
            !(ReaderBlocked(m) && forall i :: 0 <= i < |m.streams| ==> ProducerBlocked(m, i)))
  {
    FlowInitially(m0);
    FlowAlways(m0, acts);
    var m := Run(m0, acts);
    if m.streams != [] && !m.canRead {
      if HasEmpty(m.streams) {
        var i :| 0 <= i < |m.streams| && m.streams[i].active && m.streams[i].interleaved && m.streams[i].queue == [];
        assert FlowAt(m.streams[i], m.granted[i]);
        assert !ProducerBlocked(m, i);
      } else {
        assert FlowAt(m.streams[0], m.granted[0]);
        assert !ProducerBlocked(m, 0);
      }
    }
  }

  // ----- Nothing deliverable stays -----

  function Queued(ss: seq<Stream>): nat {
    if ss == [] then 0 else |ss[0].queue| + Queued(ss[1..])
  }

  /** n passes, one after the other. */
  function Reads(m: Mux, n: nat): Mux
    decreases n
  {
    if n == 0 then m else Reads(AfterRead(m), n - 1)
  }

  lemma {:induction false} QueuedAfter(ss: seq<Stream>, i: nat, s: Stream)
    requires i < |ss| && |s.queue| + 1 == |ss[i].queue|
    ensures Queued(ss[i := s]) + 1 == Queued(ss)
  {
    if i == 0 {
      assert ss[0 := s][1..] == ss[1..];
    } else {
      assert ss[i := s][1..] == ss[1..][i - 1 := s];
      QueuedAfter(ss[1..], i - 1, s);
    }
  }

  /** A pass hands out the next packet, if there is one, and otherwise leaves the streams alone; and
      the reader goes on unless an interleaved stream has no packet. */
  lemma OnePass(m: Mux)
    ensures var m' := AfterRead(m);
      && (m'.canRead <==> m.canRead && forall i ::
            0 <= i < |m.streams| && m.streams[i].active && m.streams[i].interleaved ==> m.streams[i].queue != [])
      && |m'.delivered| + Queued(m'.streams) == |m.delivered| + Queued(m.streams)
      && m.delivered <= m'.delivered
      && (forall l: nat :: Next(m.streams, l) ==> m'.delivered == m.delivered + [m.streams[l].queue[0]])
      && ((forall l: nat :: !Next(m.streams, l)) ==> m'.streams == m.streams && m'.delivered == m.delivered)
  {
    hide Next, Lowest, AllAtEos;
    forall l: nat
      ensures Pass(m.streams) == Take(l) <==> Next(m.streams, l)
    {
      TakeIff(m.streams, l);
    }
    if Pass(m.streams).Take? {
      var f := Pass(m.streams).from;
      QueuedAfter(m.streams, f, Popped(m.streams[f]));
    }
  }

  /** As many passes as there are packets hand out everything that can be: then there is no next
      packet. Nothing is lost on the way, and what was handed out stays. */
  lemma {:induction false} PassesDrain(m: Mux, n: nat)
    ensures var r := Reads(m, n);
      && |r.delivered| + Queued(r.streams) == |m.delivered| + Queued(m.streams)
      && m.delivered <= r.delivered
      && (n >= Queued(m.streams) ==> forall l: nat :: !Next(r.streams, l))
      && ((exists l: nat :: Next(r.streams, l)) ==> |r.delivered| == |m.delivered| + n)
    decreases n
  {
    hide Next, AfterRead, Queued;
    if n == 0 {
      if Queued(m.streams) == 0 {
        forall l: nat
          ensures !Next(m.streams, l)
        {
          NothingNext(m.streams, l);
        }
      }
    } else {
      OnePass(m);
      PassesDrain(AfterRead(m), n - 1);
      if forall l: nat :: !Next(m.streams, l) {
        NoneStays(m, n);
      }
    }
  }

  lemma NothingNext(ss: seq<Stream>, l: nat)
    requires Queued(ss) == 0
    ensures !Next(ss, l)
  {
    if l < |ss| {
      NoneQueued(ss, l);
    }
  }

  lemma {:induction false} NoneQueued(ss: seq<Stream>, l: nat)
    requires l < |ss| && Queued(ss) == 0
    ensures ss[l].queue == []
  {
    if l > 0 {
      NoneQueued(ss[1..], l - 1);
    }
  }

  lemma {:induction false} NoneStays(m: Mux, n: nat)
    requires forall l: nat :: !Next(m.streams, l)
    ensures Reads(m, n).streams == m.streams
    decreases n
  {
    hide Next, AfterRead;
    if n > 0 {
      OnePass(m);
      NoneStays(AfterRead(m), n - 1);
    }
  }

  /** And the muxing thread does not sleep while there is a next packet. */
  lemma NextWakesReader(m0: Mux, acts: seq<Act>, l: nat)
    requires Initial(m0) && Legal(m0, acts) && Next(Run(m0, acts).streams, l)
    ensures !ReaderBlocked(Run(m0, acts))
  {
    hide Run, Legal;
    FlowInitially(m0);
    FlowAlways(m0, acts);
    assert Run(m0, acts).streams[l].queue != [];
  }

  // ----- The merge -----

  /** The packets of one stream, in the order they were handed out. */
  function From(ps: seq<Packet>, i: int): seq<Packet> {
    if ps == [] then []
    else
      var n := |ps| - 1;
      From(ps[..n], i) + (if ps[n].streamNo == i then [ps[n]] else [])
  }

  lemma FromAppend(ps: seq<Packet>, p: Packet, i: int)
    ensures From(ps + [p], i) == From(ps, i) + (if p.streamNo == i then [p] else [])
  {
    assert (ps + [p])[..|ps|] == ps;
  }

  /** The packets that carry data come in non-decreasing start times. */
  ghost predicate NonDecreasing(ps: seq<Packet>) {
    forall j, k :: 0 <= j < k < |ps| && !ps[j].isEos && !ps[k].isEos ==> ps[j].rtStart <= ps[k].rtStart
  }

  /** Every packet written to a stream was handed out or is still queued, in the order written. */
  ghost predicate Fifo(m: Mux) {
    && |m.granted| == |m.written| == |m.streams|
    && (forall i :: 0 <= i < |m.streams| ==>
          m.written[i] == From(m.delivered, i) + m.streams[i].queue)
    && (forall i, k :: 0 <= i < |m.streams| && 0 <= k < |m.streams[i].queue| ==>
          m.streams[i].queue[k].streamNo == i)
    && forall k :: 0 <= k < |m.delivered| ==> !m.delivered[k].isEos && 0 <= m.delivered[k].streamNo < |m.streams|
  }

  predicate IsFlush(a: Act) {
    a.FlushOne? || a.FlushAll?
  }

  lemma FifoKept(m: Mux, a: Act)
    requires Fifo(m) && Enabled(m, a) && !IsFlush(a)
    ensures Fifo(After(m, a))
  {
    hide Lowest, HasEmpty, AllAtEos, From;
    if a.Read? && Pass(m.streams).Take? {
      var f := Pass(m.streams).from;
      var p, q := m.streams[f].queue[0], m.streams[f].queue;
      assert q == [p] + q[1..] && p.streamNo == f;
      forall i | 0 <= i < |m.streams|
        ensures From(m.delivered + [p], i) == From(m.delivered, i) + (if i == f then [p] else [])
      {
        FromAppend(m.delivered, p, i);
      }
    }
  }

  /** Nothing that can still be handed out is earlier than what was: stream by stream, it is at its
      end, or what it holds and what was ever written last is not earlier than t. */
  ghost predicate NotBefore(s: Stream, written: seq<Packet>, t: int) {
    AtEos(s) ||
      ((forall k :: 0 <= k < |s.queue| && !s.queue[k].isEos ==> t <= s.queue[k].rtStart)
       && exists k :: 0 <= k < |written| && !written[k].isEos && t <= written[k].rtStart)
  }

  predicate AllInterleaved(m: Mux) {
    forall i :: 0 <= i < |m.streams| && m.streams[i].active ==> m.streams[i].interleaved
  }

  ghost predicate InOrder(ps: seq<Packet>) {
    forall j, k :: 0 <= j < k < |ps| ==> ps[j].rtStart <= ps[k].rtStart
  }

  ghost predicate Merged(m: Mux) {
    && Fifo(m)
    && AllInterleaved(m)
    && InOrder(m.delivered)
    && (m.delivered != [] ==> forall i :: 0 <= i < |m.streams| && m.streams[i].active ==>
          NotBefore(m.streams[i], m.written[i], m.delivered[|m.delivered| - 1].rtStart))
  }

  ghost predicate WrittenInOrder(m: Mux) {
    forall i :: 0 <= i < |m.written| ==> NonDecreasing(m.written[i])
  }

  lemma MergedKept(m: Mux, a: Act)
    requires Merged(m) && Enabled(m, a) && !IsFlush(a)
    requires WrittenInOrder(m) && WrittenInOrder(After(m, a))
    ensures Merged(After(m, a))
  {
    FifoKept(m, a);
    match a
    case Grant(_) =>
    case Put(i, p) =>
      if m.delivered != [] && m.streams[i].active {
        PutKeepsNotBefore(m.streams[i], m.written[i], p, m.delivered[|m.delivered| - 1].rtStart);
      }
    case Read =>
      if Pass(m.streams).Take? {
        TakeKeepsMerged(m);
      }
  }

  lemma PutKeepsNotBefore(s: Stream, written: seq<Packet>, p: Packet, t: int)
    requires NotBefore(s, written, t) && NonDecreasing(written + [p])
    ensures NotBefore(Pushed(s, p), written + [p], t)
  {
    if !AtEos(s) {
      var k :| 0 <= k < |written| && !written[k].isEos && t <= written[k].rtStart;
      var w := written + [p];
      assert w[k] == written[k] && w[|written|] == p;
    }
  }

  lemma TakeKeepsMerged(m: Mux)
    requires Merged(m) && WrittenInOrder(m) && Pass(m.streams).Take?
    requires Fifo(AfterRead(m))
    ensures Merged(AfterRead(m))
  {
    hide Fifo, WrittenInOrder, NotBefore, AfterRead, Pass, InOrder;
    var f := Pass(m.streams).from;
    var p := m.streams[f].queue[0];
    SameLength(m);
    TakeResult(m);
    if m.delivered != [] {
      NotEarlier(m.streams[f], m.written[f], m.delivered[|m.delivered| - 1].rtStart);
    }
    InOrderAppend(m.delivered, p);
    forall i | 0 <= i < |m.streams| && m.streams[i].active
      ensures NotBefore(AfterRead(m).streams[i], m.written[i], p.rtStart)
    {
      TakenFrom(m, f, i);
    }
  }

  lemma SameLength(m: Mux)
    requires Fifo(m)
    ensures |m.written| == |m.streams|
  {
  }

  lemma TakeResult(m: Mux)
    requires Pass(m.streams).Take?
    ensures var m', f := AfterRead(m), Pass(m.streams).from;
      && m'.delivered == m.delivered + [m.streams[f].queue[0]] && m'.written == m.written
      && |m'.streams| == |m.streams| && m'.streams == m.streams[f := Popped(m.streams[f])]
  {
    hide Pass;
  }

  lemma NotEarlier(s: Stream, written: seq<Packet>, t: int)
    requires NotBefore(s, written, t) && s.queue != [] && !AtEos(s)
    ensures t <= FrontTime(s)
  {
  }

  lemma InOrderAppend(ps: seq<Packet>, p: Packet)
    requires InOrder(ps) && (ps != [] ==> ps[|ps| - 1].rtStart <= p.rtStart)
    ensures InOrder(ps + [p])
  {
  }

  lemma TakenFrom(m: Mux, f: nat, i: nat)
    requires Fifo(m) && WrittenInOrder(m) && AllInterleaved(m) && |m.written| == |m.streams|
    requires Pass(m.streams) == Take(f) && i < |m.streams| && m.streams[i].active
    ensures NotBefore(AfterRead(m).streams[i], m.written[i], m.streams[f].queue[0].rtStart)
  {
    hide Lowest, From, Fifo, NonDecreasing, NotBefore, AfterRead;
    TakeResult(m);
    NextIsLeast(m, f, i);
    QueueIsTail(m, i);
    assert NonDecreasing(m.written[i]);
    TailNotBefore(m.streams[i], m.written[i], |From(m.delivered, i)|, FrontTime(m.streams[f]), i == f);
  }

  lemma NextIsLeast(m: Mux, f: nat, i: nat)
    requires AllInterleaved(m) && Pass(m.streams) == Take(f) && i < |m.streams| && m.streams[i].active
    ensures Ready(m.streams[i]) && FrontTime(m.streams[f]) <= FrontTime(m.streams[i]) && !AtEos(m.streams[f])
  {
    hide Lowest;
    LowestIsStableMinimum(m.streams);
  }

  lemma QueueIsTail(m: Mux, i: nat)
    requires Fifo(m) && i < |m.streams|
    ensures |m.written| == |m.streams|
    ensures |From(m.delivered, i)| + |m.streams[i].queue| == |m.written[i]|
    ensures m.written[i][|From(m.delivered, i)|..] == m.streams[i].queue
  {
  }

  /** A queue whose first packet is not before t holds nothing before t, popped or not. */
  lemma TailNotBefore(s: Stream, written: seq<Packet>, n: nat, t: int, popped: bool)
    requires n <= |written| && written[n..] == s.queue && s.queue != []
    requires NonDecreasing(written) && t <= FrontTime(s) && (popped ==> !AtEos(s))
    ensures NotBefore(if popped then Popped(s) else s, written, t)
  {
    if !AtEos(s) {
      assert written[n] == s.queue[0];
      assert forall k :: 0 <= k < |s.queue| ==> s.queue[k] == written[n + k];
    }
  }

  lemma {:induction false} MergedAlways(m: Mux, acts: seq<Act>)
    requires Merged(m) && Legal(m, acts) && (forall k :: 0 <= k < |acts| ==> !IsFlush(acts[k]))
    requires WrittenInOrder(Run(m, acts))
    ensures WrittenInOrder(m) && Merged(Run(m, acts))
    decreases acts
  {
    if acts != [] {
      WrittenGrows(m, acts);
      OrderOfPrefix(m, Run(m, acts));
      WrittenGrows(After(m, acts[0]), acts[1..]);
      OrderOfPrefix(After(m, acts[0]), Run(m, acts));
      MergedKept(m, acts[0]);
      MergedAlways(After(m, acts[0]), acts[1..]);
    }
  }

  ghost predicate WrittenPrefix(m: Mux, m': Mux) {
    |m.written| == |m'.written| && forall i :: 0 <= i < |m.written| ==> m.written[i] <= m'.written[i]
  }

  lemma {:induction false} WrittenGrows(m: Mux, acts: seq<Act>)
    requires Legal(m, acts)
    ensures WrittenPrefix(m, Run(m, acts))
    decreases acts
  {
    if acts != [] {
      WrittenGrows(After(m, acts[0]), acts[1..]);
    }
  }

  lemma OrderOfPrefix(m: Mux, m': Mux)
    requires WrittenPrefix(m, m') && WrittenInOrder(m')
    ensures WrittenInOrder(m)
  {
    forall i | 0 <= i < |m.written|
      ensures NonDecreasing(m.written[i])
    {
      assert m.written[i] <= m'.written[i];
    }
  }

  /** Without flushes, and with every stream written in order, what Read hands out is in order,
      and restricted to one stream it is a prefix of what was written to that stream. */
  lemma StableMerge(m0: Mux, acts: seq<Act>)
    requires Initial(m0) && AllInterleaved(m0) && Legal(m0, acts)
    requires forall k :: 0 <= k < |acts| ==> !IsFlush(acts[k])
    requires WrittenInOrder(Run(m0, acts))
    ensures var m := Run(m0, acts);
      && |m.written| == |m.streams| == |m0.streams|
      && InOrder(m.delivered)
      && (forall i :: 0 <= i < |m.streams| ==> From(m.delivered, i) <= m.written[i])
      && forall k :: 0 <= k < |m.delivered| ==> !m.delivered[k].isEos && 0 <= m.delivered[k].streamNo < |m.streams|
  {
    MergedAlways(m0, acts);
    WrittenGrows(m0, acts);
  }
}
