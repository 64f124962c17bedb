/** Exactly when the interleaver hands out its packets in order. */
module MergeOrder {
  import opened MuxPacket
  import opened StreamQueues

  /** In every run without flush in which each stream is written in order, the packets are handed out
      in order. */
  ghost predicate MergesInOrder(m: Mux) {
    forall acts | Legal(m, acts) && NoFlush(acts) && WrittenInOrder(Run(m, acts)) :: InOrder(Run(m, acts).delivered)
  }

  ghost predicate NoFlush(acts: seq<Act>) {
    forall k :: 0 <= k < |acts| ==> !IsFlush(acts[k])
  }

  /** That holds exactly if all active streams are interleaved, or none is. With both kinds, the one
      that is not may be empty while another's packet is handed out, and bring an earlier one later;
      with none, Read reports the end at once. */
  lemma MergesInOrderIff(m: Mux)
    requires Initial(m)
    ensures MergesInOrder(m) <==> AllInterleaved(m) || !HasInterleaved(m.streams)
  {
    hide Legal, Run, InOrder, WrittenInOrder;
    if AllInterleaved(m) || !HasInterleaved(m.streams) {
      forall acts | Legal(m, acts) && NoFlush(acts) && WrittenInOrder(Run(m, acts))
        ensures InOrder(Run(m, acts).delivered)
      {
        if AllInterleaved(m) {
          StableMerge(m, acts);
        } else {
          NothingHandedOut(m, acts);
          assert InOrder([]) by { NoneInOrder(); }
        }
      }
    } else {
      var b :| 0 <= b < |m.streams| && m.streams[b].active && !m.streams[b].interleaved;
      var e :| 0 <= e < |m.streams| && m.streams[e].active && m.streams[e].interleaved;
      var acts := LateAndEarly(m, b, e);
    }
  }

  /** For example: an interleaved stream beside one that is not. */
  lemma NotInterleavedBreaksOrder()
    ensures exists m :: Initial(m) && |m.streams| == 2 && !MergesInOrder(m)
  {
    var m := Mux([Stream(true, true, 10, [], true), Stream(false, true, 10, [], true)], false, [false, false],
                 [[], []], []);
    assert m.streams[0].active && m.streams[0].interleaved;
    assert !m.streams[1].interleaved;
    MergesInOrderIff(m);
  }

  lemma NoneInOrder()
    ensures InOrder([])
  {
  }

  lemma {:induction false} NothingHandedOut(m: Mux, acts: seq<Act>)
    requires !HasInterleaved(m.streams) && Legal(m, acts)
    ensures Run(m, acts).delivered == m.delivered
    decreases acts
  {
    if acts != [] {
      StaysEnded(m, acts[0]);
      NothingHandedOut(After(m, acts[0]), acts[1..]);
    }
  }

  lemma StaysEnded(m: Mux, a: Act)
    requires !HasInterleaved(m.streams) && Enabled(m, a)
    ensures !HasInterleaved(After(m, a).streams) && After(m, a).delivered == m.delivered
  {
    hide Lowest;
    assert AllAtEos(m.streams);
  }

  // ----- A run that is out of order -----

  function At(i: nat, time: int): Packet {
    Packet(i, time, time, false, 0, 0, true, false, [])
  }

  /** The first k streams but b hold one packet each, all of the same time. */
  predicate Filled(m0: Mux, m: Mux, k: nat, b: nat) {
    && |m0.streams| == |m.streams| == |m.granted| == |m.written| && k <= |m.streams|
    && m.delivered == []
    && (forall i :: 0 <= i < |m.streams| ==> !m.granted[i])
    && (forall i :: 0 <= i < |m.streams| ==>
          m.streams[i] == if i < k && i != b then Pushed(m0.streams[i], At(i, 10)) else m0.streams[i])
    && forall i :: 0 <= i < |m.streams| ==> m.written[i] == if i < k && i != b then [At(i, 10)] else []
  }

  /** Writing one packet: the producer waits for the event, which is set, and writes. */
  lemma Write(m: Mux, i: nat, p: Packet) returns (m': Mux)
    requires i < |m.streams| == |m.granted| == |m.written|
    requires !m.granted[i] && m.streams[i].canWrite && p.streamNo == i
    ensures Legal(m, [Grant(i), Put(i, p)]) && m' == Run(m, [Grant(i), Put(i, p)])
    ensures m' == m.(streams := m.streams[i := Pushed(m.streams[i], p)], canRead := true,
                     written := m.written[i := m.written[i] + [p]])
  {
    var g := After(m, Grant(i));
    m' := After(g, Put(i, p));
    assert [Grant(i), Put(i, p)][1..] == [Put(i, p)] && [Put(i, p)][1..] == [];
    assert Run(m', []) == m';
    assert Legal(g, [Put(i, p)]) && Run(g, [Put(i, p)]) == m';
    assert m.granted[i := true][i := false] == m.granted;
  }

  lemma {:induction false} Fill(m0: Mux, m: Mux, k: nat, b: nat) returns (acts: seq<Act>)
    requires Initial(m0) && Filled(m0, m, k, b)
    ensures Legal(m, acts) && NoFlush(acts) && Filled(m0, Run(m, acts), |m0.streams|, b)
    decreases |m0.streams| - k
  {
    hide Initial, Filled, Legal, Run, After;
    acts := [];
    Lengths(m0, m, k, b);
    if k == |m0.streams| {
      assert Legal(m, []) && Run(m, []) == m by { RunOfNone(m); }
    } else if k == b {
      SkipOne(m0, m, k, b);
      acts := Fill(m0, m, k + 1, b);
    } else {
      var m' := FillOne(m0, m, k, b);
      acts := Fill(m0, m', k + 1, b);
      Joined(m, [Grant(k), Put(k, At(k, 10))], acts);
      acts := [Grant(k), Put(k, At(k, 10))] + acts;
    }
  }

  lemma Lengths(m0: Mux, m: Mux, k: nat, b: nat)
    requires Filled(m0, m, k, b)
    ensures k <= |m0.streams| == |m.streams|
  {
  }

  lemma RunOfNone(m: Mux)
    ensures Legal(m, []) && Run(m, []) == m
  {
  }

  lemma SkipOne(m0: Mux, m: Mux, k: nat, b: nat)
    requires Filled(m0, m, k, b) && k == b < |m.streams|
    ensures Filled(m0, m, k + 1, b)
  {
  }

  lemma FillOne(m0: Mux, m: Mux, k: nat, b: nat) returns (m': Mux)
    requires Initial(m0) && Filled(m0, m, k, b) && b != k < |m.streams|
    ensures var acts := [Grant(k), Put(k, At(k, 10))]; Legal(m, acts) && m' == Run(m, acts)
    ensures Filled(m0, m', k + 1, b)
  {
    hide Legal, Run;
    m' := Write(m, k, At(k, 10));
    assert m'.written[k] == [] + [At(k, 10)] == [At(k, 10)];
  }

  lemma {:induction false} Joined(m: Mux, first: seq<Act>, second: seq<Act>)
    requires Legal(m, first) && Legal(Run(m, first), second)
    ensures Legal(m, first + second) && Run(m, first + second) == Run(Run(m, first), second)
    decreases first
  {
    hide After;
    if first == [] {
      assert first + second == second;
    } else {
      assert (first + second)[1..] == first[1..] + second;
      Joined(After(m, first[0]), first[1..], second);
    }
  }

  /** With all streams but b filled, Read hands out a packet of another stream f. */
  lemma FirstOut(m0: Mux, m: Mux, b: nat, e: nat) returns (f: nat, m': Mux)
    requires Initial(m0) && Filled(m0, m, |m0.streams|, b)
    requires b < |m.streams| && m0.streams[b].active && !m0.streams[b].interleaved
    requires e < |m.streams| && m0.streams[e].active && m0.streams[e].interleaved
    ensures f < |m.streams| && f != b && m0.streams[f].active
    ensures Legal(m, [Read]) && m' == Run(m, [Read])
    ensures m' == m.(streams := m.streams[f := m0.streams[f]], delivered := [At(f, 10)])
  {
    hide Legal, Run, AfterRead;
    f := FrontOfFilled(m0, m, b, e);
    m' := m.(streams := m.streams[f := m0.streams[f]], delivered := [At(f, 10)]);
    TakeIs(m, f, m0.streams[f], m');
    ReadAlone(m);
  }

  lemma FrontOfFilled(m0: Mux, m: Mux, b: nat, e: nat) returns (f: nat)
    requires Initial(m0) && Filled(m0, m, |m0.streams|, b)
    requires b < |m.streams| && m0.streams[b].active && !m0.streams[b].interleaved
    requires e < |m.streams| && m0.streams[e].active && m0.streams[e].interleaved
    ensures f < |m.streams| && f != b && m0.streams[f].active && m.streams[f].queue == [At(f, 10)]
    ensures Pass(m.streams) == Take(f) && Popped(m.streams[f]) == m0.streams[f] && !HasEmpty(m.streams)
  {
    hide Lowest, Filled, Initial, HasEmpty, AllAtEos;
    NoneMissing(m0, m, b, e);
    LowestIsStableMinimum(m.streams);
    f := Lowest(m.streams);
    ReadyIsFilled(m0, m, b, f);
  }

  lemma NoneMissing(m0: Mux, m: Mux, b: nat, e: nat)
    requires Initial(m0) && Filled(m0, m, |m0.streams|, b)
    requires b < |m.streams| && !m0.streams[b].interleaved
    requires e < |m.streams| && m0.streams[e].active && m0.streams[e].interleaved
    ensures Ready(m.streams[e]) && !HasEmpty(m.streams) && !AllAtEos(m.streams)
  {
    assert e != b && m.streams[e].queue == [At(e, 10)];
  }

  lemma ReadyIsFilled(m0: Mux, m: Mux, b: nat, f: nat)
    requires Initial(m0) && Filled(m0, m, |m0.streams|, b) && f < |m.streams| && Ready(m.streams[f])
    ensures f != b && m0.streams[f].active && m.streams[f].queue == [At(f, 10)]
    ensures Popped(m.streams[f]) == m0.streams[f] && !AtEos(m.streams[f])
  {
  }

  lemma TakeIs(m: Mux, f: nat, s: Stream, m': Mux)
    requires f < |m.streams| && m.streams[f].queue != [] && Popped(m.streams[f]) == s
    requires Pass(m.streams) == Take(f) && !HasEmpty(m.streams)
    requires m' == m.(streams := m.streams[f := s], delivered := m.delivered + [m.streams[f].queue[0]])
    ensures AfterRead(m) == m'
  {
  }

  lemma ReadAlone(m: Mux)
    ensures Legal(m, [Read]) && Run(m, [Read]) == AfterRead(m)
  {
    hide AfterRead;
    assert [Read][1..] == [];
    assert Run(After(m, Read), []) == AfterRead(m);
  }

  /** The stream b now brings an earlier packet, and Read hands it out. */
  lemma LastOut(m0: Mux, m: Mux, b: nat, e: nat) returns (m': Mux)
    requires Initial(m0) && |m0.streams| == |m.streams|
    requires b < |m.streams| && m0.streams[b].active && !m0.streams[b].interleaved
    requires e < |m.streams| && m0.streams[e].active && m0.streams[e].interleaved
    requires forall i :: 0 <= i < |m.streams| ==>
      m.streams[i] == Pushed(m0.streams[i], At(i, if i == b then 3 else 10))
    ensures Legal(m, [Read]) && m' == Run(m, [Read])
    ensures m'.delivered == m.delivered + [At(b, 3)] && m'.written == m.written
  {
    assert FrontTime(m.streams[b]) == 3;
    LowestUnique(m.streams, b);
    assert !AtEos(m.streams[e]) && !HasEmpty(m.streams);
    m' := AfterRead(m);
    ReadAlone(m);
  }

  lemma LateAndEarly(m: Mux, b: nat, e: nat) returns (acts: seq<Act>)
    requires Initial(m)
    requires b < |m.streams| && m.streams[b].active && !m.streams[b].interleaved
    requires e < |m.streams| && m.streams[e].active && m.streams[e].interleaved
    ensures Legal(m, acts) && NoFlush(acts) && WrittenInOrder(Run(m, acts)) && !InOrder(Run(m, acts).delivered)
  {
    hide Legal, Run, After, InOrder, WrittenInOrder, Filled;
    NoneFilled(m, b);
    acts := Fill(m, m, 0, b);
    var full := Run(m, acts);
    var rest := Overtaken(m, full, b, e);
    Joined(m, acts, rest);
    acts := acts + rest;
  }

  lemma NoneFilled(m: Mux, b: nat)
    requires Initial(m)
    ensures Filled(m, m, 0, b)
  {
  }

  lemma Overtaken(m: Mux, full: Mux, b: nat, e: nat) returns (acts: seq<Act>)
    requires Initial(m) && Filled(m, full, |m.streams|, b)
    requires b < |m.streams| && m.streams[b].active && !m.streams[b].interleaved
    requires e < |m.streams| && m.streams[e].active && m.streams[e].interleaved
    ensures Legal(full, acts) && NoFlush(acts)
    ensures WrittenInOrder(Run(full, acts)) && !InOrder(Run(full, acts).delivered)
  {
    hide Legal, Run, After, InOrder, WrittenInOrder;
    var f, m1 := FirstOut(m, full, b, e);
    var m2 := Write(m1, f, At(f, 10));
    var m3 := Write(m2, b, At(b, 3));
    var m4 := LastOut(m, m3, b, e);
    assert m2.written[b] == [] && [] + [At(b, 3)] == [At(b, 3)];
    BothWritten(m, full, m4, f, b);
    acts := FourParts(full, m1, m2, m3, m4, f, b);
  }

  lemma FourParts(full: Mux, m1: Mux, m2: Mux, m3: Mux, m4: Mux, f: nat, b: nat) returns (acts: seq<Act>)
    requires Legal(full, [Read]) && Run(full, [Read]) == m1
    requires Legal(m1, [Grant(f), Put(f, At(f, 10))]) && Run(m1, [Grant(f), Put(f, At(f, 10))]) == m2
    requires Legal(m2, [Grant(b), Put(b, At(b, 3))]) && Run(m2, [Grant(b), Put(b, At(b, 3))]) == m3
    requires Legal(m3, [Read]) && Run(m3, [Read]) == m4
    ensures Legal(full, acts) && NoFlush(acts) && Run(full, acts) == m4
  {
    hide Legal, Run, After;
    var refill, late := [Grant(f), Put(f, At(f, 10))], [Grant(b), Put(b, At(b, 3))];
    Joined(full, [Read], refill);
    Joined(full, [Read] + refill, late);
    Joined(full, [Read] + refill + late, [Read]);
    acts := [Read] + refill + late + [Read];
  }

  lemma BothWritten(m: Mux, full: Mux, m4: Mux, f: nat, b: nat)
    requires Filled(m, full, |m.streams|, b) && f < |full.written| && b < |full.written| && f != b
    requires m4.written == full.written[f := full.written[f] + [At(f, 10)]][b := [At(b, 3)]]
    requires m4.delivered == [At(f, 10), At(b, 3)]
    ensures WrittenInOrder(m4) && !InOrder(m4.delivered)
  {
    assert m4.delivered[0].rtStart > m4.delivered[1].rtStart;
  }

  // ----- A run that ends early -----

  /** For example: two interleaved streams, a packet for one and the end of the other. Read reports
      the end while the packet is still there. */
  lemma EndBeforeAllPackets()
    ensures exists m, acts :: Initial(m) && Legal(m, acts) && NoFlush(acts) && EndsEarly(Run(m, acts).streams)
  {
    hide Legal, Run;
    var s := Stream(true, true, 10, [], true);
    var m := Mux([s, s], false, [false, false], [[], []], []);
    var end := Packet(1, 0, 0, false, 0, 0, false, true, []);
    var m1 := Write(m, 0, At(0, 5));
    var m2 := Write(m1, 1, end);
    var first, second := [Grant(0), Put(0, At(0, 5))], [Grant(1), Put(1, end)];
    Joined(m, first, second);
    assert m2.streams == [Pushed(s, At(0, 5)), Pushed(s, end)];
    LowestUnique(m2.streams, 1);
    assert !AtEos(m2.streams[0]);
    assert EndsEarly(Run(m, first + second).streams);
  }
}
