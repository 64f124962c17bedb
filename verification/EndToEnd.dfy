/** The interleaver and the writer together: what arrives in order on each stream ends up in order
    in the file, and nothing is dropped. */
module EndToEnd {
  import opened Words
  import opened MuxPacket
  import opened FlvFile
  import W = FlvTags
  import SQ = StreamQueues

  lemma TruncDivMonotone(x: int, y: int)
    requires x <= y
    ensures TruncDiv(x, 10000) <= TruncDiv(y, 10000)
  {
  }

  /** Packets that the writer times by their start time, in the order of those times. */
  ghost predicate Timed(qs: seq<(Packet, W.Kind)>) {
    && (forall i :: 0 <= i < |qs| ==> qs[i].1 != W.Other && !qs[i].0.timestampEx)
    && forall i, j :: 0 <= i < j < |qs| ==> qs[i].0.rtStart <= qs[j].0.rtStart
  }

  /** The time of a packet since the first one, in milliseconds. */
  function Offset(qs: seq<(Packet, W.Kind)>, k: nat): int
    requires k < |qs|
  {
    W.StartMs(qs[k].0) - W.StartMs(qs[0].0)
  }

  lemma OffsetsInOrder(qs: seq<(Packet, W.Kind)>, j: nat, k: nat)
    requires Timed(qs) && j <= k < |qs|
    ensures 0 <= Offset(qs, j) <= Offset(qs, k)
  {
    TruncDivMonotone(qs[0].0.rtStart, qs[j].0.rtStart);
    TruncDivMonotone(qs[j].0.rtStart, qs[k].0.rtStart);
  }

  /** Every packet of an ordered run becomes one tag, with its offset in the timestamp fields; the
      duration ends as the last, and largest, offset. n is the number of tags in front of them. */
  ghost predicate AllWritten(s0: W.Track, s: W.Track, qs: seq<(Packet, W.Kind)>, n: nat) {
    && |s.tags| == n + |qs|
    && s0.tags <= s.tags
    && (forall k :: 0 <= k < |qs| ==> s.tags[n + k].timestamp == Offset(qs, k) % TWO32)
    && (qs != [] ==>
          && !s.isFirst && s.firstMs == W.StartMs(qs[0].0)
          && s.durationMs == s.lastMs == Offset(qs, |qs| - 1))
  }

  lemma {:induction false} OrderedRun(c: W.Config, s0: W.Track, qs: seq<(Packet, W.Kind)>)
    requires W.AllWritable(c, qs) && Timed(qs) && s0.isFirst && qs != []
    ensures AllWritten(s0, W.Run(c, s0, qs), qs, |s0.tags| + |W.VideoExtraTags(c)| + |W.AudioExtraTags(c)|)
  {
    hide W.VideoExtraTags, W.AudioExtraTags, W.Step, W.Writable, TruncDiv;
    var n := |s0.tags| + |W.VideoExtraTags(c)| + |W.AudioExtraTags(c)|;
    var last := |qs| - 1;
    var init := qs[..last];
    var s := W.Run(c, s0, init);
    OffsetsInOrder(qs, 0, last);
    if init == [] {
      FirstStep(c, s0, qs[last]);
    } else {
      OrderedRun(c, s0, init);
      assert forall k :: 0 <= k < last ==> Offset(init, k) == Offset(qs, k);
      LaterStep(c, s, qs[last], Offset(qs, last));
    }
  }

  lemma FirstStep(c: W.Config, s: W.Track, q: (Packet, W.Kind))
    requires W.ExtraWritable(c) && W.Writable(c, q.0, q.1) && q.1 != W.Other && s.isFirst
    ensures var r := W.Step(c, s, q.0, q.1); var n := |s.tags| + |W.VideoExtraTags(c)| + |W.AudioExtraTags(c)|;
      && |r.tags| == n + 1 && s.tags <= r.tags && r.tags[n].timestamp == 0
      && !r.isFirst && r.firstMs == W.StartMs(q.0) && r.durationMs == r.lastMs == 0
  {
    hide W.TagData, W.VideoExtraTags, W.AudioExtraTags, TruncDiv;
  }

  lemma LaterStep(c: W.Config, s: W.Track, q: (Packet, W.Kind), offset: nat)
    requires W.ExtraWritable(c) && W.Writable(c, q.0, q.1) && q.1 != W.Other && !s.isFirst
    requires offset == W.StartMs(q.0) - s.firstMs
    ensures var r := W.Step(c, s, q.0, q.1);
      && |r.tags| == |s.tags| + 1 && s.tags <= r.tags && r.tags[|s.tags|].timestamp == offset % TWO32
      && !r.isFirst && r.firstMs == s.firstMs && r.durationMs == r.lastMs == offset
  {
    hide W.TagData, TruncDiv;
  }

  /** When the writer drops a packet: it lies before the first one, by whole milliseconds. */
  lemma DroppedIff(c: W.Config, s: W.Track, p: Packet, kind: W.Kind)
    requires W.ExtraWritable(c) && W.Writable(c, p, kind) && kind != W.Other
    ensures W.Step(c, s, p, kind).tags == W.Opened(c, s, p).tags <==>
      !s.isFirst && W.StartMs(p) < s.firstMs
  {
    hide W.TagData, W.VideoExtraTags, W.AudioExtraTags, TruncDiv;
  }

  // ----- Interleaver and writer -----

  /** The packets the muxing thread hands to the writer, each with the kind of its stream. */
  function Handed(ps: seq<Packet>, kinds: seq<W.Kind>): (r: seq<(Packet, W.Kind)>)
    requires forall k :: 0 <= k < |ps| ==> 0 <= ps[k].streamNo < |kinds|
    ensures |r| == |ps| && forall k :: 0 <= k < |ps| ==> r[k] == (ps[k], kinds[ps[k].streamNo])
  {
    seq(|ps|, k requires 0 <= k < |ps| => (ps[k], kinds[ps[k].streamNo]))
  }

  lemma {:induction false} AllKept(qs: seq<(Packet, W.Kind)>, firstMs: int)
    requires forall k :: 0 <= k < |qs| ==> qs[k].1 != W.Other && W.Millis(W.TimeOf(qs[k].0)) >= firstMs
    ensures W.Kept(qs, firstMs) == qs
  {
    hide W.Millis;
    if qs != [] {
      AllKept(qs[1..], firstMs);
    }
  }

  /** An ordered run loses no packet in the writer. */
  lemma NoneDropped(qs: seq<(Packet, W.Kind)>)
    requires Timed(qs) && qs != []
    ensures W.FirstMs(qs).Some? && W.Kept(qs, W.FirstMs(qs).value) == qs
  {
    hide TruncDiv, W.Millis;
    var firstMs := W.Millis(W.TimeOf(qs[0].0));
    forall k | 0 <= k < |qs|
      ensures W.Millis(W.TimeOf(qs[k].0)) >= firstMs
    {
      OffsetsInOrder(qs, 0, k);
      W.MillisIs(qs[0].0.rtStart);
      W.MillisIs(qs[k].0.rtStart);
    }
    AllKept(qs, firstMs);
  }

  /** For every run of producers and muxing thread without a flush: if each stream was written in
      order and without extended timestamps, every packet handed out becomes a tag, the times in
      the file do not decrease, the duration is their maximum, and a player reads each packet back. */
  lemma EndToEndInOrder(m0: SQ.Mux, acts: seq<SQ.Act>, kinds: seq<W.Kind>, c: W.Config, s0: W.Track)
    requires SQ.Initial(m0) && SQ.AllInterleaved(m0) && SQ.Legal(m0, acts)
    requires forall k :: 0 <= k < |acts| ==> !SQ.IsFlush(acts[k])
    requires SQ.WrittenInOrder(SQ.Run(m0, acts))
    requires |kinds| == |m0.streams| && forall i :: 0 <= i < |kinds| ==> kinds[i] != W.Other
    requires forall k :: 0 <= k < |acts| && acts[k].Put? && !acts[k].p.isEos ==> !acts[k].p.timestampEx
    requires forall k :: 0 <= k < |acts| && acts[k].Put? && !acts[k].p.isEos && 0 <= acts[k].p.streamNo < |kinds| ==>
      W.Writable(c, acts[k].p, kinds[acts[k].p.streamNo])
    requires W.ExtraWritable(c) && s0.isFirst
    ensures var ps := SQ.Run(m0, acts).delivered;
      && (forall k :: 0 <= k < |ps| ==> 0 <= ps[k].streamNo < |kinds|)
      && var qs := Handed(ps, kinds);
        && Timed(qs) && W.AllWritable(c, qs)
        && (qs != [] ==> AllWritten(s0, W.Run(c, s0, qs), qs,
              |s0.tags| + |W.VideoExtraTags(c)| + |W.AudioExtraTags(c)|))
        && (forall j, k :: 0 <= j <= k < |qs| ==> 0 <= Offset(qs, j) <= Offset(qs, k))
        && W.RunShows(c, qs, s0, W.Run(c, s0, qs))
        && (qs != [] ==> W.FirstMs(qs).Some? && W.Kept(qs, W.FirstMs(qs).value) == qs)
  {
    SQ.StableMerge(m0, acts);
    var ps := SQ.Run(m0, acts).delivered;
    DeliveredWereWritten(m0, acts);
    var qs := Handed(ps, kinds);
    hide W.Writable, SQ.Legal, SQ.Run;
    assert Timed(qs);
    forall j, k | 0 <= j <= k < |qs|
      ensures 0 <= Offset(qs, j) <= Offset(qs, k)
    {
      OffsetsInOrder(qs, j, k);
    }
    W.RunReadsBack(c, s0, qs);
    if qs != [] {
      OrderedRun(c, s0, qs);
      NoneDropped(qs);
    }
  }

  ghost predicate PutIn(p: Packet, acts: seq<SQ.Act>) {
    exists k :: 0 <= k < |acts| && acts[k].Put? && acts[k].p == p
  }

  /** Whatever is queued or was handed out came in through a write. */
  lemma DeliveredWereWritten(m0: SQ.Mux, acts: seq<SQ.Act>)
    requires SQ.Initial(m0) && SQ.Legal(m0, acts)
    ensures forall k :: 0 <= k < |SQ.Run(m0, acts).delivered| ==> PutIn(SQ.Run(m0, acts).delivered[k], acts)
  {
    OnlyWritten(m0, [], acts);
    assert [] + acts == acts;
  }

  ghost predicate AllPutIn(m: SQ.Mux, acts: seq<SQ.Act>) {
    && (forall k :: 0 <= k < |m.delivered| ==> PutIn(m.delivered[k], acts))
    && forall i, k :: 0 <= i < |m.streams| && 0 <= k < |m.streams[i].queue| ==> PutIn(m.streams[i].queue[k], acts)
  }

  lemma {:induction false} OnlyWritten(m: SQ.Mux, before: seq<SQ.Act>, acts: seq<SQ.Act>)
    requires AllPutIn(m, before) && SQ.Legal(m, acts)
    ensures AllPutIn(SQ.Run(m, acts), before + acts)
    decreases acts
  {
    if acts == [] {
      assert before + acts == before;
    } else {
      OneMore(m, before, acts[0]);
      OnlyWritten(SQ.After(m, acts[0]), before + [acts[0]], acts[1..]);
      assert before + [acts[0]] + acts[1..] == before + acts;
    }
  }

  lemma OneMore(m: SQ.Mux, before: seq<SQ.Act>, a: SQ.Act)
    requires AllPutIn(m, before) && SQ.Enabled(m, a)
    ensures AllPutIn(SQ.After(m, a), before + [a])
  {
    forall p | PutIn(p, before)
      ensures PutIn(p, before + [a])
    {
      var k :| 0 <= k < |before| && before[k].Put? && before[k].p == p;
      assert (before + [a])[k] == before[k];
    }
    if a.Put? {
      assert (before + [a])[|before|] == a;
      assert PutIn(a.p, before + [a]);
    }
    hide PutIn, SQ.Lowest, SQ.HasEmpty, SQ.AllAtEos;
  }

  // ----- The timestamp field -----

  /** The file shows an offset exactly while it is below 2^32 ms; so do all tags of an ordered run
      exactly when its last one does. */
  lemma TimestampsExactIff(s0: W.Track, s: W.Track, qs: seq<(Packet, W.Kind)>, n: nat)
    requires AllWritten(s0, s, qs, n) && Timed(qs) && qs != []
    ensures (forall k :: 0 <= k < |qs| ==> s.tags[n + k].timestamp == Offset(qs, k)) <==> s.durationMs < TWO32
  {
    var last := |qs| - 1;
    forall k | 0 <= k < |qs|
      ensures 0 <= Offset(qs, k) <= Offset(qs, last)
    {
      OffsetsInOrder(qs, k, last);
    }
    hide Offset;
    assert s.tags[n + last].timestamp < TWO32;
  }

  lemma TimestampsInOrder(s0: W.Track, s: W.Track, qs: seq<(Packet, W.Kind)>, n: nat)
    requires AllWritten(s0, s, qs, n) && Timed(qs) && qs != [] && s.durationMs < TWO32
    ensures forall j, k :: n <= j <= k < |s.tags| ==> s.tags[j].timestamp <= s.tags[k].timestamp
  {
    TimestampsExactIff(s0, s, qs, n);
    forall j, k | n <= j <= k < |s.tags|
      ensures s.tags[j].timestamp <= s.tags[k].timestamp
    {
      OffsetsInOrder(qs, j - n, k - n);
      assert s.tags[n + (j - n)].timestamp == Offset(qs, j - n);
      assert s.tags[n + (k - n)].timestamp == Offset(qs, k - n);
    }
  }
}
