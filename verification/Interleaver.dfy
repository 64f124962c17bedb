/** CMuxInterStream and CMuxInterleaver: the objects behind StreamQueues. Their lock and their
    waits are not here; a method is one critical section. */
module Interleaver {
  import opened MuxPacket
  import opened Wrappers
  import SQ = StreamQueues

  class InterStream {
    const isInterleaved: bool
    var active: bool
    const size: nat
    var queue: seq<Packet>
    var canWrite: bool

    constructor (isInterleaved: bool, active: bool, size: nat)
      ensures Value() == SQ.Stream(isInterleaved, active, size, [], true)
    {
      this.isInterleaved, this.active, this.size := isInterleaved, active, size;
      queue, canWrite := [], true;
    }

    function Value(): SQ.Stream
      reads this
    {
      SQ.Stream(isInterleaved, active, size, queue, canWrite)
    }

    method Flush()
      modifies `queue, `canWrite
      ensures Value() == SQ.Flushed(old(Value()))
    {
      while |queue| > 0
      {
        queue := queue[1..];
      }
      canWrite := true;
    }

    method Write(p: Packet) returns (ret: int)
      modifies `queue, `canWrite
      ensures ret == 0 && Value() == SQ.Pushed(old(Value()), p)
    {
      queue := queue + [p];
      if |queue| >= size {
        canWrite := false;
      }
      return 0;
    }

    /** An EOS packet stays where it is. */
    method Read() returns (ret: int, packet: Option<Packet>)
      modifies `queue, `canWrite
      ensures old(queue) == [] ==> ret == -1 && packet == None && Value() == old(Value())
      ensures SQ.AtEos(old(Value())) ==> ret == -3 && packet == None && Value() == old(Value())
      ensures old(queue) != [] && !SQ.AtEos(old(Value())) ==>
        ret == 0 && packet == Some(old(queue)[0]) && Value() == SQ.Popped(old(Value()))
    {
      if |queue| == 0 {
        return -1, None;
      }
      var p := queue[0];
      if p.isEos {
        return -3, None;
      }
      queue := queue[1..];
      if |queue| < size {
        canWrite := true;
      }
      return 0, Some(p);
    }

    method GetStartTime() returns (ret: int, time: int)
      ensures queue == [] ==> ret == -1
      ensures queue != [] ==> ret == 0 && time == SQ.FrontTime(Value())
    {
      if |queue| == 0 {
        return -1, 0;
      }
      return 0, queue[0].rtStart;
    }

    predicate IsEos()
      reads this
    {
      |queue| != 0 && queue[0].isEos
    }
  }

  ghost function ValuesOf(ss: seq<InterStream>): (r: seq<SQ.Stream>)
    reads ss
    ensures |r| == |ss| && forall i :: 0 <= i < |ss| ==> r[i] == ss[i].Value()
  {
    seq(|ss|, i requires 0 <= i < |ss| reads ss => ss[i].Value())
  }

  class Interleaver {
    var streams: seq<InterStream>
    var canRead: bool
    var abort: bool

    ghost predicate Valid()
      reads `streams
    {
      forall i, j :: 0 <= i < j < |streams| ==> streams[i] != streams[j]
    }

    ghost function Values(): (r: seq<SQ.Stream>)
      reads `streams, streams
      ensures |r| == |streams| && forall i :: 0 <= i < |streams| ==> r[i] == streams[i].Value()
    {
      ValuesOf(streams)
    }

    constructor ()
      ensures Valid() && Values() == [] && !canRead && !abort
    {
      streams, canRead, abort := [], false, false;
    }

    method AddStream(isInterleaved: bool, active: bool) returns (stream: InterStream)
      requires Valid()
      modifies `streams
      ensures Valid() && fresh(stream) && streams == old(streams) + [stream]
      ensures stream.Value() == SQ.Stream(isInterleaved, active, 10, [], true)
    {
      stream := new InterStream(isInterleaved, active, 10);
      streams := streams + [stream];
    }

    method SetAbort(abort: bool)
      modifies `abort
      ensures this.abort == abort
    {
      this.abort := abort;
    }

    method FlushStream(streamNo: int)
      requires Valid()
      modifies `canRead, streams
      ensures streams == old(streams)
      ensures !(0 <= streamNo < |streams|) ==> Values() == old(Values()) && canRead == old(canRead)
      ensures 0 <= streamNo < |streams| ==>
        && Values() == old(Values())[streamNo := SQ.Flushed(old(Values())[streamNo])]
        && canRead == (old(canRead) && SQ.AnyQueued(Values()))
    {
      if streamNo < 0 || streamNo >= |streams| {
        return;
      }
      streams[streamNo].Flush();
      assert Values() == old(Values())[streamNo := SQ.Flushed(old(Values())[streamNo])];
      var readable := AnyReadable();
      if !readable {
        canRead := false;
      }
    }

    /** Whether any queue holds a packet. */
    method AnyReadable() returns (readable: bool)
      requires Valid()
      ensures readable <==> SQ.AnyQueued(Values())
    {
      readable := false;
      for i := 0 to |streams|
        invariant readable <==> SQ.AnyQueued(Values()[..i])
      {
        assert Values()[..i + 1] == Values()[..i] + [streams[i].Value()];
        AnyQueuedAppend(Values()[..i], streams[i].Value());
        if |streams[i].queue| > 0 {
          readable := true;
        }
      }
      assert Values()[..|streams|] == Values();
    }

    method Flush()
      requires Valid()
      modifies `canRead, streams
      ensures streams == old(streams) && !canRead
      ensures forall i :: 0 <= i < |streams| ==> Values()[i] == SQ.Flushed(old(Values())[i])
    {
      for i := 0 to |streams|
        invariant streams == old(streams)
        invariant forall j :: 0 <= j < i ==> streams[j].Value() == SQ.Flushed(old(streams[j].Value()))
        invariant forall j :: i <= j < |streams| ==> streams[j].Value() == old(streams[j].Value())
      {
        streams[i].Flush();
      }
      canRead := false;
    }

    /** A packet for a stream that does not exist is deleted. */
    method Write(p: Packet) returns (ret: int)
      requires Valid()
      modifies `canRead, streams
      ensures streams == old(streams)
      ensures !(0 <= p.streamNo < |streams|) ==> ret == -1 && Values() == old(Values()) && canRead == old(canRead)
      ensures 0 <= p.streamNo < |streams| ==>
        && ret == 0 && canRead
        && Values() == old(Values())[p.streamNo := SQ.Pushed(old(Values())[p.streamNo], p)]
    {
      var strno := p.streamNo;
      if strno < 0 || strno >= |streams| {
        return -1;
      }
      ret := streams[strno].Write(p);
      canRead := true;
    }

    /** One round of the loop in Read, behind its wait; ret is 1 when the loop goes round again. */
    method ReadPass() returns (ret: int, packet: Option<Packet>)
      requires Valid()
      modifies `canRead, streams
      ensures streams == old(streams)
      ensures var m := SQ.AfterRead(SQ.Mux(old(Values()), old(canRead), [], [], []));
        Values() == m.streams && canRead == m.canRead
      ensures match SQ.Pass(old(Values()))
        case Again => ret == 1 && packet == None
        case End => ret == -3 && packet == None
        case Take(i) => ret == 0 && packet == Some(old(Values())[i].queue[0])
      ensures forall l: nat :: SQ.Next(old(Values()), l) ==> ret == 0 && packet == Some(old(Values())[l].queue[0])
      ensures ret == 0 ==> exists l: nat :: SQ.Next(old(Values()), l)
      ensures ret == 1 <==>
        exists i :: 0 <= i < |streams| && old(streams[i].active && streams[i].isInterleaved && streams[i].queue == [])
    {
      PassIs(Values());
      hide SQ.Lowest, SQ.HasEmpty, SQ.AllAtEos, SQ.Next;
      var lowestIndex, canDeliver, isEos := Scan();
      if isEos {
        return -3, None;
      }
      if lowestIndex >= 0 && canDeliver {
        ghost var vs := Values();
        ret, packet := streams[lowestIndex].Read();
        if ret == 0 {
          assert Values() == vs[lowestIndex := SQ.Popped(vs[lowestIndex])];
        } else {
          assert Values() == vs;
        }
      } else {
        ret, packet := 1, None;
      }
    }

    /** The scan through all the streams. */
    method Scan() returns (lowestIndex: int, canDeliver: bool, isEos: bool)
      requires Valid()
      modifies `canRead
      ensures lowestIndex == SQ.Lowest(Values())
      ensures canDeliver == !SQ.HasEmpty(Values()) && isEos == SQ.AllAtEos(Values())
      ensures canRead == (old(canRead) && !SQ.HasEmpty(Values()))
    {
      hide SQ.Lowest, SQ.HasEmpty, SQ.AllAtEos, Values, ValuesOf;
      var lowestTime := 0;
      lowestIndex, canDeliver, isEos := -1, true, true;
      ghost var vs := Values();
      ScanNone(vs);
      for i := 0 to |streams|
        invariant Values() == vs
        invariant -1 <= lowestIndex < i && lowestIndex == SQ.Lowest(vs[..i])
        invariant lowestIndex >= 0 ==> lowestTime == SQ.FrontTime(vs[lowestIndex])
        invariant canDeliver == !SQ.HasEmpty(vs[..i]) && isEos == SQ.AllAtEos(vs[..i])
        invariant canRead == (old(canRead) && canDeliver)
      {
        var stream := streams[i];
        ScanOne(vs, i);
        assert vs[i] == stream.Value();
        if stream.active {
          if stream.isInterleaved && !stream.IsEos() {
            isEos := false;
          }
          var ret, startTime := stream.GetStartTime();
          if ret == 0 {
            if lowestIndex == -1 {
              lowestIndex, lowestTime := i, startTime;
            } else if startTime < lowestTime {
              lowestIndex, lowestTime := i, startTime;
            }
          }
          var packetCount := |stream.queue|;
          if stream.isInterleaved && packetCount == 0 {
            canDeliver := false;
            canRead := false;
          }
        }
      }
      assert vs[..|streams|] == vs;
    }
  }

  lemma PassIs(ss: seq<SQ.Stream>)
    ensures forall l: nat :: SQ.Pass(ss) == SQ.Take(l) <==> SQ.Next(ss, l)
    ensures SQ.Pass(ss) == SQ.Again <==>
      exists i :: 0 <= i < |ss| && ss[i].active && ss[i].interleaved && ss[i].queue == []
  {
    hide SQ.Pass, SQ.Next;
    SQ.AgainIff(ss);
    forall l: nat
      ensures SQ.Pass(ss) == SQ.Take(l) <==> SQ.Next(ss, l)
    {
      SQ.TakeIff(ss, l);
    }
  }

  lemma AnyQueuedAppend(ss: seq<SQ.Stream>, s: SQ.Stream)
    ensures SQ.AnyQueued(ss + [s]) <==> SQ.AnyQueued(ss) || s.queue != []
  {
    var t := ss + [s];
    assert t[|ss|] == s;
    if SQ.AnyQueued(ss) {
      var i :| 0 <= i < |ss| && ss[i].queue != [];
      assert t[i].queue != [];
    }
  }

  lemma ScanNone(ss: seq<SQ.Stream>)
    ensures SQ.Lowest(ss[..0]) == -1 && !SQ.HasEmpty(ss[..0]) && SQ.AllAtEos(ss[..0])
  {
  }

  /** What one more stream adds to the scan. */
  lemma ScanOne(ss: seq<SQ.Stream>, i: nat)
    requires i < |ss|
    ensures var s, l := ss[i], SQ.Lowest(ss[..i]);
      SQ.Lowest(ss[..i + 1]) ==
        if SQ.Ready(s) && (l == -1 || SQ.FrontTime(s) < SQ.FrontTime(ss[l])) then i else l
    ensures SQ.HasEmpty(ss[..i + 1]) <==>
      SQ.HasEmpty(ss[..i]) || (ss[i].active && ss[i].interleaved && ss[i].queue == [])
    ensures SQ.AllAtEos(ss[..i + 1]) <==>
      SQ.AllAtEos(ss[..i]) && (ss[i].active && ss[i].interleaved ==> SQ.AtEos(ss[i]))
  {
    var a, b := ss[..i], ss[..i + 1];
    assert b[..i] == a && b[i] == ss[i];
    assert forall k :: 0 <= k < i ==> a[k] == b[k];
    if SQ.HasEmpty(a) {
      var k :| 0 <= k < |a| && a[k].active && a[k].interleaved && a[k].queue == [];
      assert b[k].active && b[k].interleaved && b[k].queue == [];
    }
  }
}
