/** FLVWriter: the stateful writer of an FLV file, and the stream object it writes to. */
module FlvWriter {
  import opened Words
  import opened BigEndian
  import opened MuxPacket
  import opened FlvFile
  import opened FlvMetadata
  import opened FlvTags
  import opened Wrappers
  import Amf0
  import AmfStream
  import Reader = FlvReader

  // ----- The stream -----

  /** data with bytes written over it at pos. */
  function Overwritten(data: Bytes, pos: nat, bytes: Bytes): Bytes
    requires pos <= |data|
  {
    data[..pos] + bytes + (if pos + |bytes| <= |data| then data[pos + |bytes|..] else [])
  }

  /** FLVIO on a stream object: its bytes and its seek pointer. */
  class FlvIo {
    var data: Bytes
    var pos: nat

    constructor ()
      ensures data == [] && pos == 0
    {
      data, pos := [], 0;
    }

    method Write(buffer: Bytes)
      requires pos <= |data|
      modifies this
      ensures data == Overwritten(old(data), old(pos), buffer)
      ensures pos == old(pos) + |buffer| <= |data|
    {
      data := data[..pos] + buffer + (if pos + |buffer| <= |data| then data[pos + |buffer|..] else []);
      pos := pos + |buffer|;
    }

    method Seek(offset: nat)
      requires offset <= |data|
      modifies this`pos
      ensures pos == offset
    {
      pos := offset;
    }

    /** Write with the seek pointer at the end. */
    method Append(buffer: Bytes)
      requires pos == |data|
      modifies this
      ensures data == old(data) + buffer && pos == |data|
    {
      Write(buffer);
    }
  }

  // ----- The writer -----

  function FileHeader(videoCodec: int, audioCodec: int): (r: Bytes)
    ensures |r| == 9
  {
    [0x46, 0x4c, 0x56, 1,
     (if videoCodec != CODEC_NONE then 1 else 0) + (if audioCodec != CODEC_NONE then 4 else 0),
     0, 0, 0, 9]
  }

  function MetaTag(n: Numbers, m: MetaInfo): (t: Tag)
    ensures |t.data| < TWO24
  {
    MetaSmall(n, m);
    Tag(0x12, 0, MetaData(n, m))
  }

  class FlvWriter {
    const numbers: Numbers
    var videoCodec: int
    var audioCodec: int
    var videoWidth: int
    var videoHeight: int
    var videoFps: u64
    var audioChannels: int
    var audioSamplerate: int
    var isFirst: bool
    var timeFirstMs: int
    var timeLastMs: int
    var durationMs: int
    var videoRawSize: int
    var videoFrames: int
    var fileSize: int
    var lastTagSize: nat
    var io: FlvIo?
    var videoExtradata: Bytes
    var audioExtradata: Bytes
    /** The tags in the file, the metadata tag first. */
    ghost var tags: seq<Tag>

    /** The state after Reset and ConfigStream. */
    constructor (n: Numbers, c: Config, width: int, height: int, fps: u64)
      ensures Settings() == c && numbers == n && io == null
      ensures isFirst && timeFirstMs == timeLastMs == durationMs == videoRawSize == videoFrames == 0
    {
      numbers := n;
      videoCodec, audioCodec := c.videoCodec, c.audioCodec;
      videoWidth, videoHeight, videoFps := width, height, fps;
      audioChannels, audioSamplerate := c.channels, c.samplerate;
      videoExtradata, audioExtradata := c.videoExtra, c.audioExtra;
      isFirst := true;
      timeFirstMs, timeLastMs, durationMs, videoRawSize, videoFrames := 0, 0, 0, 0, 0;
      fileSize, lastTagSize, io, tags := 0, 0, null, [];
    }

    function Settings(): Config
      reads `videoCodec, `audioCodec, `audioChannels, `audioSamplerate, `videoExtradata, `audioExtradata
    {
      Config(videoCodec, audioCodec, audioChannels, audioSamplerate, videoExtradata, audioExtradata)
    }

    function Info(): MetaInfo
      reads this
    {
      MetaInfo(durationMs, fileSize, timeLastMs, videoCodec, videoWidth, videoHeight, videoFps,
               videoRawSize, audioCodec, audioSamplerate, audioChannels)
    }

    ghost function State(): Track
      reads this
    {
      Track(isFirst, timeFirstMs, timeLastMs, durationMs, videoRawSize, videoFrames, tags)
    }

    /** Between Start and Stop: the file is the header and the (PreviousTagSize, tag) pairs, the
        next write goes to its end, and lastTagSize is what belongs there next. */
    ghost predicate Streaming()
      reads `io, `tags, `videoCodec, `audioCodec, `lastTagSize, io
    {
      && io != null
      && Small(tags)
      && io.data == FileHeader(videoCodec, audioCodec) + Pairs(tags)
      && io.pos == |io.data|
      && lastTagSize == LastSize(tags)
    }

    ghost predicate StartedWithMeta()
      reads this
    {
      && |tags| >= 1
      && exists m :: tags[0] == MetaTag(numbers, m) && SameCodecs(m, Info())
    }

    // ----- Packets -----

    /** Writes the codec configuration tag of one kind, if its codec has one. */
    method WriteExtradata(kind: Kind) returns (ret: int)
      requires Streaming() && ExtraWritable(Settings()) && kind != Other
      modifies this`lastTagSize, this`tags, io
      ensures Streaming() && io == old(io)
      ensures tags == old(tags) + (if kind == Video then VideoExtraTags(Settings()) else AudioExtraTags(Settings()))
      ensures ret == (if tags == old(tags) then -1 else 0)
    {
      hide Streaming, HoldsParameterSets, Avcc;
      if kind == Video && (|videoExtradata| <= 0 || videoCodec != CODEC_H264) {
        return -1;
      }
      if kind == Audio && (|audioExtradata| <= 0 || audioCodec != CODEC_AAC) {
        return -1;
      }
      var data: Bytes, header: Bytes;
      if kind == Video {
        var extradata := new u8[EXTRADATA_ROOM];
        var extradataSize := MakeAvcc(videoExtradata, extradata);
        data := extradata[..extradataSize];
        header := [0x17, 0, 0, 0, 0];
      } else {
        data := audioExtradata;
        header := [0xaf, 0];
      }
      AppendTag(if kind == Video then 9 else 8, 0, header, data);
      return 0;
    }

    /** The four writes that every tag is made of: the size of the tag before, the tag header, the
        codec header and the data. */
    method AppendTag(kind: u8, timestampMs: nat, header: Bytes, data: Bytes)
      requires Streaming() && |header| + |data| < TWO24
      modifies this`lastTagSize, this`tags, io
      ensures Streaming() && io == old(io)
      ensures tags == old(tags) + [Tag(kind, timestampMs % TWO32, header + data)]
    {
      hide Pairs, Small, TagBytes, FileHeader, BE32, HeaderBytes;
      ghost var tag, before := Tag(kind, timestampMs % TWO32, header + data), io.data;
      LastSizeFits(tags);
      var size := |header| + |data|;
      io.Append(BE32(lastTagSize % TWO32));
      var tagHdr := TagHeader(kind, size, timestampMs);
      io.Append(tagHdr[..11]);
      io.Append(header);
      io.Append(data);
      TagAppended(FileHeader(videoCodec, audioCodec), tags, tag, tagHdr[..11], header, data, timestampMs);
      lastTagSize := size + 11;
      tags := tags + [tag];
    }

    /** Writes one packet as a tag; drops it when its time is before the first packet's. */
    method WritePacket(p: Packet, kind: Kind) returns (ret: int)
      requires Streaming() && ExtraWritable(Settings()) && Writable(Settings(), p, kind)
      requires fileSize == |io.data|
      modifies this`isFirst, this`timeFirstMs, this`timeLastMs, this`durationMs, this`videoRawSize,
        this`videoFrames, this`fileSize, this`lastTagSize, this`tags, io
      ensures Streaming() && io == old(io) && fileSize == |io.data|
      ensures State() == Step(Settings(), old(State()), p, kind)
      ensures kind != Other && Millis(TimeOf(p)) >= timeFirstMs ==>
        tags != [] && Shows(Settings(), p, kind, timeFirstMs, tags[|tags| - 1])
      ensures kind == Other || Millis(TimeOf(p)) < timeFirstMs ==> tags == old(tags)
      ensures ret == if kind == Other then -1 else 0
    {
      hide TruncDiv, Accepted, Opened, ExtraWritable, Writable, Pairs, Small, FileHeader, LastSize, Shows, Millis;
      if kind == Other {
        return -1;
      }
      StepShows(Settings(), State(), p, kind);
      var timestampMs := TruncDiv(if p.timestampEx then p.dts else p.rtStart, 10000);
      Open(p, timestampMs);
      timestampMs := timestampMs - timeFirstMs;
      if timestampMs >= 0 {
        Accept(p, kind, timestampMs);
      }
      return 0;
    }

    /** What the first packet does. */
    method Open(ghost p: Packet, timestampMs: int)
      requires Streaming() && ExtraWritable(Settings()) && timestampMs == StartMs(p)
      requires fileSize == |io.data|
      modifies this`isFirst, this`timeFirstMs, this`lastTagSize, this`tags, io
      ensures Streaming() && io == old(io)
      ensures State() == Opened(Settings(), old(State()), p)
      ensures !old(isFirst) ==> fileSize == |io.data|
      ensures old(isFirst) ==> timeFirstMs == timestampMs
    {
      hide Streaming, ExtraWritable, VideoExtraTags, AudioExtraTags, StartMs;
      if isFirst {
        isFirst := false;
        timeFirstMs := timestampMs;
        var written := WriteExtradata(Video);
        written := WriteExtradata(Audio);
      }
    }

    /** What a packet that is not dropped does to the writer. */
    method Accept(p: Packet, kind: Kind, relMs: nat)
      requires Streaming() && Writable(Settings(), p, kind) && kind != Other
      modifies this`timeLastMs, this`durationMs, this`videoRawSize, this`videoFrames, this`fileSize,
        this`lastTagSize, this`tags, io
      ensures Streaming() && io == old(io) && fileSize == |io.data|
      ensures State() == Accepted(Settings(), old(State()), p, kind, relMs)
    {
      hide PacketTag, Writable, Pairs, Small, FileHeader, LastSize;
      timeLastMs := relMs;
      durationMs := timeLastMs;
      if kind == Video {
        videoRawSize := videoRawSize + |p.data|;
        videoFrames := videoFrames + 1;
      }
      AppendPacket(p, kind, relMs);
      fileSize := io.pos;
    }

    /** The writing half of WritePacket. */
    method AppendPacket(p: Packet, kind: Kind, relMs: nat)
      requires Streaming() && Writable(Settings(), p, kind) && kind != Other
      modifies this`lastTagSize, this`tags, io
      ensures Streaming() && io == old(io)
      ensures tags == old(tags) + [PacketTag(Settings(), p, kind, relMs, timeFirstMs)]
    {
      hide Streaming, VideoHeader, AudioHeader, Nalu;
      HeaderSizes(Settings(), p, relMs, timeFirstMs);
      if kind == Video {
        var header := VideoDataHeader(Settings(), p, relMs, timeFirstMs);
        var data := ToNalu(p.data);
        AppendTag(9, relMs, header, data);
      } else {
        var header := AudioDataHeader(Settings());
        AppendTag(8, relMs, header, p.data);
      }
    }

    // ----- Metadata -----

    /** Writes the metadata tag, behind a PreviousTagSize of 0, over whatever is at the seek
        pointer. */
    method WriteMetaData()
      requires io != null && io.pos <= |io.data|
      modifies this`lastTagSize, io
      ensures io.data == Overwritten(old(io.data), old(io.pos), BE32(0) + TagBytes(MetaTag(numbers, Info())))
      ensures io.pos == old(io.pos) + 15 + |MetaTag(numbers, Info()).data| <= |io.data|
      ensures lastTagSize == 11 + |MetaTag(numbers, Info()).data|
    {
      hide MetaTag, Overwritten, TagBytes, BE32;
      var buf, totalSize := AssembleMetaData(numbers, Info());
      var tagHdr: Bytes := [0, 0, 0, 0, 0x12,
        totalSize / TWO16 % TWO8, totalSize / TWO8 % TWO8, totalSize % TWO8,
        0, 0, 0, 0, 0, 0, 0];
      ghost var data, pos := io.data, io.pos;
      io.Write(tagHdr);
      io.Write(buf);
      OverwrittenTwice(data, pos, tagHdr, buf);
      ScriptTagBytes(tagHdr, buf);
      lastTagSize := |tagHdr| + totalSize - 4;
    }

    // ----- Start and Stop -----

    /** Starts a file on a fresh stream. */
    method Start(flvio: FlvIo?) returns (ret: int)
      requires flvio != null ==> flvio.data == []
      requires isFirst
      modifies this`io, this`fileSize, this`lastTagSize, this`tags, flvio
      ensures flvio == null ==> ret == -1
      ensures flvio != null ==> ret == 0 && io == flvio && Streaming() && fileSize == |io.data|
      ensures flvio != null ==> tags == [MetaTag(numbers, old(Info()).(fileSize := 0))]
    {
      hide MetaTag, Overwritten, TagBytes, BE32, Pairs, FileHeader;
      io := flvio;
      if io == null {
        return -1;
      }
      var header := StartHeader(videoCodec, audioCodec);
      io.Seek(0);
      fileSize := 0;
      io.Append(header);
      assert io.data == header;
      ghost var tag := MetaTag(numbers, Info());
      WriteMetaData();
      tags := [tag];
      OverwrittenAtEnd(header, BE32(0) + TagBytes(tag));
      OneTag(tag);
      fileSize := io.pos;
      return 0;
    }

    /** Finishes the file: the last PreviousTagSize, then the metadata again, in place. */
    method Stop() returns (ret: int)
      requires Streaming() && StartedWithMeta()
      modifies this`fileSize, this`lastTagSize, this`tags, io
      ensures io == old(io) && Small(tags)
      ensures tags == [MetaTag(numbers, Info())] + old(tags)[1..]
      ensures io.data == FileHeader(videoCodec, audioCodec) + Body(tags)
      ensures fileSize == |io.data| == |old(io.data)| + 4
      ensures forall i :: 0 <= i < |old(io.data)| && !(9 <= i < 24 + |old(tags)[0].data|) ==>
        io.data[i] == old(io.data)[i]
    {
      hide MetaTag, Overwritten, TagBytes, BE32, Pairs, FileHeader;
      ghost var header, first, rest := FileHeader(videoCodec, audioCodec), tags[0], tags[1..];
      assert tags == [first] + rest;
      ghost var m :| first == MetaTag(numbers, m) && SameCodecs(m, Info());
      LastSizeFits(tags);
      io.Append(BE32(lastTagSize % TWO32));
      assert io.data == header + Body(tags);
      fileSize := io.pos;
      io.Seek(9);
      ghost var first' := MetaTag(numbers, Info());
      RewrittenMeta(header, numbers, m, Info(), rest);
      WriteMetaData();
      tags := [first'] + rest;
      return 0;
    }
  }

  // ----- A whole file -----

  /** From the start to the end of streaming: the writer on a fresh stream, the packets of the
      muxing thread in order, and the end. */
  method WriteFile(w: FlvWriter, flvio: FlvIo, ps: seq<(Packet, Kind)>) returns (ghost first: MetaInfo)
    requires flvio.data == [] && w.isFirst && AllWritable(w.Settings(), ps)
    modifies w, flvio
    ensures Small(w.tags) && FinishedFile(flvio.data, w.tags)
    ensures flvio.data == FileHeader(w.videoCodec, w.audioCodec) + Body(w.tags)
    ensures w.Settings() == old(w.Settings()) && w.fileSize == |flvio.data|
    ensures HeaderShows(flvio.data, w.videoCodec, w.audioCodec)
    ensures w.tags != [] && w.tags[0].kind == 18 && w.tags[0].timestamp == 0
    ensures MetaShows(w.numbers, w.Info(), w.tags[0].data)
    ensures Contents(w.Settings(), ps, w.tags[1..]) && Counted(ps, old(w.State()), w.State())
    ensures var s0 := old(w.State()).(tags := [MetaTag(w.numbers, first)]);
      var end := Run(old(w.Settings()), s0, ps);
      && w.tags == [MetaTag(w.numbers, w.Info())] + end.tags[1..]
      && w.durationMs == end.durationMs && w.timeLastMs == end.lastMs
  {
    hide FileHeader, Pairs, Small, MetaTag, Parse, WalkBack, Body, FinishedFile, Run, FlvWriter.Streaming, Contents,
      HeaderShows, Counted, FirstMs, MetaShows, MetaData;
    first := w.Info().(fileSize := 0);
    ghost var c := w.Settings();
    var ret := w.Start(flvio);
    ghost var s0 := w.State();
    WritePackets(w, ps);
    assert w.tags[0] == s0.tags[0] == MetaTag(w.numbers, first);
    ret := w.Stop();
    FinishedFileParses(w.videoCodec, w.audioCodec, w.tags);
    MetaReads(w.numbers, w.Info());
    MetaTagHolds(w.numbers, w.Info());
    RunReadsBack(c, s0, ps);
    CountersOnly(ps, s0, Run(c, s0, ps), old(w.tags), w.tags);
  }

  /** The muxing thread while it streams: each packet it gets goes to the writer. */
  method WritePackets(w: FlvWriter, ps: seq<(Packet, Kind)>)
    requires w.Streaming() && w.io != null && w.fileSize == |w.io.data| && AllWritable(w.Settings(), ps)
    modifies w`isFirst, w`timeFirstMs, w`timeLastMs, w`durationMs, w`videoRawSize, w`videoFrames, w`fileSize,
      w`lastTagSize, w`tags, w.io
    ensures w.Streaming() && w.io == old(w.io) && w.fileSize == |w.io.data|
    ensures w.State() == Run(w.Settings(), old(w.State()), ps)
  {
    hide FlvWriter.Streaming, Run, Step, Shows, Writable, ExtraWritable;
    ghost var c, s0 := w.Settings(), w.State();
    RunNothing(c, s0);
    assert ps[..0] == [];
    for i := 0 to |ps|
      invariant w.Streaming() && w.io != null && w.io == old(w.io) && w.fileSize == |w.io.data|
      invariant w.Settings() == c && AllWritable(c, ps[..i])
      invariant w.State() == Run(c, s0, ps[..i])
    {
      RunOne(c, s0, ps, i);
      var ret := w.WritePacket(ps[i].0, ps[i].1);
    }
    assert ps[..|ps|] == ps;
  }

  lemma MetaTagHolds(n: Numbers, m: MetaInfo)
    ensures MetaTag(n, m) == Tag(18, 0, MetaData(n, m))
  {
    hide MetaData;
  }

  lemma RunNothing(c: Config, s: Track)
    requires ExtraWritable(c)
    ensures AllWritable(c, []) && Run(c, s, []) == s
  {
  }

  lemma RunOne(c: Config, s: Track, ps: seq<(Packet, Kind)>, i: nat)
    requires AllWritable(c, ps) && i < |ps|
    ensures AllWritable(c, ps[..i]) && AllWritable(c, ps[..i + 1]) && Writable(c, ps[i].0, ps[i].1)
    ensures Run(c, s, ps[..i + 1]) == Step(c, Run(c, s, ps[..i]), ps[i].0, ps[i].1)
  {
    assert ps[..i + 1][..i] == ps[..i];
  }

  /** The file can be read both ways: forward by the DataSize fields, and backward from the end by
      the PreviousTagSize fields, which lead over every tag to the end of the header; and each tag
      stands in its place. */
  ghost predicate FinishedFile(file: Bytes, tags: seq<Tag>)
    requires Small(tags)
  {
    && |file| >= 9
    && Parse(file[9..]) == Some((Entries(0, tags), LastSize(tags)))
    && (forall i :: 0 <= i < |tags| ==>
          && Entries(0, tags)[i].tag == tags[i]
          && Entries(0, tags)[i].prev == (if i == 0 then 0 else 11 + |tags[i - 1].data|))
    && WalkBack(file, |file|) == Some((Offsets(9, tags), 9))
    && InPlace(file, Offsets(9, tags), tags)
  }

  /** The tags stand at the offsets, each four bytes behind the one before. */
  ghost predicate InPlace(file: Bytes, offsets: seq<nat>, tags: seq<Tag>) {
    && |offsets| == |tags|
    && forall i :: 0 <= i < |tags| ==>
         && offsets[i] == (if i == 0 then 13 else offsets[i - 1] + 15 + |tags[i - 1].data|)
         && Reader.TagStands(file, offsets[i], tags[i].kind, tags[i].timestamp, tags[i].data)
  }

  lemma TagsInPlace(header: Bytes, tags: seq<Tag>)
    requires Small(tags) && |header| == 9
    ensures InPlace(header + Body(tags), Offsets(9, tags), tags)
  {
    WalkBackLandsOnHeader(header, tags);
    OffsetsFollow(9, tags);
    hide Body, WalkBack, Offsets, HoldsAt, TagBytes, Reader.TagStands;
    var file, offsets := header + Body(tags), Offsets(9, tags);
    forall i | 0 <= i < |tags|
      ensures Reader.TagStands(file, offsets[i], tags[i].kind, tags[i].timestamp, tags[i].data)
    {
      TagStandsIff(file, offsets[i], tags[i]);
    }
  }

  /** A player that opens the file finds the streams that the writer has. */
  predicate HeaderShows(file: Bytes, videoCodec: int, audioCodec: int) {
    Reader.ReadHeader(file) == Some(Reader.Header(1, videoCodec != CODEC_NONE, audioCodec != CODEC_NONE, 9))
  }

  lemma HeaderReads(videoCodec: int, audioCodec: int, rest: Bytes)
    ensures HeaderShows(FileHeader(videoCodec, audioCodec) + rest, videoCodec, audioCodec)
  {
    hide Number;
    var b := FileHeader(videoCodec, audioCodec) + rest;
    NumberOfFour(b, 5);
    NumberOfTwo(b, 5);
    NumberOfTwo(b, 7);
  }

  lemma FinishedFileParses(videoCodec: int, audioCodec: int, tags: seq<Tag>)
    requires Small(tags)
    ensures FinishedFile(FileHeader(videoCodec, audioCodec) + Body(tags), tags)
    ensures HeaderShows(FileHeader(videoCodec, audioCodec) + Body(tags), videoCodec, audioCodec)
  {
    var header := FileHeader(videoCodec, audioCodec);
    HeaderReads(videoCodec, audioCodec, Body(tags));
    BodyParses(tags);
    WalkBackLandsOnHeader(header, tags);
    TagsInPlace(header, tags);
    hide FileHeader, Body, Parse, WalkBack, Entries, Offsets, HoldsAt, TagBytes, InPlace, HeaderShows;
    assert (header + Body(tags))[9..] == Body(tags);
  }

  // ----- The arrays filled in place -----

  /** The first eleven bytes of tag_hdr; the other five are zero. */
  method TagHeader(kind: u8, size: nat, timestampMs: nat) returns (hdr: array<u8>)
    requires size < TWO24
    ensures fresh(hdr) && hdr.Length == 16
    ensures hdr[..11] == HeaderBytes(kind, size, timestampMs)
  {
    hide HeaderBytes, Split;
    HeaderFields(kind, size, timestampMs);
    hdr := new u8[16](_ => 0);
    var s, t := Split(size), Split(timestampMs);
    hdr[0] := kind;
    hdr[1], hdr[2], hdr[3] := s.1, s.2, s.3;
    hdr[4], hdr[5], hdr[6] := t.1, t.2, t.3;
    hdr[7] := t.0;
    assert hdr[0] == kind && hdr[1] == s.1 && hdr[2] == s.2 && hdr[3] == s.3;
    assert hdr[4] == t.1 && hdr[5] == t.2 && hdr[6] == t.3 && hdr[7] == t.0;
    assert hdr[8] == 0 && hdr[9] == 0 && hdr[10] == 0;
    ElevenBytes(hdr[..], kind, s, t);
    assert hdr[..11] == hdr[..][..11];
  }

  lemma ElevenBytes(h: Bytes, kind: u8, s: (u8, u8, u8, u8), t: (u8, u8, u8, u8))
    requires |h| >= 11 && h[0] == kind && h[1] == s.1 && h[2] == s.2 && h[3] == s.3
    requires h[4] == t.1 && h[5] == t.2 && h[6] == t.3 && h[7] == t.0 && h[8] == 0 && h[9] == 0 && h[10] == 0
    ensures h[..11] == [kind, s.1, s.2, s.3, t.1, t.2, t.3, t.0, 0, 0, 0]
  {
  }

  /** The bytes of a tag in front of its data. */
  function HeaderBytes(kind: u8, size: nat, timestampMs: nat): Bytes
    requires size < TWO24
  {
    [kind] + BE24(size) + BE24(timestampMs % TWO24) + [timestampMs % TWO32 / TWO24] + [0, 0, 0]
  }

  lemma HeaderFields(kind: u8, size: nat, timestampMs: nat)
    requires size < TWO24
    ensures var s, t := Split(size), Split(timestampMs);
      HeaderBytes(kind, size, timestampMs) == [kind, s.1, s.2, s.3, t.1, t.2, t.3, t.0, 0, 0, 0]
  {
    SplitFields(size);
    SplitFields(timestampMs);
    assert size % TWO24 == size;
  }

  /** (x >> 24) & 0xff, (x >> 16) & 0xff, (x >> 8) & 0xff and x & 0xff. */
  function Split(x: nat): (u8, u8, u8, u8) {
    (x / TWO24 % TWO8, x / TWO16 % TWO8, x / TWO8 % TWO8, x % TWO8)
  }

  lemma SplitDigits(x: nat) returns (x4: nat)
    ensures var b := Split(x);
      x == x4 * TWO32 + b.0 * TWO24 + b.1 * TWO16 + b.2 * TWO8 + b.3
  {
    var x1 := x / TWO8;
    var x2 := x1 / TWO8;
    var x3 := x2 / TWO8;
    x4 := x3 / TWO8;
    QuotientUnique(x, x2, TWO16, x1 % TWO8 * TWO8 + x % TWO8);
    QuotientUnique(x, x3, TWO24, x2 % TWO8 * TWO16 + x1 % TWO8 * TWO8 + x % TWO8);
  }

  lemma SplitFields(x: nat)
    ensures var b := Split(x);
      BE24(x % TWO24) == [b.1, b.2, b.3] && x % TWO32 / TWO24 == b.0
    ensures x < TWO32 ==> BE32(x) == [Split(x).0, Split(x).1, Split(x).2, Split(x).3]
  {
    var x4 := SplitDigits(x);
    var b := Split(x);
    hide Split;
    var low := b.1 * TWO16 + b.2 * TWO8 + b.3;
    QuotientUnique(x, x4 * TWO8 + b.0, TWO24, low);
    QuotientUnique(x, x4, TWO32, b.0 * TWO24 + low);
    QuotientUnique(b.0 * TWO24 + low, b.0, TWO24, low);
    Digits24(low, b.1, b.2, b.3);
    if x < TWO32 {
      Digits32(x, b.0, b.1, b.2, b.3);
    }
  }

  lemma Digits24(x: nat, b: u8, c: u8, d: u8)
    requires x == b * TWO16 + c * TWO8 + d
    ensures x < TWO24 && BE24(x) == [b, c, d]
  {
    QuotientUnique(x, b, TWO16, c * TWO8 + d);
    QuotientUnique(x, b * TWO8 + c, TWO8, d);
  }

  lemma Digits32(x: u32, a: u8, b: u8, c: u8, d: u8)
    requires x == a * TWO24 + b * TWO16 + c * TWO8 + d
    ensures BE32(x) == [a, b, c, d]
  {
    QuotientUnique(x, a * TWO8 + b, TWO16, c * TWO8 + d);
    QuotientUnique(a * TWO8 + b, a, TWO8, b);
    QuotientUnique(c * TWO8 + d, c, TWO8, d);
  }

  /** The codec header of a video packet, filled in from tag_hdr[11] on. */
  method VideoDataHeader(c: Config, p: Packet, relMs: int, firstMs: int) returns (header: Bytes)
    ensures header == VideoHeader(c, p, relMs, firstMs)
  {
    hide BE24, Split, TruncDiv, ToI32, ToI64;
    var hdr := new u8[5](_ => 0);
    hdr[0] := if c.videoCodec == CODEC_FLV1 then 2
              else if c.videoCodec == CODEC_FLV4 then 4
              else if c.videoCodec == CODEC_H264 then 7
              else 0;
    hdr[0] := hdr[0] + (if p.syncPoint then 0x10 else 0x20);
    if c.videoCodec == CODEC_H264 {
      hdr[1] := 1;
      var diff: int;
      if p.timestampEx {
        diff := ToI32(TruncDiv(ToI64(p.pts - p.dts), 10000));
      } else {
        var stopMs := TruncDiv(p.rtStop, 10000);
        stopMs := stopMs - firstMs;
        diff := ToI32(stopMs - relMs);
      }
      if diff < 0 {
        diff := 0;
      }
      var low := Split(diff);
      hdr[2], hdr[3], hdr[4] := low.1, low.2, low.3;
      SplitFields(diff);
      header := hdr[..5];
      assert header == [hdr[0], hdr[1], hdr[2], hdr[3], hdr[4]];
    } else if c.videoCodec == CODEC_FLV4 {
      header := hdr[..2];
    } else {
      header := hdr[..1];
    }
  }

  method AudioDataHeader(c: Config) returns (header: Bytes)
    requires c.audioCodec == CODEC_MP3 || c.audioCodec == CODEC_AAC
    ensures header == AudioHeader(c)
  {
    var hdr := new u8[2](_ => 0);
    hdr[0] := if c.audioCodec == CODEC_MP3 then 32 else 160;
    if c.audioCodec == CODEC_AAC {
      hdr[0] := hdr[0] + 12;
    } else {
      match c.samplerate
      case 11025 => hdr[0] := hdr[0] + 4;
      case 22050 => hdr[0] := hdr[0] + 8;
      case 44100 => hdr[0] := hdr[0] + 12;
      case _ =>
    }
    hdr[0] := hdr[0] + 2;
    if c.channels == 2 {
      hdr[0] := hdr[0] + 1;
    }
    if c.audioCodec == CODEC_MP3 {
      header := hdr[..1];
    } else {
      hdr[1] := 1;
      header := hdr[..2];
    }
  }

  method ToNalu(data: Bytes) returns (r: Bytes)
    requires 4 <= |data| < TWO32
    ensures r == Nalu(data)
  {
    hide BE32, Split;
    r := data;
    if data[0] == 0 && data[1] == 0 && data[2] == 0 && data[3] == 1 {
      var size := |data| - 4;
      var bytes := Split(size);
      r := [bytes.0, bytes.1, bytes.2, bytes.3] + data[4..];
      SplitFields(size);
    }
    assert data[..4] == [data[0], data[1], data[2], data[3]];
  }

  /** MakeAVCc: builds the AVC decoder configuration in output; -1 when there is none or it does not
      fit. */
  method MakeAvcc(data: Bytes, output: array<u8>) returns (ret: int)
    requires data != [] ==> HoldsParameterSets(data)
    modifies output
    ensures ret == if data == [] || |Avcc(data)| > output.Length then -1 else |Avcc(data)|
    ensures ret >= 0 ==> output[..ret] == Avcc(data)
  {
    hide Avcc, HoldsParameterSets;
    if data == [] {
      return -1;
    }
    AvccSize(data);
    var psSize, ssSize := FirstSetSize(data), SecondSetSize(data);
    var bufSize := 6 + psSize + 2 + 1 + ssSize + 2;
    if bufSize > output.Length {
      return -1;
    }
    output[0], output[1], output[2] := 1, data[3], data[4];
    output[3], output[4], output[5] := data[5], data[6], 0xe1;
    forall i | 0 <= i < psSize + 2 {
      output[6 + i] := data[i];
    }
    output[psSize + 8] := 1;
    forall i | 0 <= i < ssSize + 2 {
      output[psSize + 9 + i] := data[psSize + 2 + i];
    }
    AvccFilled(data, output[..bufSize]);
    return bufSize;
  }

  lemma AvccSize(d: Bytes)
    requires HoldsParameterSets(d)
    ensures |Avcc(d)| == 11 + FirstSetSize(d) + SecondSetSize(d)
    ensures |d| >= 7 && |d| >= FirstSetSize(d) + SecondSetSize(d) + 4
  {
  }

  lemma AvccFilled(d: Bytes, r: Bytes)
    requires HoldsParameterSets(d) && |r| == |Avcc(d)| && |d| >= 7
    requires r[..6] == [1, d[3], d[4], d[5], d[6], 0xe1]
    requires var s, t := FirstSetSize(d), SecondSetSize(d);
      && |d| >= s + t + 4
      && (forall i :: 6 <= i < s + 8 ==> r[i] == d[i - 6]) && r[s + 8] == 1
      && forall i :: s + 9 <= i < s + t + 11 ==> r[i] == d[i - 7]
    ensures r == Avcc(d)
  {
    hide HoldsParameterSets;
    var s, t := FirstSetSize(d), SecondSetSize(d);
    assert r == r[..6] + r[6..s + 8] + [r[s + 8]] + r[s + 9..];
    assert r[6..s + 8] == d[..s + 2] && r[s + 9..] == d[s + 2..s + t + 4];
  }

  lemma TagAppended(file: Bytes, tags: seq<Tag>, t: Tag, hdr: Bytes, header: Bytes, data: Bytes, timestampMs: nat)
    requires Small(tags) && |t.data| < TWO24 && t.data == header + data && t.timestamp == timestampMs % TWO32
    requires hdr == HeaderBytes(t.kind, |t.data|, timestampMs)
    ensures Small(tags + [t]) && LastSize(tags + [t]) == 11 + |t.data|
    ensures file + Pairs(tags) + BE32(LastSize(tags)) + hdr + header + data == file + Pairs(tags + [t])
  {
    LastSizeFits(tags);
    hide BE32, Pairs, Small, LastSize, TagBytes, HeaderBytes;
    PairsAppend(tags, t);
    HeaderAndData(t, hdr, header, data, timestampMs);
  }

  lemma HeaderAndData(t: Tag, hdr: Bytes, header: Bytes, data: Bytes, timestampMs: nat)
    requires |t.data| < TWO24 && t.data == header + data && t.timestamp == timestampMs % TWO32
    requires hdr == HeaderBytes(t.kind, |t.data|, timestampMs)
    ensures hdr + header + data == TagBytes(t)
  {
    hide BE24;
    assert t.timestamp % TWO24 == timestampMs % TWO24 by {
      var q := timestampMs / TWO32;
      QuotientUnique(timestampMs, q * TWO8 + t.timestamp / TWO24, TWO24, t.timestamp % TWO24);
    }
  }

  // ----- Lemmas about the stream -----

  lemma OverwrittenTwice(data: Bytes, pos: nat, a: Bytes, b: Bytes)
    requires pos <= |data|
    ensures pos + |a| <= |Overwritten(data, pos, a)|
    ensures Overwritten(Overwritten(data, pos, a), pos + |a|, b) == Overwritten(data, pos, a + b)
  {
  }

  lemma OverwrittenAtEnd(data: Bytes, bytes: Bytes)
    ensures Overwritten(data, |data|, bytes) == data + bytes
  {
  }

  lemma OneTag(t: Tag)
    requires |t.data| < TWO24
    ensures Small([t]) && Pairs([t]) == BE32(0) + TagBytes(t) && LastSize([t]) == 11 + |t.data|
  {
    PairsAppend([], t);
    assert [] + [t] == [t] && Body([]) == BE32(0);
  }

  lemma LastSizeFits(tags: seq<Tag>)
    requires Small(tags)
    ensures LastSize(tags) % TWO32 == LastSize(tags)
  {
  }

  lemma ScriptTagBytes(hdr: Bytes, data: Bytes)
    requires |data| < TWO24
    requires hdr == [0, 0, 0, 0, 0x12, |data| / TWO16 % TWO8, |data| / TWO8 % TWO8, |data| % TWO8]
                      + [0, 0, 0, 0, 0, 0, 0]
    ensures hdr + data == BE32(0) + TagBytes(Tag(0x12, 0, data))
  {
    assert TagBytes(Tag(0x12, 0, data)) == [0x12] + BE24(|data|) + BE24(0) + [0] + [0, 0, 0] + data;
  }

  /** The rewrite of the metadata tag, as a change of the whole file: only the bytes of that tag
      change, and what stands behind it is still right. */
  lemma RewrittenMeta(header: Bytes, n: Numbers, m: MetaInfo, m': MetaInfo, rest: seq<Tag>)
    requires |header| == 9 && SameCodecs(m, m') && Small([MetaTag(n, m)] + rest)
    ensures |MetaTag(n, m').data| == |MetaTag(n, m).data|
    ensures Small([MetaTag(n, m')] + rest)
    ensures var file := header + Body([MetaTag(n, m)] + rest);
      && Overwritten(file, 9, BE32(0) + TagBytes(MetaTag(n, m'))) == header + Body([MetaTag(n, m')] + rest)
      && |header + Body([MetaTag(n, m')] + rest)| == |file|
      && forall i :: 0 <= i < |file| && !(9 <= i < 24 + |MetaTag(n, m).data|) ==>
        (header + Body([MetaTag(n, m')] + rest))[i] == file[i]
  {
    MetaSizeFixed(n, m, n, m');
    hide MetaData;
    var first, first' := MetaTag(n, m), MetaTag(n, m');
    hide MetaTag;
    FirstTagInPlace(first, first', rest);
    OverwrittenFirstTag(header, first, first', rest);
  }

  lemma OverwrittenFirstTag(header: Bytes, first: Tag, first': Tag, rest: seq<Tag>)
    requires |header| == 9 && |first.data| == |first'.data| < TWO24
    requires Small([first] + rest) && Small([first'] + rest)
    requires |Body([first] + rest)| >= 15 + |first.data|
    requires Body([first'] + rest)
          == BE32(0) + TagBytes(first') + Body([first] + rest)[15 + |first.data|..]
    ensures var file, file' := header + Body([first] + rest), header + Body([first'] + rest);
      && Overwritten(file, 9, BE32(0) + TagBytes(first')) == file'
      && |file'| == |file|
      && forall i :: 0 <= i < |file| && !(9 <= i < 24 + |first.data|) ==> file'[i] == file[i]
  {
    hide Body, TagBytes, BE32, Small;
    var bytes, body := BE32(0) + TagBytes(first'), Body([first] + rest);
    assert (header + body)[..9] == header;
    assert (header + body)[9 + |bytes|..] == body[|bytes|..];
  }

  method StartHeader(videoCodec: int, audioCodec: int) returns (header: Bytes)
    ensures header == FileHeader(videoCodec, audioCodec)
  {
    header := [0x46, 0x4c, 0x56, 1, 0, 0, 0, 0, 9];
    if videoCodec != CODEC_NONE {
      header := header[4 := 1];
    }
    if audioCodec != CODEC_NONE {
      header := header[4 := header[4] + 4];
    }
  }

  /** The buffer WriteMetaData allocates and the bytes it writes from it. */
  method AssembleMetaData(n: Numbers, m: MetaInfo) returns (bytes: Bytes, totalSize: nat)
    ensures MetaTag(n, m) == Tag(0x12, 0, bytes) && totalSize == |bytes| < TWO24
  {
    var name, vals := MetaName(), Amf0.Ecma(MetaVars(n, m));
    totalSize := Amf0.Size(name) + Amf0.Size(vals);
    MetaSmall(n, m);
    hide MetaVars, Amf0.Encode, Amf0.Size;
    var buf := new u8[totalSize + 32];
    var bs := new AmfStream.Bytestream(buf);
    ghost var before := buf[..];
    var named := AmfStream.WriteValue(name, bs);
    ghost var middle := buf[..];
    var valued := AmfStream.WriteValue(vals, bs);
    bs.WroteMore(before, 0, Amf0.Encode(name), middle, Amf0.Encode(vals));
    bytes := buf[..totalSize];
  }
}
