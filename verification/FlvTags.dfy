/** What FLVWriter makes of the packets: the tags of a run, and what a player reads in them. */
module FlvTags {
  import opened Words
  import opened BigEndian
  import opened MuxPacket
  import opened FlvFile
  import opened FlvMetadata
  import opened Wrappers
  import Reader = FlvReader

  // ----- What a packet becomes -----

  /** The major type of the media type that comes with a packet. */
  datatype Kind = Video | Audio | Other

  datatype Config = Config(
    videoCodec: int,
    audioCodec: int,
    channels: int,
    samplerate: int,
    videoExtra: Bytes,
    audioExtra: Bytes)

  /** The state that survives from packet to packet. */
  datatype Track = Track(
    isFirst: bool,
    firstMs: int,
    lastMs: int,
    durationMs: int,
    rawSize: int,
    frames: int,
    tags: seq<Tag>)

  function StartMs(p: Packet): int {
    TruncDiv(if p.timestampEx then p.dts else p.rtStart, 10000)
  }

  /** The composition offset of an H.264 packet, never negative. */
  function CompositionMs(p: Packet, relMs: int, firstMs: int): nat {
    var diff := if p.timestampEx then ToI32(TruncDiv(ToI64(p.pts - p.dts), 10000))
                else ToI32(TruncDiv(p.rtStop, 10000) - firstMs - relMs);
    if diff < 0 then 0 else diff
  }

  function VideoByte(c: Config, p: Packet): u8 {
    (if c.videoCodec == CODEC_FLV1 || c.videoCodec == CODEC_FLV4 || c.videoCodec == CODEC_H264
     then c.videoCodec else 0) + (if p.syncPoint then 0x10 else 0x20)
  }

  function VideoHeader(c: Config, p: Packet, relMs: int, firstMs: int): Bytes {
    if c.videoCodec == CODEC_H264 then
      [VideoByte(c, p), 1] + BE24(CompositionMs(p, relMs, firstMs) % TWO24)
    else if c.videoCodec == CODEC_FLV4 then [VideoByte(c, p), 0]
    else [VideoByte(c, p)]
  }

  function RateBits(samplerate: int): u8 {
    if samplerate == 11025 then 4 else if samplerate == 22050 then 8 else if samplerate == 44100 then 12 else 0
  }

  /** Format, rate, 16-bit samples and stereo; AAC always says 44 kHz. */
  function AudioHeader(c: Config): Bytes {
    var low := 2 + (if c.channels == 2 then 1 else 0);
    if c.audioCodec == CODEC_AAC then [160 + 12 + low, 1]
    else if c.audioCodec == CODEC_MP3 then [32 + RateBits(c.samplerate) + low]
    else []
  }

  /** A leading Annex B start code is replaced by the length of what follows. */
  function Nalu(data: Bytes): (r: Bytes)
    requires 4 <= |data| < TWO32
    ensures |r| == |data|
  {
    if data[..4] == [0, 0, 0, 1] then BE32(|data| - 4) + data[4..] else data
  }

  /** The bytes WritePacket counts in DataSize besides the packet data. */
  function HeaderSize(c: Config, kind: Kind): nat {
    match kind
    case Video => if c.videoCodec == CODEC_H264 then 5 else if c.videoCodec == CODEC_FLV4 then 2 else 1
    case Audio => if c.audioCodec == CODEC_AAC then 2 else 1
    case Other => 0
  }

  /** The source reads four bytes of every video packet, puts DataSize in 24 bits, and writes no
      audio header for a codec it does not know. */
  predicate Writable(c: Config, p: Packet, kind: Kind) {
    && |p.data| + HeaderSize(c, kind) < TWO24
    && (kind == Video ==> |p.data| >= 4)
    && (kind == Audio ==> c.audioCodec == CODEC_MP3 || c.audioCodec == CODEC_AAC)
  }

  function TagData(c: Config, p: Packet, kind: Kind, relMs: int, firstMs: int): Bytes
    requires Writable(c, p, kind) && kind != Other
  {
    if kind == Video then VideoHeader(c, p, relMs, firstMs) + Nalu(p.data)
    else AudioHeader(c) + p.data
  }

  function PacketTag(c: Config, p: Packet, kind: Kind, relMs: nat, firstMs: int): (t: Tag)
    requires Writable(c, p, kind) && kind != Other
    ensures |t.data| == HeaderSize(c, kind) + |p.data|
  {
    Tag(if kind == Video then 9 else 8, relMs % TWO32, TagData(c, p, kind, relMs, firstMs))
  }

  /** DataSize counts the header that is written: always for video, for audio exactly when the codec
      is one of the two that the writer knows. */
  lemma HeaderSizes(c: Config, p: Packet, relMs: int, firstMs: int)
    ensures |VideoHeader(c, p, relMs, firstMs)| == HeaderSize(c, Video)
    ensures |AudioHeader(c)| == HeaderSize(c, Audio) <==> c.audioCodec == CODEC_MP3 || c.audioCodec == CODEC_AAC
  {
  }

  // ----- The codec configuration tags -----

  /** data[hi] << 8 | data[lo] on signed characters. */
  function SignedPair(hi: u8, lo: u8): int {
    var h := if hi < 0x80 then hi else hi - 0x100;
    if lo < 0x80 then h * 0x100 + lo else lo - 0x100
  }

  /** The two parameter sets, each behind its 16-bit length, that MakeAVCc expects; every byte it
      reads is there. */
  predicate HoldsParameterSets(d: Bytes) {
    && |d| >= 7
    && SignedPair(d[0], d[1]) >= 0
    && |d| >= SignedPair(d[0], d[1]) + 4
    && var s := SignedPair(d[0], d[1]);
      && SignedPair(d[s + 2], d[s + 3]) >= 0
      && |d| >= s + 4 + SignedPair(d[s + 2], d[s + 3])
  }

  function FirstSetSize(d: Bytes): nat
    requires HoldsParameterSets(d)
  {
    SignedPair(d[0], d[1])
  }

  function SecondSetSize(d: Bytes): nat
    requires HoldsParameterSets(d)
  {
    var s := FirstSetSize(d);
    SignedPair(d[s + 2], d[s + 3])
  }

  function Avcc(d: Bytes): (r: Bytes)
    requires HoldsParameterSets(d)
    ensures |r| == 11 + FirstSetSize(d) + SecondSetSize(d)
  {
    var s, t := FirstSetSize(d), SecondSetSize(d);
    [1, d[3], d[4], d[5], d[6], 0xe1] + d[..s + 2] + [1] + d[s + 2..s + t + 4]
  }

  const EXTRADATA_ROOM := 100

  function WritesVideoExtra(c: Config): bool {
    c.videoCodec == CODEC_H264 && |c.videoExtra| > 0
  }

  function WritesAudioExtra(c: Config): bool {
    c.audioCodec == CODEC_AAC && |c.audioExtra| > 0
  }

  /** MakeAVCc succeeds on the video extradata, and the audio extradata fits a tag. */
  predicate ExtraWritable(c: Config) {
    && (WritesVideoExtra(c) ==>
          HoldsParameterSets(c.videoExtra) && |Avcc(c.videoExtra)| <= EXTRADATA_ROOM)
    && (WritesAudioExtra(c) ==> |c.audioExtra| + 2 < TWO24)
  }

  function VideoExtraTags(c: Config): seq<Tag>
    requires ExtraWritable(c)
  {
    if WritesVideoExtra(c) then [Tag(9, 0, [0x17, 0, 0, 0, 0] + Avcc(c.videoExtra))] else []
  }

  function AudioExtraTags(c: Config): seq<Tag> {
    if WritesAudioExtra(c) then [Tag(8, 0, [0xaf, 0] + c.audioExtra)] else []
  }

  // ----- One packet, and a run of packets -----

  /** The offset is taken at the first packet, behind which the codec configuration is written. */
  function Opened(c: Config, s: Track, p: Packet): Track
    requires ExtraWritable(c)
  {
    if s.isFirst then
      s.(isFirst := false, firstMs := StartMs(p), tags := s.tags + VideoExtraTags(c) + AudioExtraTags(c))
    else s
  }

  function Accepted(c: Config, o: Track, p: Packet, kind: Kind, relMs: nat): Track
    requires Writable(c, p, kind) && kind != Other
  {
    o.(lastMs := relMs,
       durationMs := relMs,
       rawSize := o.rawSize + (if kind == Video then |p.data| else 0),
       frames := o.frames + (if kind == Video then 1 else 0),
       tags := o.tags + [PacketTag(c, p, kind, relMs, o.firstMs)])
  }

  /** A packet before the first one in time is dropped; any other becomes one tag. */
  function Step(c: Config, s: Track, p: Packet, kind: Kind): Track
    requires ExtraWritable(c) && Writable(c, p, kind)
  {
    if kind == Other then s
    else
      var o := Opened(c, s, p);
      var rel := StartMs(p) - o.firstMs;
      if rel < 0 then o
      else Accepted(c, o, p, kind, rel)
  }

  lemma OnlyGrows(c: Config, s: Track, p: Packet, kind: Kind)
    requires ExtraWritable(c) && Writable(c, p, kind)
    ensures s.tags <= Step(c, s, p, kind).tags
  {
  }

  predicate AllWritable(c: Config, ps: seq<(Packet, Kind)>) {
    ExtraWritable(c) && forall i :: 0 <= i < |ps| ==> Writable(c, ps[i].0, ps[i].1)
  }

  /** The writer after the packets ps, in order. */
  function Run(c: Config, s: Track, ps: seq<(Packet, Kind)>): (r: Track)
    requires AllWritable(c, ps)
    ensures s.tags <= r.tags
  {
    if ps == [] then s
    else
      var n := |ps| - 1;
      OnlyGrows(c, Run(c, s, ps[..n]), ps[n].0, ps[n].1);
      Step(c, Run(c, s, ps[..n]), ps[n].0, ps[n].1)
  }

  // ----- What a player reads in a tag -----

  /** Whole milliseconds, rounded toward zero. */
  function Millis(t: int): int {
    if t >= 0 then t / 10000 else -((-t) / 10000)
  }

  function TimeOf(p: Packet): int {
    if p.timestampEx then p.dts else p.rtStart
  }

  /** The composition offset that the packet asks for. */
  function Wanted(p: Packet): int {
    if p.timestampEx then Millis(p.pts - p.dts) else Millis(p.rtStop) - Millis(p.rtStart)
  }

  predicate StartCode(data: Bytes) {
    |data| >= 4 && data[0] == 0 && data[1] == 0 && data[2] == 0 && data[3] == 1
  }

  /** The data, with the length of the rest in place of a start code. */
  predicate Unframed(data: Bytes, payload: Bytes) {
    && |payload| == |data|
    && (forall i :: 4 <= i < |data| ==> payload[i] == data[i])
    && if StartCode(data) then Number(payload, 0, 4) == |data| - 4
       else forall i :: 0 <= i < |data| ==> payload[i] == data[i]
  }

  /** An offset that is negative reads as none, and one below 2^23 ms as itself. */
  predicate CompositionShows(p: Packet, composition: int) {
    && (-TWO31 <= Wanted(p) < 0 && -TWO63 <= p.pts - p.dts < TWO63 ==> composition == 0)
    && (0 <= Wanted(p) < 0x80_0000 && -TWO63 <= p.pts - p.dts < TWO63 ==> composition == Wanted(p))
  }

  predicate VideoShows(c: Config, p: Packet, d: Bytes) {
    match Reader.ReadVideo(d)
    case None => false
    case Some(v) =>
      && v.frameType == (if p.syncPoint then Reader.KEY_FRAME else Reader.INTER_FRAME)
      && v.codecId == (if c.videoCodec in {2, 4, 7} then c.videoCodec else 0)
      && (c.videoCodec == 7 ==> v.packetType == 1 && CompositionShows(p, v.composition))
      && v.adjustment == 0
      && Unframed(p.data, v.payload)
  }

  predicate AudioShows(c: Config, p: Packet, d: Bytes) {
    match Reader.ReadAudio(d)
    case None => false
    case Some(a) =>
      && a.format == c.audioCodec
      && a.rate == (if c.audioCodec == 10 || c.samplerate == 44100 then 3
                    else if c.samplerate == 22050 then 2
                    else if c.samplerate == 11025 then 1
                    else 0)
      && a.sixteenBit && (a.stereo <==> c.channels == 2)
      && a.packetType == (if c.audioCodec == 10 then 1 else 0)
      && a.payload == p.data
  }

  /** The tag is of the packet: its kind, its time since firstMs and everything in its data. */
  predicate Shows(c: Config, p: Packet, kind: Kind, firstMs: int, t: Tag) {
    && kind != Other
    && t.timestamp == (Millis(TimeOf(p)) - firstMs) % TWO32
    && (if kind == Video then t.kind == 9 && VideoShows(c, p, t.data)
        else t.kind == 8 && AudioShows(c, p, t.data))
  }

  lemma MillisIs(t: int)
    ensures Millis(t) == TruncDiv(t, 10000)
  {
  }

  lemma Unframes(data: Bytes)
    requires 4 <= |data| < TWO32
    ensures Unframed(data, Nalu(data))
  {
    hide BE32, Number;
    assert data[..4] == [data[0], data[1], data[2], data[3]];
    var n := Nalu(data);
    if StartCode(data) {
      assert n[0..4] == BE32(|data| - 4);
      Number32Iff(n, 0, |data| - 4);
    }
  }

  predicate CodeAt(s: Bytes, i: nat) {
    i + 4 <= |s| && s[i] == 0 && s[i + 1] == 0 && s[i + 2] == 0 && s[i + 3] == 1
  }

  /** The first start code from i on; |s| if there is none. */
  function NextCode(s: Bytes, i: nat): (k: nat)
    requires i <= |s|
    ensures i <= k <= |s| && (k < |s| ==> CodeAt(s, k)) && forall j :: i <= j < k ==> !CodeAt(s, j)
    decreases |s| - i
  {
    if i == |s| || CodeAt(s, i) then i else NextCode(s, i + 1)
  }

  /** The units of a byte stream behind its first start code: start codes part them. */
  function StreamUnits(s: Bytes): (r: seq<Bytes>)
    ensures |r| >= 1
    decreases |s|
  {
    var k := NextCode(s, 0);
    if k == |s| then [s] else [s[..k]] + StreamUnits(s[k + 4..])
  }

  lemma OneUnitReads(n: Bytes, rest: Bytes)
    requires |n| == 4 + |rest| && Number(n, 0, 4) == |rest| && n[4..] == rest
    ensures Reader.ReadUnits(n) == Some([rest])
  {
    hide Number;
    assert n[4..4 + |rest|] == rest && n[4 + |rest|..] == [];
    assert Reader.ReadUnits([]) == Some([]);
    assert [rest] + [] == [rest];
  }

  /** Only the start code in front becomes a length, so a player finds the units that the byte stream
      holds exactly if there is no other start code in it. */
  lemma UnitsReadBackIff(data: Bytes)
    requires StartCode(data) && |data| < TWO32
    ensures Reader.ReadUnits(Nalu(data)) == Some([data[4..]])
    ensures Reader.ReadUnits(Nalu(data)) == Some(StreamUnits(data[4..])) <==>
      forall i :: 4 <= i < |data| ==> !CodeAt(data, i)
  {
    hide Number, Nalu, Reader.ReadUnits;
    Unframes(data);
    var rest := data[4..];
    OneUnitReads(Nalu(data), rest);
    assert forall i :: 0 <= i ==> (CodeAt(rest, i) <==> CodeAt(data, i + 4));
    var k := NextCode(rest, 0);
    if k == |rest| {
      forall i | 4 <= i < |data|
        ensures !CodeAt(data, i)
      {
        assert !CodeAt(rest, i - 4);
      }
    } else {
      assert CodeAt(data, k + 4);
      assert |StreamUnits(rest)| >= 2;
    }
  }

  lemma CompositionReads(c: Config, p: Packet, relMs: int, firstMs: int)
    requires relMs == StartMs(p) - firstMs
    ensures CompositionShows(p, Reader.Signed24(CompositionMs(p, relMs, firstMs) % TWO24))
    ensures 0 <= Wanted(p) < TWO31 && -TWO63 <= p.pts - p.dts < TWO63 ==>
      CompositionMs(p, relMs, firstMs) == Wanted(p)
  {
    hide TruncDiv;
    MillisIs(p.pts - p.dts);
    MillisIs(p.rtStop);
    MillisIs(p.rtStart);
    MillisIs(p.dts);
  }

  lemma VideoFields(c: Config, p: Packet)
    ensures var v := VideoByte(c, p);
      && v / 16 == (if p.syncPoint then 1 else 2)
      && v % 16 == (if c.videoCodec in {2, 4, 7} then c.videoCodec else 0)
  {
  }

  lemma VideoReads(c: Config, p: Packet, relMs: int, firstMs: int)
    requires Writable(c, p, Video) && relMs == StartMs(p) - firstMs
    ensures VideoShows(c, p, TagData(c, p, Video, relMs, firstMs))
  {
    hide CompositionMs, CompositionShows, Unframed, Nalu, VideoByte, BE24, Number;
    Unframes(p.data);
    VideoFields(c, p);
    var d, nalu := TagData(c, p, Video, relMs, firstMs), Nalu(p.data);
    if c.videoCodec == CODEC_H264 {
      var low := CompositionMs(p, relMs, firstMs) % TWO24;
      CompositionReads(c, p, relMs, firstMs);
      assert d[2..2 + 3] == BE24(low);
      Number24Iff(d, 2, low);
      assert d[5..] == nalu;
    } else if c.videoCodec == CODEC_FLV4 {
      assert d[2..] == nalu;
    } else {
      assert d[1..] == nalu;
    }
  }

  lemma AudioReads(c: Config, p: Packet, relMs: int, firstMs: int)
    requires Writable(c, p, Audio)
    ensures AudioShows(c, p, TagData(c, p, Audio, relMs, firstMs))
  {
    var d := TagData(c, p, Audio, relMs, firstMs);
    if c.audioCodec == CODEC_AAC {
      assert d[2..] == p.data;
    } else {
      assert d[1..] == p.data;
    }
  }

  /** What is read in a packet's tag is the packet. */
  lemma PacketTagShows(c: Config, p: Packet, kind: Kind, relMs: nat, firstMs: int)
    requires Writable(c, p, kind) && kind != Other && relMs == StartMs(p) - firstMs
    ensures Shows(c, p, kind, firstMs, PacketTag(c, p, kind, relMs, firstMs))
  {
    hide TagData, VideoShows, AudioShows, TruncDiv, Writable;
    MillisIs(TimeOf(p));
    if kind == Video {
      VideoReads(c, p, relMs, firstMs);
    } else {
      AudioReads(c, p, relMs, firstMs);
    }
  }

  /** The field holds 24 bits with a sign: an offset that an int can hold is read as it was asked for
      exactly when it is below 2^23 ms. */
  lemma CompositionExactIff(c: Config, p: Packet, relMs: nat, firstMs: int)
    requires Writable(c, p, Video) && c.videoCodec == CODEC_H264 && relMs == StartMs(p) - firstMs
    requires 0 <= Wanted(p) < TWO31 && -TWO63 <= p.pts - p.dts < TWO63
    ensures var v := Reader.ReadVideo(PacketTag(c, p, Video, relMs, firstMs).data);
      v.Some? && (v.value.composition == Wanted(p) <==> Wanted(p) < 0x80_0000)
  {
    hide CompositionMs, Wanted, Nalu, VideoByte, BE24, Number, StartMs;
    VideoFields(c, p);
    CompositionReads(c, p, relMs, firstMs);
    var d, low := TagData(c, p, Video, relMs, firstMs), CompositionMs(p, relMs, firstMs) % TWO24;
    assert d[2..2 + 3] == BE24(low);
    Number24Iff(d, 2, low);
  }

  /** One call of WritePacket: the tag of the packet behind the tags there were, and behind the codec
      configuration at the first call; no tag for a packet that begins before the first one did. */
  lemma StepShows(c: Config, s: Track, p: Packet, kind: Kind)
    requires ExtraWritable(c) && Writable(c, p, kind) && kind != Other
    ensures var r := Step(c, s, p, kind);
      && r.firstMs == (if s.isFirst then Millis(TimeOf(p)) else s.firstMs)
      && (Millis(TimeOf(p)) < r.firstMs ==> r == s)
      && (Millis(TimeOf(p)) >= r.firstMs ==>
            r.tags != [] && Shows(c, p, kind, r.firstMs, r.tags[|r.tags| - 1]))
  {
    hide TruncDiv, Shows, PacketTag, VideoExtraTags, AudioExtraTags;
    MillisIs(TimeOf(p));
    var o := Opened(c, s, p);
    var rel := StartMs(p) - o.firstMs;
    if rel >= 0 {
      PacketTagShows(c, p, kind, rel, o.firstMs);
    }
  }

  // ----- What a player reads in the codec configuration -----

  /** Both lengths are there and are read as they are, which takes that neither byte of a length has
      its high bit set: the bytes are signed characters. */
  lemma HoldsParameterSetsIff(d: Bytes)
    ensures HoldsParameterSets(d) <==>
      && |d| >= 7 && d[0] < 0x80 && d[1] < 0x80
      && var s := Number(d, 0, 2);
        && |d| >= s + 4 && d[s + 2] < 0x80 && d[s + 3] < 0x80
        && |d| >= s + 4 + Number(d, s + 2, 2)
    ensures HoldsParameterSets(d) ==>
      FirstSetSize(d) == Number(d, 0, 2) && SecondSetSize(d) == Number(d, FirstSetSize(d) + 2, 2)
  {
    hide Number;
    if |d| >= 7 {
      NumberOfTwo(d, 0);
      var s := SignedPair(d[0], d[1]);
      if 0 <= s <= |d| - 4 {
        NumberOfTwo(d, s + 2);
      }
    }
  }

  /** One tag for the video codec: a record with the two parameter sets. */
  predicate VideoConfigShows(extra: Bytes, t: Tag) {
    && t.kind == 9 && t.timestamp == 0
    && match Reader.ReadVideo(t.data)
       case None => false
       case Some(v) =>
         && v.frameType == Reader.KEY_FRAME && v.codecId == Reader.AVC && v.packetType == 0 && v.composition == 0
         && RecordShows(extra, Reader.ReadAvcRecord(v.payload))
  }

  /** The lengths of the units in the packets have four bytes, whatever the record says. */
  predicate RecordShows(extra: Bytes, r: Option<Reader.AvcRecord>) {
    && |extra| >= 7
    && var s := Number(extra, 0, 2);
      && |extra| >= s + 4
      && var n := Number(extra, s + 2, 2);
        && |extra| >= s + 4 + n
        && r == Some(Reader.AvcRecord(1, extra[3], extra[4], extra[5], extra[6] % 4 + 1,
                                      [extra[2..s + 2]], [extra[s + 4..s + 4 + n]]))
  }

  predicate AudioConfigShows(extra: Bytes, t: Tag) {
    && t.kind == 8 && t.timestamp == 0
    && Reader.ReadAudio(t.data) == Some(Reader.AudioBody(Reader.AAC, 3, true, true, 0, extra))
  }

  lemma ReadOneSet(d: Bytes, at: nat, parameters: Bytes)
    requires |d| >= at + 2 + |parameters| && Number(d, at, 2) == |parameters|
    requires d[at + 2..at + 2 + |parameters|] == parameters
    ensures Reader.ReadSets(d, at, 1) == Some(([parameters], at + 2 + |parameters|))
  {
    hide Number;
    assert Reader.ReadSets(d, at + 2 + |parameters|, 0) == Some(([], at + 2 + |parameters|));
    assert [parameters] + [] == [parameters];
  }

  lemma RecordParts(d: Bytes)
    requires HoldsParameterSets(d)
    ensures var s, n, r := FirstSetSize(d), SecondSetSize(d), Avcc(d);
      && |d| >= s + n + 4 && |d| >= 7 && |r| == s + n + 11
      && r[..6] == [1, d[3], d[4], d[5], d[6], 0xe1]
      && r[6..s + 8] == d[..s + 2] && r[s + 8] == 1 && r[s + 9..] == d[s + 2..s + n + 4]
  {
    hide HoldsParameterSets, FirstSetSize, SecondSetSize;
    FirstFits(d);
  }

  lemma FirstFits(d: Bytes)
    requires HoldsParameterSets(d)
    ensures |d| >= 7 && |d| >= FirstSetSize(d) + SecondSetSize(d) + 4
  {
  }

  /** The same field in two places. */
  lemma SameNumber(a: Bytes, at: nat, b: Bytes, at': nat)
    requires at + 2 <= |a| && at' + 2 <= |b| && a[at] == b[at'] && a[at + 1] == b[at' + 1]
    ensures Number(a, at, 2) == Number(b, at', 2)
  {
    NumberOfTwo(a, at);
    NumberOfTwo(b, at');
  }

  lemma RecordAhead(r: Bytes, first: Bytes, second: Bytes)
    requires |r| == |first| + |second| + 11 && r[5] == 0xe1 && r[|first| + 8] == 1
    requires Reader.ReadSets(r, 6, 1) == Some(([first], |first| + 8))
    requires Reader.ReadSets(r, |first| + 9, 1) == Some(([second], |r|))
    ensures Reader.ReadAvcRecord(r) == Some(Reader.AvcRecord(r[0], r[1], r[2], r[3], r[4] % 4 + 1, [first], [second]))
  {
    hide Reader.ReadSets;
  }

  lemma SetsInRecord(d: Bytes, r: Bytes, s: nat, n: nat)
    requires |r| == s + n + 11 && |d| >= s + n + 4
    requires r[6..s + 8] == d[..s + 2] && r[s + 9..] == d[s + 2..s + n + 4]
    requires Number(d, 0, 2) == s && Number(d, s + 2, 2) == n
    ensures Reader.ReadSets(r, 6, 1) == Some(([d[2..s + 2]], s + 8))
    ensures Reader.ReadSets(r, s + 9, 1) == Some(([d[s + 4..s + 4 + n]], |r|))
  {
    hide Number, Reader.ReadSets;
    var first, second := r[6..s + 8], r[s + 9..];
    assert first[0] == r[6] && first[1] == r[7] && second[0] == r[s + 9] && second[1] == r[s + 10];
    SameNumber(r, 6, d, 0);
    SameNumber(r, s + 9, d, s + 2);
    assert r[8..8 + s] == first[2..] == d[2..s + 2];
    assert r[s + 11..s + 11 + n] == second[2..] == d[s + 4..s + 4 + n];
    ReadOneSet(r, 6, d[2..s + 2]);
    ReadOneSet(r, s + 9, d[s + 4..s + 4 + n]);
  }

  /** The record as it is copied: both lengths and sets in their places. */
  lemma RecordReads(d: Bytes)
    requires HoldsParameterSets(d)
    ensures RecordShows(d, Reader.ReadAvcRecord(Avcc(d)))
  {
    HoldsParameterSetsIff(d);
    RecordParts(d);
    hide HoldsParameterSets, Number, Reader.ReadSets, Reader.ReadAvcRecord, Avcc, FirstSetSize, SecondSetSize;
    var s, n, r := FirstSetSize(d), SecondSetSize(d), Avcc(d);
    SetsInRecord(d, r, s, n);
    assert forall i :: 0 <= i < 6 ==> r[i] == r[..6][i];
    RecordAhead(r, d[2..s + 2], d[s + 4..s + 4 + n]);
  }

  lemma ConfigHeaderReads(payload: Bytes)
    ensures Reader.ReadVideo([0x17, 0, 0, 0, 0] + payload)
         == Some(Reader.VideoBody(Reader.KEY_FRAME, Reader.AVC, 0, 0, 0, payload))
  {
    hide Number;
    var d := [0x17, 0, 0, 0, 0] + payload;
    assert d[5..] == payload;
    assert d[2..2 + 3] == [0, 0, 0] == BE24(0);
    Number24Iff(d, 2, 0);
  }

  lemma VideoConfigReads(c: Config)
    requires ExtraWritable(c)
    ensures |VideoExtraTags(c)| == if c.videoCodec == 7 && c.videoExtra != [] then 1 else 0
    ensures VideoExtraTags(c) != [] ==> VideoConfigShows(c.videoExtra, VideoExtraTags(c)[0])
  {
    hide Avcc, HoldsParameterSets, RecordShows, Number, Reader.ReadVideo;
    if WritesVideoExtra(c) {
      ConfigHeaderReads(Avcc(c.videoExtra));
      RecordReads(c.videoExtra);
    }
  }

  /** The record announces units with lengths of four bytes, as the packets have them, exactly if the
      low bits of the seventh byte say so, which is a byte of the first parameter set. */
  lemma LengthSizeIff(c: Config)
    requires ExtraWritable(c) && WritesVideoExtra(c)
    ensures var v := Reader.ReadVideo(VideoExtraTags(c)[0].data);
      && v.Some?
      && var r := Reader.ReadAvcRecord(v.value.payload);
        r.Some? && |c.videoExtra| >= 7 && (r.value.lengthSize == 4 <==> c.videoExtra[6] % 4 == 3)
  {
    hide Avcc, HoldsParameterSets, Number, Reader.ReadVideo, Reader.ReadAvcRecord;
    ConfigHeaderReads(Avcc(c.videoExtra));
    RecordReads(c.videoExtra);
  }

  lemma AudioConfigReads(c: Config)
    ensures |AudioExtraTags(c)| == if c.audioCodec == 10 && c.audioExtra != [] then 1 else 0
    ensures AudioExtraTags(c) != [] ==> AudioConfigShows(c.audioExtra, AudioExtraTags(c)[0])
  {
    if WritesAudioExtra(c) {
      assert ([0xaf, 0] + c.audioExtra)[2..] == c.audioExtra;
    }
  }

  // ----- A whole run, as a player sees it -----

  /** When the first packet of a stream that the writer takes begins. */
  function FirstMs(ps: seq<(Packet, Kind)>): Option<int> {
    if ps == [] then None
    else if ps[0].1 != Other then Some(Millis(TimeOf(ps[0].0)))
    else FirstMs(ps[1..])
  }

  /** The packets that do not begin before firstMs. */
  function Kept(ps: seq<(Packet, Kind)>, firstMs: int): seq<(Packet, Kind)> {
    if ps == [] then []
    else
      (if ps[0].1 != Other && Millis(TimeOf(ps[0].0)) >= firstMs then [ps[0]] else []) + Kept(ps[1..], firstMs)
  }

  function VideoSizes(qs: seq<(Packet, Kind)>): nat {
    if qs == [] then 0 else (if qs[0].1 == Video then |qs[0].0.data| else 0) + VideoSizes(qs[1..])
  }

  function VideoCount(qs: seq<(Packet, Kind)>): nat {
    if qs == [] then 0 else (if qs[0].1 == Video then 1 else 0) + VideoCount(qs[1..])
  }

  /** The codec configuration, then one tag for each packet that is kept, in their order. */
  predicate Contents(c: Config, ps: seq<(Packet, Kind)>, tags: seq<Tag>) {
    match FirstMs(ps)
    case None => tags == []
    case Some(firstMs) =>
      var v := if c.videoCodec == 7 && c.videoExtra != [] then 1 else 0;
      var a := if c.audioCodec == 10 && c.audioExtra != [] then 1 else 0;
      var kept := Kept(ps, firstMs);
      && |tags| == v + a + |kept|
      && (v == 1 ==> VideoConfigShows(c.videoExtra, tags[0]))
      && (a == 1 ==> AudioConfigShows(c.audioExtra, tags[v]))
      && forall i :: 0 <= i < |kept| ==> Shows(c, kept[i].0, kept[i].1, firstMs, tags[v + a + i])
  }

  /** The counters: video bytes and frames, and the time of the last packet that was kept. */
  predicate Counted(ps: seq<(Packet, Kind)>, s0: Track, s: Track) {
    match FirstMs(ps)
    case None => s.(tags := s0.tags) == s0
    case Some(firstMs) =>
      var kept := Kept(ps, firstMs);
      && s.rawSize == s0.rawSize + VideoSizes(kept)
      && s.frames == s0.frames + VideoCount(kept)
      && kept != []
      && s.durationMs == s.lastMs == Millis(TimeOf(kept[|kept| - 1].0)) - firstMs
  }

  lemma CountersOnly(ps: seq<(Packet, Kind)>, s0: Track, s: Track, tags0: seq<Tag>, tags: seq<Tag>)
    requires Counted(ps, s0, s)
    ensures Counted(ps, s0.(tags := tags0), s.(tags := tags))
  {
  }

  lemma {:induction false} FirstMsAppend(ps: seq<(Packet, Kind)>, q: (Packet, Kind))
    ensures FirstMs(ps + [q]) ==
      if FirstMs(ps).Some? then FirstMs(ps) else if q.1 != Other then Some(Millis(TimeOf(q.0))) else None
  {
    if ps == [] {
      assert [q][1..] == [];
    } else {
      assert (ps + [q])[1..] == ps[1..] + [q];
      FirstMsAppend(ps[1..], q);
    }
  }

  function KeptOne(q: (Packet, Kind), firstMs: int): seq<(Packet, Kind)> {
    if q.1 != Other && Millis(TimeOf(q.0)) >= firstMs then [q] else []
  }

  lemma {:induction false} KeptAppend(ps: seq<(Packet, Kind)>, q: (Packet, Kind), firstMs: int)
    ensures Kept(ps + [q], firstMs) == Kept(ps, firstMs) + KeptOne(q, firstMs)
    ensures KeptOne(q, firstMs) == [] ==> Kept(ps + [q], firstMs) == Kept(ps, firstMs)
  {
    if ps == [] {
      assert [q][1..] == [];
    } else {
      assert (ps + [q])[1..] == ps[1..] + [q];
      KeptAppend(ps[1..], q, firstMs);
    }
  }

  lemma {:induction false} NoneKept(ps: seq<(Packet, Kind)>, firstMs: int)
    requires FirstMs(ps).None?
    ensures Kept(ps, firstMs) == []
  {
    if ps != [] {
      NoneKept(ps[1..], firstMs);
    }
  }

  lemma {:induction false} VideosAppend(qs: seq<(Packet, Kind)>, q: (Packet, Kind))
    ensures VideoSizes(qs + [q]) == VideoSizes(qs) + if q.1 == Video then |q.0.data| else 0
    ensures VideoCount(qs + [q]) == VideoCount(qs) + if q.1 == Video then 1 else 0
  {
    if qs == [] {
      assert [q][1..] == [];
    } else {
      assert (qs + [q])[1..] == qs[1..] + [q];
      VideosAppend(qs[1..], q);
    }
  }

  /** What holds of a run: the tags added to s0, the counters and the first time. */
  ghost predicate RunShows(c: Config, ps: seq<(Packet, Kind)>, s0: Track, s: Track) {
    && s0.tags <= s.tags
    && Contents(c, ps, s.tags[|s0.tags|..])
    && Counted(ps, s0, s)
    && s.isFirst == FirstMs(ps).None?
    && (s.isFirst ==> s == s0)
    && (FirstMs(ps).Some? ==> s.firstMs == FirstMs(ps).value)
  }

  /** Every run of packets through the writer: a player reads back the codec configuration and then
      each packet that is kept, in order, and nothing else. */
  lemma {:induction false} RunReadsBack(c: Config, s0: Track, ps: seq<(Packet, Kind)>)
    requires AllWritable(c, ps) && s0.isFirst
    ensures RunShows(c, ps, s0, Run(c, s0, ps))
  {
    if ps == [] {
    } else {
      var n := |ps| - 1;
      assert ps == ps[..n] + [ps[n]];
      RunReadsBack(c, s0, ps[..n]);
      StepReadsBack(c, s0, Run(c, s0, ps[..n]), ps[..n], ps[n]);
    }
  }

  lemma OneKept(qs: seq<(Packet, Kind)>, q: (Packet, Kind))
    requires qs == [q]
    ensures VideoSizes(qs) == if q.1 == Video then |q.0.data| else 0
    ensures VideoCount(qs) == if q.1 == Video then 1 else 0
  {
    assert qs[1..] == [];
  }

  lemma FirstReadsBack(c: Config, s0: Track, s: Track, ps: seq<(Packet, Kind)>, q: (Packet, Kind))
    requires ExtraWritable(c) && Writable(c, q.0, q.1) && q.1 != Other
    requires s0.isFirst && RunShows(c, ps, s0, s) && s.isFirst
    ensures RunShows(c, ps + [q], s0, Step(c, s, q.0, q.1))
  {
    hide ExtraWritable, Writable, VideoConfigShows, AudioConfigShows, Shows, VideoExtraTags, AudioExtraTags,
      PacketTag, Kept, FirstMs, VideoSizes, VideoCount, Millis, TruncDiv;
    var firstMs := StartMs(q.0);
    FirstMsAppend(ps, q);
    MillisIs(TimeOf(q.0));
    NoneKept(ps, firstMs);
    KeptAppend(ps, q, firstMs);
    OneKept(Kept(ps + [q], firstMs), q);
    VideoConfigReads(c);
    AudioConfigReads(c);
    PacketTagShows(c, q.0, q.1, 0, firstMs);
    var r := Step(c, s, q.0, q.1);
    assert s == s0;
    assert r.tags[|s0.tags|..]
        == VideoExtraTags(c) + AudioExtraTags(c) + [PacketTag(c, q.0, q.1, 0, firstMs)];
  }

  lemma LaterReadsBack(c: Config, s0: Track, s: Track, ps: seq<(Packet, Kind)>, q: (Packet, Kind))
    requires ExtraWritable(c) && Writable(c, q.0, q.1) && q.1 != Other
    requires s0.isFirst && RunShows(c, ps, s0, s) && !s.isFirst
    ensures RunShows(c, ps + [q], s0, Step(c, s, q.0, q.1))
  {
    hide ExtraWritable, Writable, VideoConfigShows, AudioConfigShows, Shows, VideoExtraTags, AudioExtraTags,
      PacketTag, Kept, FirstMs, VideoSizes, VideoCount, Millis, TruncDiv;
    var firstMs := FirstMs(ps).value;
    FirstMsAppend(ps, q);
    MillisIs(TimeOf(q.0));
    KeptAppend(ps, q, firstMs);
    var rel := StartMs(q.0) - firstMs;
    if rel >= 0 {
      VideosAppend(Kept(ps, firstMs), q);
      PacketTagShows(c, q.0, q.1, rel, firstMs);
      var r := Step(c, s, q.0, q.1);
      assert r.tags[|s0.tags|..] == s.tags[|s0.tags|..] + [PacketTag(c, q.0, q.1, rel, firstMs)];
    }
  }

  lemma StepReadsBack(c: Config, s0: Track, s: Track, ps: seq<(Packet, Kind)>, q: (Packet, Kind))
    requires ExtraWritable(c) && Writable(c, q.0, q.1)
    requires s0.isFirst && RunShows(c, ps, s0, s)
    ensures RunShows(c, ps + [q], s0, Step(c, s, q.0, q.1))
  {
    hide ExtraWritable, Writable, VideoConfigShows, AudioConfigShows, Shows, Kept, FirstMs, VideoSizes, VideoCount,
      Millis, TruncDiv;
    FirstMsAppend(ps, q);
    MillisIs(TimeOf(q.0));
    if q.1 == Other {
      if FirstMs(ps).Some? {
        KeptAppend(ps, q, FirstMs(ps).value);
      }
    } else if s.isFirst {
      FirstReadsBack(c, s0, s, ps, q);
    } else {
      LaterReadsBack(c, s0, s, ps, q);
    }
  }
}
