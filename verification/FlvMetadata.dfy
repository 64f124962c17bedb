/** The onMetaData tag: the AMF0 tree that WriteMetaData assembles. */
module FlvMetadata {
  import opened Words
  import opened BigEndian
  import opened Amf0
  import opened Amf0Format
  import opened Wrappers
  import Reader = FlvReader

  const CODEC_NONE := -1
  const CODEC_FLV1 := 2
  const CODEC_FLV4 := 4
  const CODEC_H264 := 7
  const CODEC_MP3 := 2
  const CODEC_AAC := 10

  /** The floating-point conversions of the source, as 64-bit patterns: an integer as a double,
      milliseconds as seconds, and the video data rate. */
  datatype Numbers = Numbers(ofInt: int -> u64, seconds: int -> u64, rate: (int, int) -> u64)

  /** What WriteMetaData reads from the writer. */
  datatype MetaInfo = MetaInfo(
    durationMs: int,
    fileSize: int,
    lastMs: int,
    videoCodec: int,
    width: int,
    height: int,
    fps: u64,
    rawSize: int,
    audioCodec: int,
    samplerate: int,
    channels: int)

  function Ascii(s: string): (r: Bytes)
    ensures |r| == |s|
  {
    seq(|s|, i requires 0 <= i < |s| => (s[i] as int) % 0x100)
  }

  function Named(name: string, v: Value): Variable {
    Variable(true, Ascii(name), v)
  }

  function Flag(b: bool): Value {
    UInt8(if b then 1 else 0)
  }

  function CommonVars(n: Numbers, m: MetaInfo): seq<Variable> {
    [ Named("duration", Double(n.seconds(m.durationMs))),
      Named("filesize", Double(n.ofInt(m.fileSize))),
      Named("metadatacreator", Str(2, Ascii("MONOGRAM FLV Mux"))),
      Named("hasCuePoints", Flag(false)),
      Named("canSeekToEnd", Flag(false)),
      Named("hasKeyframes", Flag(false)),
      Named("lasttimestamp", Double(n.seconds(m.lastMs))) ]
  }

  function VideoVars(n: Numbers, m: MetaInfo): seq<Variable> {
    if m.videoCodec == CODEC_NONE then [Named("hasVideo", Flag(false))]
    else
      [ Named("hasVideo", Flag(true)),
        Named("width", Double(n.ofInt(m.width))),
        Named("height", Double(n.ofInt(m.height))),
        Named("framerate", Double(m.fps)),
        Named("videocodecid", Double(n.ofInt(m.videoCodec))),
        Named("videodatarate", Double(if m.durationMs > 0 then n.rate(m.rawSize, m.durationMs) else 0)) ]
  }

  function AudioVars(n: Numbers, m: MetaInfo): seq<Variable> {
    if m.audioCodec == CODEC_NONE then [Named("hasAudio", Flag(false))]
    else
      [ Named("hasAudio", Flag(true)),
        Named("audiocodecid", Double(n.ofInt(m.audioCodec))),
        Named("audiosamplerate", Double(n.ofInt(m.samplerate))),
        Named("audiosamplesize", Double(n.ofInt(16))),
        Named("stereo", Flag(m.channels >= 2)) ]
  }

  function MetaVars(n: Numbers, m: MetaInfo): seq<Variable> {
    CommonVars(n, m) + VideoVars(n, m) + AudioVars(n, m)
  }

  function MetaName(): Value {
    Str(2, Ascii("onMetaData"))
  }

  /** The bytes of the script data tag behind its header. */
  function MetaData(n: Numbers, m: MetaInfo): Bytes {
    Encode(MetaName()) + Encode(Ecma(MetaVars(n, m)))
  }

  // ----- Its length -----

  /** The lists agree member by member in what Size counts, and every member is small and named. */
  ghost predicate SameShape(ms: seq<Variable>, ms': seq<Variable>) {
    && |ms| == |ms'|
    && forall i :: 0 <= i < |ms| ==> Plain(ms[i]) && SizeVar(ms[i]) == SizeVar(ms'[i])
  }

  ghost predicate Plain(m: Variable) {
    && EncodableVar(m, true)
    && StrictUnnamed(m.value)
    && !HasEcma(m.value)
    && SizeVar(m) < 100
  }

  lemma {:induction false} SameShapeSameSize(ms: seq<Variable>, ms': seq<Variable>)
    requires SameShape(ms, ms')
    ensures SizeVars(ms) == SizeVars(ms') <= 100 * |ms|
    ensures EncodableVars(ms, true) && StrictUnnamedVars(ms, true) && !HasEcmaVars(ms)
  {
    if ms != [] {
      assert Plain(ms[0]);
      SameShapeSameSize(ms[1..], ms'[1..]);
    }
  }

  /** The members the writer makes: short names, and values whose size their type fixes. */
  lemma NamedIsPlain(name: string, v: Value)
    requires |name| < 60 && (v.Double? || v.UInt8? || (v.Str? && v.tag == 2 && |v.text| < 20))
    ensures Plain(Named(name, v)) && SizeVar(Named(name, v)) == 2 + |name| + Size(v)
  {
  }

  lemma AllNamedArePlain()
    ensures forall name: string, v: Value {:trigger Named(name, v)} ::
      |name| < 60 && (v.Double? || v.UInt8? || (v.Str? && v.tag == 2 && |v.text| < 20)) ==>
      Plain(Named(name, v)) && SizeVar(Named(name, v)) == 2 + |name| + Size(v)
  {
    forall name: string, v: Value | |name| < 60 && (v.Double? || v.UInt8? || (v.Str? && v.tag == 2 && |v.text| < 20))
      ensures Plain(Named(name, v)) && SizeVar(Named(name, v)) == 2 + |name| + Size(v)
    {
      NamedIsPlain(name, v);
    }
  }

  lemma CommonShape(n: Numbers, m: MetaInfo, n': Numbers, m': MetaInfo)
    ensures SameShape(CommonVars(n, m), CommonVars(n', m'))
  {
    AllNamedArePlain();
    hide Named, Plain, SizeVar;
  }

  lemma VideoShape(n: Numbers, m: MetaInfo, n': Numbers, m': MetaInfo)
    requires (m.videoCodec == CODEC_NONE) == (m'.videoCodec == CODEC_NONE)
    ensures SameShape(VideoVars(n, m), VideoVars(n', m'))
  {
    AllNamedArePlain();
    hide Named, Plain, SizeVar;
  }

  lemma AudioShape(n: Numbers, m: MetaInfo, n': Numbers, m': MetaInfo)
    requires (m.audioCodec == CODEC_NONE) == (m'.audioCodec == CODEC_NONE)
    ensures SameShape(AudioVars(n, m), AudioVars(n', m'))
  {
    AllNamedArePlain();
    hide Named, Plain, SizeVar;
  }

  ghost predicate SameCodecs(m: MetaInfo, m': MetaInfo) {
    && (m.videoCodec == CODEC_NONE) == (m'.videoCodec == CODEC_NONE)
    && (m.audioCodec == CODEC_NONE) == (m'.audioCodec == CODEC_NONE)
  }

  lemma MetaShape(n: Numbers, m: MetaInfo, n': Numbers, m': MetaInfo)
    requires SameCodecs(m, m')
    ensures SameShape(MetaVars(n, m), MetaVars(n', m'))
  {
    CommonShape(n, m, n', m');
    VideoShape(n, m, n', m');
    AudioShape(n, m, n', m');
    hide CommonVars, VideoVars, AudioVars, Plain, SizeVar;
  }

  /** The length of the metadata depends only on which codecs are present. */
  lemma MetaSizeFixed(n: Numbers, m: MetaInfo, n': Numbers, m': MetaInfo)
    requires SameCodecs(m, m')
    ensures |MetaData(n, m)| == |MetaData(n', m')|
  {
    MetaShape(n, m, n', m');
    MetaShape(n', m', n, m);
    hide MetaVars;
    SameShapeSameSize(MetaVars(n, m), MetaVars(n', m'));
    SameShapeSameSize(MetaVars(n', m'), MetaVars(n, m));
    WriteEmitsSize(Ecma(MetaVars(n, m)));
    WriteEmitsSize(Ecma(MetaVars(n', m')));
  }

  lemma MetaSmall(n: Numbers, m: MetaInfo)
    ensures |MetaData(n, m)| < TWO24
    ensures |MetaData(n, m)| == Size(MetaName()) + Size(Ecma(MetaVars(n, m)))
    ensures Encodable(Ecma(MetaVars(n, m))) && !HasEcmaVars(MetaVars(n, m))
  {
    MetaShape(n, m, n, m);
    assert |MetaVars(n, m)| <= 18;
    hide MetaVars;
    SameShapeSameSize(MetaVars(n, m), MetaVars(n, m));
    WriteEmitsSize(Ecma(MetaVars(n, m)));
    WriteEmitsSize(MetaName());
  }

  /** A player that reads the metadata back finds the name, then the members, and among them the
      file size and the duration that the writer held. */
  lemma MetaReadsBack(n: Numbers, m: MetaInfo)
    ensures var vals := MetaVars(n, m);
      && DecodeValue(MetaData(n, m)) == Done(MetaName(), Encode(Ecma(vals)))
      && DecodeValue(Encode(Ecma(vals))) == Done(Ecma(vals), EndMarker())
      && vals[0] == Named("duration", Double(n.seconds(m.durationMs)))
      && vals[1] == Named("filesize", Double(n.ofInt(m.fileSize)))
  {
    MetaSmall(n, m);
    var vals := MetaVars(n, m);
    assert vals[0] == CommonVars(n, m)[0] && vals[1] == CommonVars(n, m)[1];
    hide MetaVars, VideoVars, AudioVars, Encode, DecodeValue, EndMarker, HasEcmaVars, EncodableVars, Ascii, Size;
    ReadText(2, Ascii("onMetaData"), Encode(Ecma(vals)));
    ReadRootEcma(vals, []);
    assert Encode(Ecma(vals)) + [] == Encode(Ecma(vals)) && EndMarker() + [] == EndMarker();
  }

  // ----- What a player finds in it -----

  /** The names in the order in which the members are added. */
  function NameOf(k: nat): string {
    match k
    case 0 => "duration"
    case 1 => "filesize"
    case 2 => "metadatacreator"
    case 3 => "hasCuePoints"
    case 4 => "canSeekToEnd"
    case 5 => "hasKeyframes"
    case 6 => "lasttimestamp"
    case 7 => "hasVideo"
    case 8 => "width"
    case 9 => "height"
    case 10 => "framerate"
    case 11 => "videocodecid"
    case 12 => "videodatarate"
    case 13 => "hasAudio"
    case 14 => "audiocodecid"
    case 15 => "audiosamplerate"
    case 16 => "audiosamplesize"
    case _ => "stereo"
  }

  /** The place of a name, from its length and a few letters. */
  function Place(s: Bytes): nat {
    if |s| < 5 then 18
    else match |s|
      case 5 => 8
      case 6 => if s[0] == 'h' as int then 9 else 17
      case 8 => if s[0] == 'd' as int then 0 else if s[0] == 'f' as int then 1
                else if s[3] == 'V' as int then 7 else 13
      case 9 => 10
      case 12 => if s[0] == 'c' as int then 4 else if s[0] == 'v' as int then 11 else if s[0] == 'a' as int then 14
                 else if s[3] == 'C' as int then 3 else 5
      case 13 => if s[0] == 'l' as int then 6 else 12
      case _ => if |s| < 15 then 18 else if s[0] == 'm' as int then 2 else if s[11] == 'r' as int then 15 else 16
  }

  lemma NameHasPlace(k: nat)
    requires k < 18
    ensures Place(Ascii(NameOf(k))) == k && |NameOf(k)| < 0x100
  {
  }

  /** The member with the name of that place. */
  predicate IsNamed(m: Variable, place: nat) {
    place < 18 && m.name == Ascii(NameOf(place))
  }

  lemma IsTextIff(t: Bytes, name: string)
    ensures Reader.IsText(t, name) <==> t == Ascii(name)
  {
  }

  lemma SameNameIff(j: nat, k: nat)
    requires j < 18 && k < 18
    ensures Reader.IsText(Ascii(NameOf(j)), NameOf(k)) <==> j == k
  {
    hide NameOf, Place, Reader.IsText, Ascii;
    NameHasPlace(j);
    NameHasPlace(k);
    IsTextIff(Ascii(NameOf(j)), NameOf(k));
  }

  // ----- Looking a member up -----

  predicate Simple(m: Variable) {
    && m.hasname && |m.name| < TWO16
    && (m.value.Double? || m.value.UInt8? || (m.value.Str? && m.value.tag == 2 && |m.value.text| < TWO16))
  }

  /** The value of the first member with that name. */
  function FirstNamed(ms: seq<Variable>, name: string): Option<Value> {
    if ms == [] then None
    else if Reader.IsText(ms[0].name, name) then Some(ms[0].value)
    else FirstNamed(ms[1..], name)
  }

  /** The value is read from that place on. */
  predicate ValueAt(b: Bytes, at: nat, v: Value) {
    match v
    case Double(bits) => Reader.ReadNumber(b, at) == Some(bits)
    case UInt8(value) => Reader.ReadFlag(b, at) == Some(value)
    case Str(_, text) => Reader.ReadText(b, at) == Some(text)
    case _ => false
  }

  lemma SimpleStands(b: Bytes, at: nat, m: Variable, end: nat)
    requires Simple(m) && VarStands(b, at, m, true, end)
    ensures at + 2 + |m.name| < end <= |b| && Number(b, at, 2) == |m.name|
    ensures b[at + 2..at + 2 + |m.name|] == m.name
    ensures ValueAt(b, at + 2 + |m.name|, m.value) && Reader.ValueEnd(b, at + 2 + |m.name|) == Some(end)
  {
    hide Number;
    var value := at + 2 + |m.name|;
    TextIsSlice(b, at + 2, m.name);
    if m.value.Str? {
      TextIsSlice(b, value + 3, m.value.text);
    }
  }

  lemma {:induction false} FindIsFirst(b: Bytes, at: nat, ms: seq<Variable>, end: nat, name: string)
    requires VarsStand(b, at, ms, true, end) && forall i :: 0 <= i < |ms| ==> Simple(ms[i])
    ensures match FirstNamed(ms, name)
      case None => Reader.Find(b, at, |ms|, name) == None
      case Some(v) => Reader.Find(b, at, |ms|, name).Some? && ValueAt(b, Reader.Find(b, at, |ms|, name).value, v)
    decreases |ms|
  {
    hide VarStands, ValueAt, Reader.ValueEnd, Reader.IsText, Simple, Number;
    if ms != [] {
      var mid: nat :| VarStands(b, at, ms[0], true, mid) && VarsStand(b, mid, ms[1..], true, end);
      SimpleStands(b, at, ms[0], mid);
      FindIsFirst(b, mid, ms[1..], end, name);
    }
  }

  /** With the members named by these places, each once, a name finds the member of its place. */
  lemma {:induction false} FirstIs(ms: seq<Variable>, places: seq<nat>, k: nat)
    requires |ms| == |places| && k < 18
    requires forall i :: 0 <= i < |ms| ==> IsNamed(ms[i], places[i])
    requires forall i, j :: 0 <= i < j < |ms| ==> places[i] != places[j]
    ensures match FirstNamed(ms, NameOf(k))
      case None => k !in places
      case Some(v) => exists i :: 0 <= i < |ms| && places[i] == k && v == ms[i].value
  {
    hide Reader.IsText, NameOf;
    if ms != [] {
      SameNameIff(places[0], k);
      if places[0] != k {
        FirstIs(ms[1..], places[1..], k);
        if FirstNamed(ms[1..], NameOf(k)).Some? {
          var v := FirstNamed(ms[1..], NameOf(k)).value;
          var i :| 0 <= i < |ms[1..]| && places[1..][i] == k && v == ms[1..][i].value;
          assert places[i + 1] == k && ms[i + 1] == ms[1..][i];
        }
      }
    }
  }

  // ----- What the members say -----

  function CommonPlaces(): seq<nat> {
    [0, 1, 2, 3, 4, 5, 6]
  }

  function VideoPlaces(m: MetaInfo): seq<nat> {
    if m.videoCodec == CODEC_NONE then [7] else [7, 8, 9, 10, 11, 12]
  }

  function AudioPlaces(m: MetaInfo): seq<nat> {
    if m.audioCodec == CODEC_NONE then [13] else [13, 14, 15, 16, 17]
  }

  function Places(m: MetaInfo): seq<nat> {
    CommonPlaces() + VideoPlaces(m) + AudioPlaces(m)
  }

  ghost predicate Sited(ms: seq<Variable>, places: seq<nat>) {
    |ms| == |places| && forall i :: 0 <= i < |ms| ==> Simple(ms[i]) && IsNamed(ms[i], places[i])
  }

  lemma CommonSited(n: Numbers, m: MetaInfo)
    ensures Sited(CommonVars(n, m), CommonPlaces())
  {
  }

  lemma VideoSited(n: Numbers, m: MetaInfo)
    ensures Sited(VideoVars(n, m), VideoPlaces(m))
  {
  }

  lemma AudioSited(n: Numbers, m: MetaInfo)
    ensures Sited(AudioVars(n, m), AudioPlaces(m))
  {
  }

  lemma AllSited(n: Numbers, m: MetaInfo)
    ensures Sited(MetaVars(n, m), Places(m))
    ensures forall i, j :: 0 <= i < j < |Places(m)| ==> Places(m)[i] != Places(m)[j]
  {
    CommonSited(n, m);
    VideoSited(n, m);
    AudioSited(n, m);
    hide CommonVars, VideoVars, AudioVars, Simple, IsNamed;
  }

  lemma NameRead(rest: Bytes)
    ensures var b := Encode(MetaName()) + rest;
      |Encode(MetaName())| == 13 && Reader.ReadText(b, 0) == Some(Ascii("onMetaData"))
  {
    hide Number, Ascii;
    var b := Encode(MetaName()) + rest;
    WriteStands([], MetaName(), rest);
    assert [] + Encode(MetaName()) + rest == b;
    TextIsSlice(b, 3, Ascii("onMetaData"));
  }

  lemma MembersStand(n: Numbers, m: MetaInfo)
    ensures var b := MetaData(n, m);
      && |b| >= 21 && Reader.ReadText(b, 0) == Some(Ascii("onMetaData")) && b[13] == 8
      && Number(b, 14, 4) == |MetaVars(n, m)|
      && VarsStand(b, 18, MetaVars(n, m), true, |b| - 3)
  {
    var b, vals := MetaData(n, m), MetaVars(n, m);
    NameRead(Encode(Ecma(vals)));
    MetaSmall(n, m);
    hide MetaVars, Encode, Number, VarsStand, Reader.ReadText, EncodableVars, MetaName;
    StandsIff(b, 13, Ecma(vals), |b|);
  }

  /** Where the player looks for the member of a place, it finds its value, or nothing when there is
      no such member. */
  lemma MemberFound(n: Numbers, m: MetaInfo, i: nat, k: nat)
    requires k < 18
    requires i < |Places(m)| ==> Places(m)[i] == k
    requires i >= |Places(m)| ==> k !in Places(m)
    ensures |MetaVars(n, m)| == |Places(m)|
    ensures var b := MetaData(n, m);
      if i < |Places(m)| then
        && Reader.FindMeta(b, NameOf(k)).Some?
        && ValueAt(b, Reader.FindMeta(b, NameOf(k)).value, MetaVars(n, m)[i].value)
      else Reader.FindMeta(b, NameOf(k)) == None
  {
    hide MetaVars, Places, Number, VarsStand, MetaData, NameOf, ValueAt, Simple, Reader.Find;
    AllSited(n, m);
    MembersStand(n, m);
    IsTextIff(Ascii("onMetaData"), "onMetaData");
    FirstIs(MetaVars(n, m), Places(m), k);
    FindIsFirst(MetaData(n, m), 18, MetaVars(n, m), |MetaData(n, m)| - 3, NameOf(k));
  }

  predicate CommonMetaShows(n: Numbers, m: MetaInfo, b: Bytes) {
    && Reader.MetaNumber(b, "duration") == Some(n.seconds(m.durationMs))
    && Reader.MetaNumber(b, "filesize") == Some(n.ofInt(m.fileSize))
    && Reader.MetaText(b, "metadatacreator").Some?
    && Reader.IsText(Reader.MetaText(b, "metadatacreator").value, "MONOGRAM FLV Mux")
    && Reader.MetaFlag(b, "hasCuePoints") == Some(0)
    && Reader.MetaFlag(b, "canSeekToEnd") == Some(0)
    && Reader.MetaFlag(b, "hasKeyframes") == Some(0)
    && Reader.MetaNumber(b, "lasttimestamp") == Some(n.seconds(m.lastMs))
  }

  /** Without video only the flag is there. */
  predicate VideoMetaShows(n: Numbers, m: MetaInfo, b: Bytes) {
    if m.videoCodec == CODEC_NONE then
      && Reader.MetaFlag(b, "hasVideo") == Some(0)
      && Reader.FindMeta(b, "width") == Reader.FindMeta(b, "height") == Reader.FindMeta(b, "framerate") == None
      && Reader.FindMeta(b, "videocodecid") == Reader.FindMeta(b, "videodatarate") == None
    else
      && Reader.MetaFlag(b, "hasVideo") == Some(1)
      && Reader.MetaNumber(b, "width") == Some(n.ofInt(m.width))
      && Reader.MetaNumber(b, "height") == Some(n.ofInt(m.height))
      && Reader.MetaNumber(b, "framerate") == Some(m.fps)
      && Reader.MetaNumber(b, "videocodecid") == Some(n.ofInt(m.videoCodec))
      && Reader.MetaNumber(b, "videodatarate")
           == Some(if m.durationMs > 0 then n.rate(m.rawSize, m.durationMs) else 0)
  }

  predicate AudioMetaShows(n: Numbers, m: MetaInfo, b: Bytes) {
    if m.audioCodec == CODEC_NONE then
      && Reader.MetaFlag(b, "hasAudio") == Some(0)
      && Reader.FindMeta(b, "audiocodecid") == Reader.FindMeta(b, "audiosamplerate") == None
      && Reader.FindMeta(b, "audiosamplesize") == Reader.FindMeta(b, "stereo") == None
    else
      && Reader.MetaFlag(b, "hasAudio") == Some(1)
      && Reader.MetaNumber(b, "audiocodecid") == Some(n.ofInt(m.audioCodec))
      && Reader.MetaNumber(b, "audiosamplerate") == Some(n.ofInt(m.samplerate))
      && Reader.MetaNumber(b, "audiosamplesize") == Some(n.ofInt(16))
      && Reader.MetaFlag(b, "stereo") == Some(if m.channels >= 2 then 1 else 0)
  }

  lemma NumberFound(n: Numbers, m: MetaInfo, i: nat, k: nat, bits: u64)
    requires k < 18 && i < |Places(m)| && Places(m)[i] == k
    requires i < |MetaVars(n, m)| && MetaVars(n, m)[i].value == Double(bits)
    ensures Reader.MetaNumber(MetaData(n, m), NameOf(k)) == Some(bits)
  {
    hide MetaData, Reader.FindMeta, MetaVars, Places, NameOf;
    MemberFound(n, m, i, k);
  }

  lemma FlagFound(n: Numbers, m: MetaInfo, i: nat, k: nat, value: u8)
    requires k < 18 && i < |Places(m)| && Places(m)[i] == k
    requires i < |MetaVars(n, m)| && MetaVars(n, m)[i].value == UInt8(value)
    ensures Reader.MetaFlag(MetaData(n, m), NameOf(k)) == Some(value)
  {
    hide MetaData, Reader.FindMeta, MetaVars, Places, NameOf;
    MemberFound(n, m, i, k);
  }

  lemma TextFound(n: Numbers, m: MetaInfo, i: nat, k: nat, text: Bytes)
    requires k < 18 && i < |Places(m)| && Places(m)[i] == k
    requires i < |MetaVars(n, m)| && MetaVars(n, m)[i].value == Str(2, text)
    ensures Reader.MetaText(MetaData(n, m), NameOf(k)) == Some(text)
  {
    hide MetaData, Reader.FindMeta, MetaVars, Places, NameOf;
    MemberFound(n, m, i, k);
  }

  lemma Missing(n: Numbers, m: MetaInfo, k: nat)
    requires k < 18 && k !in Places(m)
    ensures Reader.FindMeta(MetaData(n, m), NameOf(k)) == None
  {
    hide MetaData, Reader.FindMeta, MetaVars, Places, NameOf;
    MemberFound(n, m, |Places(m)|, k);
  }

  lemma CommonMetaReads(n: Numbers, m: MetaInfo)
    ensures CommonMetaShows(n, m, MetaData(n, m))
  {
    hide MetaData, Reader.MetaNumber, Reader.MetaFlag, Reader.MetaText, VideoVars, AudioVars, Ascii, Reader.IsText;
    NumberFound(n, m, 0, 0, n.seconds(m.durationMs));
    NumberFound(n, m, 1, 1, n.ofInt(m.fileSize));
    TextFound(n, m, 2, 2, Ascii("MONOGRAM FLV Mux"));
    IsTextIff(Ascii("MONOGRAM FLV Mux"), "MONOGRAM FLV Mux");
    FlagFound(n, m, 3, 3, 0);
    FlagFound(n, m, 4, 4, 0);
    FlagFound(n, m, 5, 5, 0);
    NumberFound(n, m, 6, 6, n.seconds(m.lastMs));
  }

  lemma VideoMetaReads(n: Numbers, m: MetaInfo)
    ensures VideoMetaShows(n, m, MetaData(n, m))
  {
    hide MetaData, Reader.MetaNumber, Reader.MetaFlag, Reader.FindMeta, AudioVars, Ascii, AudioPlaces;
    if m.videoCodec == CODEC_NONE {
      NoVideoPlaces(m);
      FlagFound(n, m, 7, 7, 0);
      Missing(n, m, 8);
      Missing(n, m, 9);
      Missing(n, m, 10);
      Missing(n, m, 11);
      Missing(n, m, 12);
    } else {
      FlagFound(n, m, 7, 7, 1);
      NumberFound(n, m, 8, 8, n.ofInt(m.width));
      NumberFound(n, m, 9, 9, n.ofInt(m.height));
      NumberFound(n, m, 10, 10, m.fps);
      NumberFound(n, m, 11, 11, n.ofInt(m.videoCodec));
      NumberFound(n, m, 12, 12, if m.durationMs > 0 then n.rate(m.rawSize, m.durationMs) else 0);
    }
  }

  lemma NoVideoPlaces(m: MetaInfo)
    requires m.videoCodec == CODEC_NONE
    ensures forall k :: 8 <= k < 13 ==> k !in Places(m)
  {
  }

  lemma NoAudioPlaces(m: MetaInfo)
    requires m.audioCodec == CODEC_NONE
    ensures forall k :: 14 <= k < 18 ==> k !in Places(m)
  {
  }

  lemma AudioPart(n: Numbers, m: MetaInfo, i: nat, j: nat)
    requires i == (if m.videoCodec == CODEC_NONE then 8 else 13) && j < |AudioVars(n, m)| == |AudioPlaces(m)|
    ensures |MetaVars(n, m)| > i + j && MetaVars(n, m)[i + j] == AudioVars(n, m)[j]
    ensures |Places(m)| > i + j && Places(m)[i + j] == AudioPlaces(m)[j]
  {
    hide AudioVars, AudioPlaces, Named;
    assert |CommonVars(n, m) + VideoVars(n, m)| == i && |CommonPlaces() + VideoPlaces(m)| == i;
  }

  lemma NoAudioMetaReads(n: Numbers, m: MetaInfo, i: nat)
    requires m.audioCodec == CODEC_NONE && i == if m.videoCodec == CODEC_NONE then 8 else 13
    ensures AudioMetaShows(n, m, MetaData(n, m))
  {
    hide MetaData, Reader.MetaFlag, Reader.FindMeta, Ascii, MetaVars, Places;
    AudioPart(n, m, i, 0);
    NoAudioPlaces(m);
    FlagFound(n, m, i, 13, 0);
    Missing(n, m, 14);
    Missing(n, m, 15);
    Missing(n, m, 16);
    Missing(n, m, 17);
  }

  lemma AudioMetaReads(n: Numbers, m: MetaInfo)
    ensures AudioMetaShows(n, m, MetaData(n, m))
  {
    hide MetaData, Reader.MetaNumber, Reader.MetaFlag, Reader.FindMeta, Ascii, MetaVars, Places;
    var i := if m.videoCodec == CODEC_NONE then 8 else 13;
    if m.audioCodec == CODEC_NONE {
      NoAudioMetaReads(n, m, i);
    } else {
      AudioPart(n, m, i, 0);
      AudioPart(n, m, i, 1);
      AudioPart(n, m, i, 2);
      AudioPart(n, m, i, 3);
      AudioPart(n, m, i, 4);
      FlagFound(n, m, i, 13, 1);
      NumberFound(n, m, i + 1, 14, n.ofInt(m.audioCodec));
      NumberFound(n, m, i + 2, 15, n.ofInt(m.samplerate));
      NumberFound(n, m, i + 3, 16, n.ofInt(16));
      FlagFound(n, m, i + 4, 17, if m.channels >= 2 then 1 else 0);
    }
  }

  ghost predicate MetaShows(n: Numbers, m: MetaInfo, b: Bytes) {
    && CommonMetaShows(n, m, b) && VideoMetaShows(n, m, b) && AudioMetaShows(n, m, b)
    && |b| >= 21 && Number(b, |b| - 3, 3) == 9
  }

  /** A player that looks the members up by their names, in the bytes of the metadata, finds what the
      writer knows: the flags, the numbers and the text; and no name that is not there. */
  lemma MetaReads(n: Numbers, m: MetaInfo)
    ensures MetaShows(n, m, MetaData(n, m))
  {
    CommonMetaReads(n, m);
    VideoMetaReads(n, m);
    AudioMetaReads(n, m);
    MembersStand(n, m);
    hide MetaVars, CommonMetaShows, VideoMetaShows, AudioMetaShows, Number, VarsStand, Encode, EndMarker;
    var b := MetaData(n, m);
    EcmaEnds(MetaVars(n, m));
    assert b[|b| - 3..|b| - 3 + 3] == EndMarker();
    EndMarkerBytes();
    Number24Iff(b, |b| - 3, 9);
  }

  lemma EcmaEnds(ms: seq<Variable>)
    ensures |Encode(Ecma(ms))| >= 8 && Encode(Ecma(ms))[|Encode(Ecma(ms))| - 3..] == EndMarker()
  {
    hide EncodeVars;
  }

  lemma EndMarkerBytes()
    ensures EndMarker() == BE24(9)
  {
  }
}
