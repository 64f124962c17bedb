/** What a player makes of the parts of an FLV file, from their bytes alone (Adobe Flash Video File
    Format Specification 10.1, Annex E.2 to E.4.3; for the AVC record ISO/IEC 14496-15, 5.2.4.1). */
module FlvReader {
  import opened Words
  import opened BigEndian
  import opened Wrappers

  // ----- The file header: Annex E.2 -----

  datatype Header = Header(version: nat, video: bool, audio: bool, dataOffset: nat)

  function ReadHeader(b: Bytes): Option<Header> {
    if |b| < 9 || b[0] != 'F' as int || b[1] != 'L' as int || b[2] != 'V' as int then None
    else Some(Header(b[3], b[4] % 2 == 1, b[4] / 4 % 2 == 1, Number(b, 5, 4)))
  }

  // ----- Video tags: Annex E.4.3 -----

  const KEY_FRAME := 1
  const INTER_FRAME := 2
  const VP6 := 4
  const AVC := 7

  /** Only AVC has a packet type and a composition time, only VP6 an adjustment. */
  datatype VideoBody = VideoBody(
    frameType: nat,
    codecId: nat,
    packetType: nat,
    composition: int,
    adjustment: nat,
    payload: Bytes)

  /** An SI24. */
  function Signed24(x: nat): int {
    if x < 0x80_0000 then x else x - 0x100_0000
  }

  function ReadVideo(d: Bytes): Option<VideoBody> {
    if d == [] then None
    else
      var frameType, codecId := d[0] / 16, d[0] % 16;
      if codecId == AVC then
        if |d| < 5 then None
        else Some(VideoBody(frameType, codecId, d[1], Signed24(Number(d, 2, 3)), 0, d[5..]))
      else if codecId == VP6 then
        if |d| < 2 then None else Some(VideoBody(frameType, codecId, 0, 0, d[1], d[2..]))
      else Some(VideoBody(frameType, codecId, 0, 0, 0, d[1..]))
  }

  /** The units of an AVC payload, each behind four bytes of length. */
  function ReadUnits(d: Bytes): Option<seq<Bytes>>
    decreases |d|
  {
    if d == [] then Some([])
    else if |d| < 4 || |d| < 4 + Number(d, 0, 4) then None
    else
      var end := 4 + Number(d, 0, 4);
      match ReadUnits(d[end..])
      case None => None
      case Some(units) => Some([d[4..end]] + units)
  }

  // ----- Audio tags: Annex E.4.2 -----

  const AAC := 10

  /** The rate counts from 5.5 kHz, doubling; only AAC has a packet type. */
  datatype AudioBody = AudioBody(
    format: nat,
    rate: nat,
    sixteenBit: bool,
    stereo: bool,
    packetType: nat,
    payload: Bytes)

  function ReadAudio(d: Bytes): Option<AudioBody> {
    if d == [] || (d[0] / 16 == AAC && |d| < 2) then None
    else
      var format, rate, sixteenBit, stereo := d[0] / 16, d[0] / 4 % 4, d[0] / 2 % 2 == 1, d[0] % 2 == 1;
      if format == AAC then Some(AudioBody(format, rate, sixteenBit, stereo, d[1], d[2..]))
      else Some(AudioBody(format, rate, sixteenBit, stereo, 0, d[1..]))
  }

  // ----- The AVC decoder configuration record -----

  datatype AvcRecord = AvcRecord(
    version: nat,
    profile: nat,
    compatibility: nat,
    level: nat,
    lengthSize: nat,
    sequenceSets: seq<Bytes>,
    pictureSets: seq<Bytes>)

  /** n parameter sets, each behind 16 bits of length, and where they end. */
  function ReadSets(d: Bytes, at: nat, n: nat): Option<(seq<Bytes>, nat)>
    decreases n
  {
    if n == 0 then Some(([], at))
    else if |d| < at + 2 || |d| < at + 2 + Number(d, at, 2) then None
    else
      var end := at + 2 + Number(d, at, 2);
      match ReadSets(d, end, n - 1)
      case None => None
      case Some((sets, stop)) => Some(([d[at + 2..end]] + sets, stop))
  }

  function ReadAvcRecord(d: Bytes): Option<AvcRecord> {
    if |d| < 6 then None
    else
      match ReadSets(d, 6, d[5] % 32)
      case None => None
      case Some((sequenceSets, at)) =>
        if |d| <= at then None
        else
          match ReadSets(d, at + 1, d[at])
          case None => None
          case Some((pictureSets, _)) =>
            Some(AvcRecord(d[0], d[1], d[2], d[3], d[4] % 4 + 1, sequenceSets, pictureSets))
  }

  // ----- A tag in its place: Annex E.4.1 -----

  /** The tag of that kind, time and data stands in b from at on. */
  predicate TagStands(b: Bytes, at: nat, kind: u8, timestamp: u32, data: Bytes) {
    && at + 11 + |data| <= |b|
    && b[at] == kind
    && Number(b, at + 1, 3) == |data|
    && b[at + 7] as int * 0x100_0000 + Number(b, at + 4, 3) == timestamp
    && Number(b, at + 8, 3) == 0
    && TextAt(b, at + 11, data)
  }

  // ----- Script data: Annex E.4.4 -----

  /** The values that onMetaData uses, each behind its type byte. */
  function ReadNumber(b: Bytes, at: nat): Option<nat> {
    if at + 9 <= |b| && b[at] == 0 then Some(Number(b, at + 1, 8)) else None
  }

  function ReadFlag(b: Bytes, at: nat): Option<nat> {
    if at + 2 <= |b| && b[at] == 1 then Some(b[at + 1]) else None
  }

  function ReadText(b: Bytes, at: nat): Option<Bytes> {
    if at + 3 <= |b| && b[at] == 2 && at + 3 + Number(b, at + 1, 2) <= |b| then
      Some(b[at + 3..at + 3 + Number(b, at + 1, 2)])
    else None
  }

  /** Where the value ends that begins at that place. */
  function ValueEnd(b: Bytes, at: nat): Option<nat> {
    if ReadNumber(b, at).Some? then Some(at + 9)
    else if ReadFlag(b, at).Some? then Some(at + 2)
    else if ReadText(b, at).Some? then Some(at + 3 + Number(b, at + 1, 2))
    else None
  }

  /** The low byte of each character, as the names of this file are written. */
  predicate IsText(t: Bytes, name: string) {
    |t| == |name| && forall i :: 0 <= i < |name| ==> t[i] == name[i] as int % 0x100
  }

  /** Where the value of the first member with that name begins, among count members from at on. */
  function Find(b: Bytes, at: nat, count: nat, name: string): Option<nat>
    decreases count
  {
    if count == 0 || |b| < at + 2 || |b| < at + 2 + Number(b, at, 2) then None
    else
      var value := at + 2 + Number(b, at, 2);
      if IsText(b[at + 2..value], name) then Some(value)
      else
        match ValueEnd(b, value)
        case None => None
        case Some(next) => Find(b, next, count - 1, name)
  }

  /** onMetaData: its name, then an ECMA array. Looks a member up. */
  function FindMeta(b: Bytes, name: string): Option<nat> {
    if |b| < 18 || ReadText(b, 0).None? || !IsText(ReadText(b, 0).value, "onMetaData") || b[13] != 8 then None
    else Find(b, 18, Number(b, 14, 4), name)
  }

  function MetaNumber(b: Bytes, name: string): Option<nat> {
    match FindMeta(b, name)
    case None => None
    case Some(at) => ReadNumber(b, at)
  }

  function MetaFlag(b: Bytes, name: string): Option<nat> {
    match FindMeta(b, name)
    case None => None
    case Some(at) => ReadFlag(b, at)
  }

  function MetaText(b: Bytes, name: string): Option<Bytes> {
    match FindMeta(b, name)
    case None => None
    case Some(at) => ReadText(b, at)
  }
}
