/** The bytes of an AMF0 value by their places: what Write emits, said without the writer and
    without the reader (Adobe AMF 0 specification, sections 2.2 to 2.14). */
module Amf0Format {
  import opened Words
  import opened BigEndian
  import opened Amf0

  /** The type markers of section 2.1. A string keeps the type byte that it has. */
  function Marker(v: Value): u8 {
    match v
    case Double(_) => 0
    case UInt8(_) => 1
    case Str(tag, _) => tag
    case Obj(_) => 3
    case Null => 5
    case UInt16(_) => 7
    case Ecma(_) => 8
    case Strict(_) => 10
    case Date(_, _) => 11
    case LongStr(_) => 12
  }

  predicate EndsObject(b: Bytes, at: nat, end: nat) {
    at + 3 == end <= |b| && b[at] == 0 && b[at + 1] == 0 && b[at + 2] == 9
  }

  /** A text of that length behind the n bytes of its length. */
  predicate TextStands(b: Bytes, at: nat, n: nat, bound: nat, text: Bytes, end: nat)
    requires bound > 0
  {
    at + n + |text| == end <= |b| && Number(b, at, n) == |text| % bound && TextAt(b, at + n, text)
  }

  /** The value stands in b from at to end. */
  ghost predicate Stands(b: Bytes, at: nat, v: Value, end: nat)
    decreases v, 0
  {
    && at < end <= |b|
    && b[at] == Marker(v)
    && match v
       case Double(bits) => end == at + 9 && Number(b, at + 1, 8) == bits
       case UInt8(value) => end == at + 2 && b[at + 1] == value
       case Str(_, text) => TextStands(b, at + 1, 2, TWO16, text, end)
       case Obj(members) =>
         at + 4 <= end && VarsStand(b, at + 1, members, true, end - 3) && EndsObject(b, end - 3, end)
       case Null => end == at + 1
       case UInt16(word) => end == at + 3 && Number(b, at + 1, 2) == word
       case Ecma(members) =>
         && at + 8 <= end && Number(b, at + 1, 4) == |members| % TWO32
         && VarsStand(b, at + 5, members, true, end - 3) && EndsObject(b, end - 3, end)
       case Strict(members) =>
         && at + 5 <= end && Number(b, at + 1, 4) == |members| % TWO32
         && VarsStand(b, at + 5, members, false, end)
       case Date(datetime, offset) =>
         end == at + 11 && Number(b, at + 1, 8) == datetime && Number(b, at + 9, 2) == offset % TWO16
       case LongStr(text) => TextStands(b, at + 1, 4, TWO32, text, end)
  }

  /** A member: its name behind 16 bits of length, if it is written with one, and its value. */
  ghost predicate VarStands(b: Bytes, at: nat, m: Variable, named: bool, end: nat)
    decreases m, 1
  {
    if named && m.hasname then
      && TextStands(b, at, 2, TWO16, m.name, at + 2 + |m.name|)
      && Stands(b, at + 2 + |m.name|, m.value, end)
    else Stands(b, at, m.value, end)
  }

  /** The members side by side. */
  ghost predicate VarsStand(b: Bytes, at: nat, ms: seq<Variable>, named: bool, end: nat)
    decreases ms, 2
  {
    if ms == [] then at == end <= |b|
    else
      exists mid: nat :: VarStands(b, at, ms[0], named, mid) && VarsStand(b, mid, ms[1..], named, end)
  }

  /** The bytes from at to end are s. */
  predicate Holds(b: Bytes, at: nat, s: Bytes, end: nat) {
    at + |s| == end && HoldsAt(b, at, s)
  }

  lemma TextHolds(b: Bytes, at: nat, text: Bytes, end: nat)
    ensures TextStands(b, at, 2, TWO16, text, end) <==> Holds(b, at, EncodeString(text), end)
  {
    hide BE16, Number;
    HoldsParts(b, at, BE16(|text| % TWO16), text);
    if at + 2 + |text| == end <= |b| {
      Number16Iff(b, at, |text| % TWO16);
      TextIsSlice(b, at + 2, text);
    }
  }

  lemma LongTextHolds(b: Bytes, at: nat, text: Bytes, end: nat)
    ensures TextStands(b, at, 4, TWO32, text, end) <==> Holds(b, at, BE32(|text| % TWO32) + text, end)
  {
    hide BE32, Number;
    HoldsParts(b, at, BE32(|text| % TWO32), text);
    if at + 4 + |text| == end <= |b| {
      Number32Iff(b, at, |text| % TWO32);
      TextIsSlice(b, at + 4, text);
    }
  }

  lemma MarkerHolds(b: Bytes, at: nat, end: nat)
    ensures EndsObject(b, at, end) <==> Holds(b, at, EndMarker(), end)
  {
    if at + 3 == end <= |b| {
      assert b[at..end] == [b[at], b[at + 1], b[at + 2]];
    }
  }

  // ----- The bytes are those that Write emits -----

  lemma LeafStandsIff(b: Bytes, at: nat, v: Value, end: nat)
    requires v.Double? || v.UInt8? || v.Null? || v.UInt16?
    ensures Stands(b, at, v, end) <==> Holds(b, at, Encode(v), end)
  {
    hide BE16, BE64, Number, HoldsAt;
    HoldsByte(b, at, Marker(v));
    match v
    case Double(bits) =>
      HoldsParts(b, at, [0], BE64(bits));
      Holds64(b, at + 1, bits);
    case UInt8(value) =>
      HoldsParts(b, at, [1], [value]);
      HoldsByte(b, at + 1, value);
      assert [1, value] == [1] + [value];
    case Null =>
    case UInt16(word) =>
      HoldsParts(b, at, [7], BE16(word));
      Holds16(b, at + 1, word);
  }

  lemma TextStandsIff(b: Bytes, at: nat, v: Value, end: nat)
    requires v.Str? || v.LongStr?
    ensures Stands(b, at, v, end) <==> Holds(b, at, Encode(v), end)
  {
    hide BE32, Number, EncodeString, HoldsAt, TextAt;
    HoldsByte(b, at, Marker(v));
    match v
    case Str(tag, text) =>
      HoldsParts(b, at, [tag], EncodeString(text));
      TextHolds(b, at + 1, text, end);
    case LongStr(text) =>
      HoldsParts(b, at, [12], BE32(|text| % TWO32) + text);
      assert [12] + BE32(|text| % TWO32) + text == [12] + (BE32(|text| % TWO32) + text);
      LongTextHolds(b, at + 1, text, end);
  }

  lemma DateStandsIff(b: Bytes, at: nat, datetime: u64, offset: int, end: nat)
    ensures Stands(b, at, Date(datetime, offset), end) <==> Holds(b, at, Encode(Date(datetime, offset)), end)
  {
    hide BE16, BE64, Number, HoldsAt;
    HoldsByte(b, at, 11);
    HoldsParts(b, at, [11] + BE64(datetime), BE16(offset % TWO16));
    HoldsParts(b, at, [11], BE64(datetime));
    Holds64(b, at + 1, datetime);
    Holds16(b, at + 9, offset % TWO16);
  }

  /** A value stands somewhere exactly when the bytes there are those that Write emits for it. */
  lemma {:induction false} StandsIff(b: Bytes, at: nat, v: Value, end: nat)
    ensures Stands(b, at, v, end) <==> Holds(b, at, Encode(v), end)
    decreases v, 0
  {
    match v
    case Obj(members) => ObjectStandsIff(b, at, members, end);
    case Ecma(members) => EcmaStandsIff(b, at, members, end);
    case Strict(members) => StrictStandsIff(b, at, members, end);
    case Str(_, _) => TextStandsIff(b, at, v, end);
    case LongStr(_) => TextStandsIff(b, at, v, end);
    case Date(datetime, offset) => DateStandsIff(b, at, datetime, offset, end);
    case _ => LeafStandsIff(b, at, v, end);
  }

  lemma {:induction false} ObjectStandsIff(b: Bytes, at: nat, members: seq<Variable>, end: nat)
    ensures Stands(b, at, Obj(members), end) <==> Holds(b, at, Encode(Obj(members)), end)
    decreases members, 3
  {
    hide EncodeVars, EndMarker, VarsStand, EndsObject, HoldsAt;
    var vars := EncodeVars(members, true);
    HoldsByte(b, at, 3);
    HoldsParts(b, at, [3] + vars, EndMarker());
    HoldsParts(b, at, [3], vars);
    MarkerHolds(b, at + 1 + |vars|, end);
    if end >= 3 {
      VarsStandIff(b, at + 1, members, true, end - 3);
      HoldsEnd(b, at + 1, vars, end - 3);
      EndsObjectEnd(b, end - 3, end);
    }
    EndsObjectEnd(b, at + 1 + |vars|, end);
  }

  lemma HoldsEnd(b: Bytes, at: nat, s: Bytes, end: nat)
    ensures Holds(b, at, s, end) ==> at + |s| == end <= |b|
  {
  }

  lemma EndsObjectEnd(b: Bytes, at: nat, end: nat)
    ensures EndsObject(b, at, end) ==> at + 3 == end <= |b|
  {
  }

  lemma {:induction false} EcmaStandsIff(b: Bytes, at: nat, members: seq<Variable>, end: nat)
    ensures Stands(b, at, Ecma(members), end) <==> Holds(b, at, Encode(Ecma(members)), end)
    decreases members, 3
  {
    hide EncodeVars, EndMarker, VarsStand, EndsObject, HoldsAt, BE32, Number;
    var vars, count := EncodeVars(members, true), |members| % TWO32;
    HoldsByte(b, at, 8);
    HoldsParts(b, at, [8] + BE32(count) + vars, EndMarker());
    HoldsParts(b, at, [8] + BE32(count), vars);
    HoldsParts(b, at, [8], BE32(count));
    Holds32(b, at + 1, count);
    MarkerHolds(b, at + 5 + |vars|, end);
    if end >= 3 {
      VarsStandIff(b, at + 5, members, true, end - 3);
      HoldsEnd(b, at + 5, vars, end - 3);
      EndsObjectEnd(b, end - 3, end);
    }
    EndsObjectEnd(b, at + 5 + |vars|, end);
  }

  lemma {:induction false} StrictStandsIff(b: Bytes, at: nat, members: seq<Variable>, end: nat)
    ensures Stands(b, at, Strict(members), end) <==> Holds(b, at, Encode(Strict(members)), end)
    decreases members, 3
  {
    hide EncodeVars, VarsStand, HoldsAt, BE32, Number;
    var vars, count := EncodeVars(members, false), |members| % TWO32;
    HoldsByte(b, at, 10);
    HoldsParts(b, at, [10] + BE32(count), vars);
    HoldsParts(b, at, [10], BE32(count));
    Holds32(b, at + 1, count);
    VarsStandIff(b, at + 5, members, false, end);
    HoldsEnd(b, at + 5, vars, end);
  }

  lemma {:induction false} VarStandsIff(b: Bytes, at: nat, m: Variable, named: bool, end: nat)
    ensures VarStands(b, at, m, named, end) <==> Holds(b, at, EncodeVar(m, named), end)
    decreases m, 1
  {
    hide Encode, Stands, HoldsAt, EncodeString, TextStands;
    if named && m.hasname {
      NameLength(m.name);
      HoldsParts(b, at, EncodeString(m.name), Encode(m.value));
      TextHolds(b, at, m.name, at + 2 + |m.name|);
      StandsIff(b, at + 2 + |m.name|, m.value, end);
    } else {
      assert [] + Encode(m.value) == Encode(m.value);
      StandsIff(b, at, m.value, end);
    }
  }

  lemma NameLength(name: Bytes)
    ensures |EncodeString(name)| == 2 + |name|
  {
  }

  lemma {:induction false} VarsStandIff(b: Bytes, at: nat, ms: seq<Variable>, named: bool, end: nat)
    ensures VarsStand(b, at, ms, named, end) <==> Holds(b, at, EncodeVars(ms, named), end)
    decreases ms, 2
  {
    hide EncodeVar, VarStands;
    if ms != [] {
      hide HoldsAt;
      var first := EncodeVar(ms[0], named);
      HoldsParts(b, at, first, EncodeVars(ms[1..], named));
      VarStandsIff(b, at, ms[0], named, at + |first|);
      VarsStandIff(b, at + |first|, ms[1..], named, end);
      forall mid: nat | VarStands(b, at, ms[0], named, mid)
        ensures mid == at + |first|
      {
        VarStandsIff(b, at, ms[0], named, mid);
        HoldsEnd(b, at, first, mid);
      }
    } else {
      assert at <= |b| ==> b[at..at] == [];
    }
  }

  /** Wherever Write puts a value, it stands there. */
  lemma WriteStands(before: Bytes, v: Value, behind: Bytes)
    ensures Stands(before + Encode(v) + behind, |before|, v, |before| + |Encode(v)|)
  {
    hide Encode, Stands;
    StandsIff(before + Encode(v) + behind, |before|, v, |before| + |Encode(v)|);
  }

  // ----- What Read accepts -----

  predicate HasArray(v: Value)
    decreases v, 0
  {
    match v
    case Obj(members) => HasArrayVars(members)
    case Ecma(_) => true
    case Strict(_) => true
    case _ => false
  }

  predicate HasArrayVars(ms: seq<Variable>)
    decreases ms, 2
  {
    ms != [] && (HasArray(ms[0].value) || HasArrayVars(ms[1..]))
  }

  lemma {:induction false} NoArrayNoEcma(v: Value)
    requires !HasArray(v)
    ensures !HasEcma(v)
    decreases v, 0
  {
    if v.Obj? {
      NoArrayNoEcmaVars(v.members);
    }
  }

  lemma {:induction false} NoArrayNoEcmaVars(ms: seq<Variable>)
    requires !HasArrayVars(ms)
    ensures !HasEcmaVars(ms)
    decreases ms, 2
  {
    if ms != [] {
      NoArrayNoEcma(ms[0].value);
      NoArrayNoEcmaVars(ms[1..]);
    }
  }

  lemma StringInvertsRead(s: Bytes)
    requires DecodeString(s).Done?
    ensures var r := DecodeString(s);
      s == EncodeString(r.item) + r.rest && |r.item| < TWO16
  {
    hide BE16, U16At;
    var n := U16At(s);
    FirstTwo(s);
    assert s == s[..2] + s[2..2 + n] + s[2 + n..];
  }

  lemma FirstTwo(s: Bytes)
    requires |s| >= 2
    ensures BE16(U16At(s)) == s[..2]
  {
  }

  lemma FirstFour(s: Bytes)
    requires |s| >= 4
    ensures BE32(U32At(s)) == s[..4]
  {
    Write32(s[..4]);
  }

  lemma LongStringInvertsRead(s: Bytes)
    requires DecodeLongString(s).Done?
    ensures var r := DecodeLongString(s);
      s == BE32(|r.item| % TWO32) + r.item + r.rest && |r.item| < TWO31
  {
    hide BE32, U32At;
    var n := U32At(s);
    FirstFour(s);
    assert s == s[..4] + s[4..4 + n] + s[4 + n..];
  }

  lemma DateAhead(s: Bytes)
    requires DecodeValue(s).Done? && s[0] == 11
    ensures |s| >= 11
    ensures DecodeValue(s) == Done(Date(U64At(s[1..]), I16(U16At(s[1..][8..]))), s[11..])
  {
    hide U64At, U16At, I16, DecodeMembers, DecodeCounted, DecodeText, DecodeLongString, ObjectOf, EcmaOf, StrictOf;
    assert s[1..][10..] == s[11..];
  }

  lemma OffsetWord(s: Bytes)
    requires |s| >= 2
    ensures -0x8000 <= I16(U16At(s)) < 0x8000 && BE16(I16(U16At(s)) % TWO16) == s[..2]
  {
    var word := U16At(s);
    assert I16(word) % TWO16 == word;
  }

  lemma DateInvertsRead(s: Bytes)
    requires DecodeValue(s).Done? && s[0] == 11
    ensures var r := DecodeValue(s); s == Encode(r.item) + r.rest && Encodable(r.item)
  {
    hide BE64, U64At, BE16, U16At, I16, DecodeValue;
    DateAhead(s);
    FirstEight(s[1..]);
    OffsetWord(s[9..]);
    assert s[1..][8..] == s[9..];
    assert s == [s[0]] + s[1..][..8] + s[9..][..2] + s[11..];
  }

  lemma LeafInvertsRead(s: Bytes)
    requires DecodeValue(s).Done? && !HasArray(DecodeValue(s).item) && !DecodeValue(s).item.Obj?
    ensures var r := DecodeValue(s);
      s == Encode(r.item) + r.rest && Encodable(r.item)
  {
    hide BE64, BE32, BE16, U64At, U16At, I16, DecodeString, DecodeLongString, EncodeString, DecodeMembers,
      DecodeCounted, EncodeVars;
    var body := s[1..];
    assert s == [s[0]] + body;
    match s[0]
    case 0 =>
      FirstEight(body);
      assert body == body[..8] + body[8..];
    case 1 => assert body == [body[0]] + body[1..];
    case 2 => StringInvertsRead(body);
    case 4 => StringInvertsRead(body);
    case 7 =>
      FirstTwo(body);
      assert body == body[..2] + body[2..];
    case 11 => DateInvertsRead(s);
    case 12 => LongStringInvertsRead(body);
    case _ =>
  }

  /** What Read makes of bytes that it accepts would be written as those bytes. */
  lemma {:induction false} WriteInvertsRead(s: Bytes)
    requires DecodeValue(s).Done? && !HasArray(DecodeValue(s).item)
    ensures var r := DecodeValue(s);
      s == Encode(r.item) + r.rest && Encodable(r.item)
    decreases |s|, 0
  {
    var r := DecodeValue(s);
    if r.item.Obj? {
      MembersInvertRead(s[1..]);
    } else {
      LeafInvertsRead(s);
    }
  }

  lemma {:induction false} MembersInvertRead(s: Bytes)
    requires DecodeMembers(s).Done? && !HasArrayVars(DecodeMembers(s).item)
    ensures var r := DecodeMembers(s);
      s == EncodeVars(r.item, true) + EndMarker() + r.rest && EncodableVars(r.item, true)
    decreases |s|, 3
  {
    hide DecodeVar, EncodeVar, EndMarker;
    if U24At(s) == ENDMARKER {
      assert s[..3] == EndMarker() by { ThreeBytes(s); }
      assert EncodeVars([], true) == [];
      assert s == s[..3] + s[3..];
    } else {
      var first := DecodeVar(s, true);
      var more := DecodeMembers(first.rest);
      var ms := [first.item] + more.item;
      assert ms[1..] == more.item;
      VarInvertsRead(s);
      MembersInvertRead(first.rest);
      assert EncodeVars(ms, true) == EncodeVar(first.item, true) + EncodeVars(more.item, true);
    }
  }

  lemma ThreeBytes(s: Bytes)
    requires |s| >= 3 && U24At(s) == ENDMARKER
    ensures s[..3] == EndMarker()
  {
    assert s[..3] == [s[0], s[1], s[2]];
  }

  lemma {:induction false} VarInvertsRead(s: Bytes)
    requires DecodeVar(s, true).Done? && !HasArray(DecodeVar(s, true).item.value)
    ensures var r := DecodeVar(s, true);
      s == EncodeVar(r.item, true) + r.rest && EncodableVar(r.item, true)
    decreases |s|, 1
  {
    hide DecodeValue, DecodeString, EncodeString, Encode;
    StringInvertsRead(s);
    WriteInvertsRead(DecodeString(s).rest);
  }

  /** Read accepts bytes as a value without arrays exactly when that value stands there and fits its
      fields; and it is then left right behind the value. */
  lemma ReadIff(s: Bytes, v: Value, end: nat)
    requires !HasArray(v) && end <= |s|
    ensures DecodeValue(s) == Done(v, s[end..]) <==> Encodable(v) && Stands(s, 0, v, end)
  {
    hide DecodeValue, Encode, Stands, Encodable, HasArray, HasEcma;
    StandsIff(s, 0, v, end);
    assert s == s[0..end] + s[end..];
    if Encodable(v) && Stands(s, 0, v, end) {
      NoArrayNoEcma(v);
      ReadInvertsWrite(v, s[end..]);
    }
    if DecodeValue(s) == Done(v, s[end..]) {
      WriteInvertsRead(s);
      SamePrefix(s, Encode(v), end);
    }
  }

  lemma SamePrefix(s: Bytes, e: Bytes, end: nat)
    requires end <= |s| && s == e + s[end..]
    ensures Holds(s, 0, e, end)
  {
    assert |e| == end;
  }

  /** Exactly the type bytes without an object make Read fail at once, the cursor where it was. */
  lemma FailsAtOnceIff(s: Bytes)
    requires s != []
    ensures DecodeValue(s) == Failed(s) <==> s[0] !in {0, 1, 2, 3, 4, 5, 7, 8, 10, 11, 12}
  {
    hide DecodeText, DecodeLongString, U64At, U16At;
    assert |s[1..]| < |s|;
  }

  /** The rounds of a strict array behind a byte that is no type byte bring nothing. */
  lemma {:induction false} NothingBehindUnknown(s: Bytes, n: nat)
    requires s != [] && s[0] !in {0, 1, 2, 3, 4, 5, 7, 8, 10, 11, 12}
    ensures DecodeVars(s, n, false) == Done([], s)
  {
    hide DecodeValue;
    FailsAtOnceIff(s);
    if n > 0 {
      NothingBehindUnknown(s, n - 1);
    }
  }

  /** A strict array that announces more members than can be read keeps those that can. */
  lemma {:induction false} KeepsReadableMembers(ms: seq<Variable>, s: Bytes, n: nat)
    requires EncodableVars(ms, false) && !HasEcmaVars(ms)
    requires s != [] && s[0] !in {0, 1, 2, 3, 4, 5, 7, 8, 10, 11, 12}
    ensures DecodeVars(EncodeVars(ms, false) + s, |ms| + n, false) == Done(ms, s)
    decreases ms
  {
    hide EncodeVar, DecodeVar;
    if ms == [] {
      NothingBehindUnknown(s, n);
      assert EncodeVars(ms, false) + s == s;
    } else {
      var tail := EncodeVars(ms[1..], false) + s;
      assert EncodeVars(ms, false) + s == EncodeVar(ms[0], false) + tail;
      ReadVarInvertsWrite(ms[0], false, tail);
      KeepsReadableMembers(ms[1..], s, n);
      assert ms == [ms[0]] + ms[1..];
    }
  }

  /** A named member whose value cannot be read costs its name and a round. */
  lemma NamedUnknownIsSkipped(name: Bytes, s: Bytes, n: nat)
    requires |name| < TWO16
    requires s != [] && s[0] !in {0, 1, 2, 3, 4, 5, 7, 8, 10, 11, 12}
    ensures DecodeVars(EncodeString(name) + s, n + 1, true) == DecodeVars(s, n, true)
  {
    hide DecodeValue, DecodeString, EncodeString;
    ReadString(name, s);
    FailsAtOnceIff(s);
  }

  /** An object with such a member cannot be read at all, and the cursor stays at the type byte. */
  lemma {:induction false} ObjectFailsAtUnknown(ms: seq<Variable>, name: Bytes, s: Bytes)
    requires EncodableVars(ms, true) && !HasEcmaVars(ms) && |name| < TWO16
    requires s != [] && s[0] !in {0, 1, 2, 3, 4, 5, 7, 8, 10, 11, 12} && s[0] != ENDMARKER
    ensures DecodeMembers(EncodeVars(ms, true) + (EncodeString(name) + s)) == Failed(s)
    decreases ms
  {
    hide EncodeVar, DecodeVar, EncodeString, EndMarker;
    var behind := EncodeString(name) + s;
    if ms == [] {
      NamedBytesAreNotEndMarker(name, s, []);
      assert EncodeVars(ms, true) + behind == behind == EncodeString(name) + s + [];
      UnknownMember(name, s);
    } else {
      var tail := EncodeVars(ms[1..], true) + behind;
      assert EncodeVars(ms, true) + behind == EncodeVar(ms[0], true) + tail;
      MemberIsNotEndMarker(ms[0], tail);
      ReadVarInvertsWrite(ms[0], true, tail);
      ObjectFailsAtUnknown(ms[1..], name, s);
    }
  }

  lemma UnknownMember(name: Bytes, s: Bytes)
    requires |name| < TWO16
    requires s != [] && s[0] !in {0, 1, 2, 3, 4, 5, 7, 8, 10, 11, 12}
    ensures DecodeVar(EncodeString(name) + s, true) == Failed(s)
  {
    hide DecodeValue, DecodeString, EncodeString;
    ReadString(name, s);
    FailsAtOnceIff(s);
  }

  /** A count of 2^31 and more is negative, and no member is read. */
  lemma NegativeCount(field: u32, s: Bytes, named: bool)
    requires field >= TWO31
    ensures DecodeCounted(BE32(field) + s, named) == Done([], s)
  {
    hide BE32;
    Read32(field, s);
  }

  lemma EcmaAhead(body: Bytes)
    ensures DecodeValue([8] + body) == EcmaOf(DecodeCounted(body, true))
  {
    hide DecodeCounted, ObjectOf, StrictOf, EcmaOf, DecodeText, DecodeLongString, DecodeMembers, U64At, U16At;
    assert ([8] + body)[1..] == body;
  }

  /** Behind an ECMA array, three bytes that make 3 are taken for its end, and no others are. */
  lemma EcmaEndsAtThree(ms: seq<Variable>, s: Bytes)
    requires Encodable(Ecma(ms)) && !HasEcmaVars(ms) && |s| >= 3
    ensures DecodeValue([8] + (BE32(|ms|) + (EncodeVars(ms, true) + s)))
         == Done(Ecma(ms), if U24At(s) == 3 then s[3..] else s)
  {
    hide DecodeValue, DecodeCounted, DecodeVars, EncodeVars, EncodableVars, HasEcmaVars, BE32, U24At;
    var tail := EncodeVars(ms, true) + s;
    EcmaAhead(BE32(|ms|) + tail);
    ReadCount(|ms|, tail, true);
    ReadVarsInvertsWrite(ms, true, s);
  }
}
