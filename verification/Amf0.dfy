/** The AMF0 value trees of as_objects: what Write emits, what Size counts, what Read rebuilds. */
module Amf0 {
  import opened Words
  import opened BigEndian

  /** A value object. Strings are of single-byte characters. A string keeps its type byte, because
      CreateType builds an AS_String for the type bytes 2 and 4 and Read stores what it saw. */
  datatype Value =
    | Double(bits: u64)
    | UInt8(value: u8)
    | Str(tag: u8, text: Bytes)
    | Obj(members: seq<Variable>)
    | Null
    | UInt16(word: u16)
    | Ecma(members: seq<Variable>)
    | Strict(members: seq<Variable>)
    | Date(datetime: u64, offset: int)
    | LongStr(text: Bytes)

  /** An AS_Variable, the child of an object or an array. */
  datatype Variable = Variable(hasname: bool, name: Bytes, value: Value)

  const ENDMARKER := 9

  function EndMarker(): Bytes {
    BE24(ENDMARKER)
  }

  // ----- Write -----

  function EncodeString(text: Bytes): Bytes {
    BE16(|text| % TWO16) + text
  }

  function Encode(v: Value): (r: Bytes)
    ensures |r| >= 1
    decreases v, 0
  {
    match v
    case Double(bits) => [0] + BE64(bits)
    case UInt8(value) => [1, value]
    case Str(tag, text) => [tag] + EncodeString(text)
    case Obj(members) => [3] + EncodeVars(members, true) + EndMarker()
    case Null => [5]
    case UInt16(word) => [7] + BE16(word)
    case Ecma(members) => [8] + BE32(|members| % TWO32) + EncodeVars(members, true) + EndMarker()
    case Strict(members) => [10] + BE32(|members| % TWO32) + EncodeVars(members, false)
    case Date(datetime, offset) => [11] + BE64(datetime) + BE16(offset % TWO16)
    case LongStr(text) => [12] + BE32(|text| % TWO32) + text
  }

  /** A strict array clears hasname on its members before it writes them: named is false there. */
  function EncodeVar(m: Variable, named: bool): Bytes
    decreases m, 1
  {
    (if named && m.hasname then EncodeString(m.name) else []) + Encode(m.value)
  }

  function EncodeVars(ms: seq<Variable>, named: bool): Bytes
    decreases ms, 2
  {
    if ms == [] then [] else EncodeVar(ms[0], named) + EncodeVars(ms[1..], named)
  }

  lemma {:induction false} EncodeVarsAppend(ms: seq<Variable>, m: Variable, named: bool)
    ensures EncodeVars(ms + [m], named) == EncodeVars(ms, named) + EncodeVar(m, named)
  {
    if ms == [] {
      assert [m][1..] == [] && EncodeVars([m][1..], named) == [];
    } else {
      assert (ms + [m])[1..] == ms[1..] + [m];
      EncodeVarsAppend(ms[1..], m, named);
    }
  }

  // ----- Size -----

  function Size(v: Value): nat
    decreases v, 0
  {
    match v
    case Double(_) => 1 + 8
    case UInt8(_) => 1 + 1
    case Str(_, text) => 1 + 2 + |text|
    case Obj(members) => 1 + SizeVars(members) + 3
    case Null => 1
    case UInt16(_) => 1 + 2
    case Ecma(members) => 1 + 4 + SizeVars(members) + 3
    case Strict(members) => 1 + 4 + SizeVars(members)
    case Date(_, _) => 1 + 8 + 2
    case LongStr(text) => 1 + 4 + |text|
  }

  function SizeVar(m: Variable): nat
    decreases m, 1
  {
    (if m.hasname then 2 + |m.name| else 0) + Size(m.value)
  }

  function SizeVars(ms: seq<Variable>): nat
    decreases ms, 2
  {
    if ms == [] then 0 else SizeVar(ms[0]) + SizeVars(ms[1..])
  }

  /** No strict array anywhere in the tree has a member that still carries its name. */
  predicate StrictUnnamed(v: Value)
    decreases v, 0
  {
    match v
    case Obj(members) => StrictUnnamedVars(members, true)
    case Ecma(members) => StrictUnnamedVars(members, true)
    case Strict(members) => StrictUnnamedVars(members, false)
    case _ => true
  }

  predicate StrictUnnamedVars(ms: seq<Variable>, named: bool)
    decreases ms, 2
  {
    ms != [] ==>
      && (named || !ms[0].hasname)
      && StrictUnnamed(ms[0].value)
      && StrictUnnamedVars(ms[1..], named)
  }

  /** Write emits at most Size bytes, and exactly Size bytes when, and only when, no strict array
      still counts the name of a member. */
  lemma {:induction false} WriteEmitsSize(v: Value)
    ensures |Encode(v)| <= Size(v)
    ensures |Encode(v)| == Size(v) <==> StrictUnnamed(v)
    decreases v, 0
  {
    match v
    case Obj(members) => WriteVarsEmitsSize(members, true);
    case Ecma(members) => WriteVarsEmitsSize(members, true);
    case Strict(members) => WriteVarsEmitsSize(members, false);
    case _ =>
  }

  lemma {:induction false} WriteVarsEmitsSize(ms: seq<Variable>, named: bool)
    ensures |EncodeVars(ms, named)| <= SizeVars(ms)
    ensures |EncodeVars(ms, named)| == SizeVars(ms) <==> StrictUnnamedVars(ms, named)
    decreases ms, 2
  {
    if ms != [] {
      WriteEmitsSize(ms[0].value);
      WriteVarsEmitsSize(ms[1..], named);
    }
  }

  /** The tree that Write leaves behind: strict arrays have lost the names of their members. */
  function Written(v: Value): Value
    decreases v, 0
  {
    match v
    case Obj(members) => Obj(WrittenVars(members, true))
    case Ecma(members) => Ecma(WrittenVars(members, true))
    case Strict(members) => Strict(WrittenVars(members, false))
    case _ => v
  }

  function WrittenVar(m: Variable, named: bool): Variable
    decreases m, 1
  {
    Variable(named && m.hasname, m.name, Written(m.value))
  }

  function WrittenVars(ms: seq<Variable>, named: bool): (r: seq<Variable>)
    ensures |r| == |ms|
    decreases ms, 2
  {
    if ms == [] then [] else [WrittenVar(ms[0], named)] + WrittenVars(ms[1..], named)
  }

  lemma {:induction false} WrittenVarsAppend(ms: seq<Variable>, m: Variable, named: bool)
    ensures WrittenVars(ms + [m], named) == WrittenVars(ms, named) + [WrittenVar(m, named)]
  {
    if ms == [] {
      assert [m][1..] == [] && WrittenVars([m][1..], named) == [];
    } else {
      assert (ms + [m])[1..] == ms[1..] + [m];
      WrittenVarsAppend(ms[1..], m, named);
    }
  }

  /** Once written, a tree has the size of the bytes it was written as, and is written the same. */
  lemma {:induction false} WrittenHasExactSize(v: Value)
    ensures Size(Written(v)) == |Encode(v)| && Encode(Written(v)) == Encode(v)
    decreases v, 0
  {
    match v
    case Obj(members) => WrittenVarsHaveExactSize(members, true);
    case Ecma(members) => WrittenVarsHaveExactSize(members, true);
    case Strict(members) => WrittenVarsHaveExactSize(members, false);
    case _ =>
  }

  lemma {:induction false} WrittenVarsHaveExactSize(ms: seq<Variable>, named: bool)
    ensures SizeVars(WrittenVars(ms, named)) == |EncodeVars(ms, named)|
    ensures EncodeVars(WrittenVars(ms, named), named) == EncodeVars(ms, named)
    decreases ms, 2
  {
    if ms != [] {
      WrittenHasExactSize(ms[0].value);
      WrittenVarsHaveExactSize(ms[1..], named);
      assert WrittenVars(ms, named)[1..] == WrittenVars(ms[1..], named);
    }
  }

  lemma {:induction false} EncodeVarsConcat(a: seq<Variable>, b: seq<Variable>, named: bool)
    ensures EncodeVars(a + b, named) == EncodeVars(a, named) + EncodeVars(b, named)
  {
    if a == [] {
      assert a + b == b;
    } else {
      assert (a + b)[1..] == a[1..] + b;
      EncodeVarsConcat(a[1..], b, named);
    }
  }

  // ----- Read -----

  /** The result of a reader: it ran past the end of the bytes (which the source does not check);
      it returned -1 with the cursor at rest; or it returned 0 with an item and the cursor at rest. */
  datatype Parsed<T> = Overrun | Failed(rest: Bytes) | Done(item: T, rest: Bytes)

  /** GetString. */
  function DecodeString(s: Bytes): (r: Parsed<Bytes>)
    ensures r.Done? ==> |r.rest| + 2 <= |s|
    ensures !r.Failed?
  {
    if |s| < 2 || |s| < 2 + U16At(s) then Overrun
    else Done(s[2..2 + U16At(s)], s[2 + U16At(s)..])
  }

  /** GetLongString: the 32-bit length becomes a signed int. */
  function DecodeLongString(s: Bytes): (r: Parsed<Bytes>)
    ensures r.Done? ==> |r.rest| + 4 <= |s|
    ensures !r.Failed?
  {
    if |s| < 4 || U32At(s) >= TWO31 || |s| < 4 + U32At(s) then Overrun
    else Done(s[4..4 + U32At(s)], s[4 + U32At(s)..])
  }

  /** The loop count of an array reader: the field read as a signed int, no round when negative. */
  function LoopCount(field: u32): nat {
    if field < TWO31 then field else 0
  }

  /** CreateType on the type byte ahead, then Read of the object it makes. */
  function DecodeValue(s: Bytes): (r: Parsed<Value>)
    ensures r.Failed? ==> |r.rest| <= |s|
    ensures r.Done? ==> |r.rest| < |s|
    decreases |s|, 0
  {
    if |s| < 1 then Overrun
    else
      var body := s[1..];
      match s[0]
      case 0 => if |body| < 8 then Overrun else Done(Double(U64At(body)), body[8..])
      case 1 => if |body| < 1 then Overrun else Done(UInt8(body[0]), body[1..])
      case 2 => DecodeText(s[0], body)
      case 3 => ObjectOf(DecodeMembers(body))
      case 4 => DecodeText(s[0], body)
      case 5 => Done(Null, body)
      case 7 => if |body| < 2 then Overrun else Done(UInt16(U16At(body)), body[2..])
      case 8 => EcmaOf(DecodeCounted(body, true))
      case 10 => StrictOf(DecodeCounted(body, false))
      case 11 => if |body| < 10 then Overrun
                 else Done(Date(U64At(body), I16(U16At(body[8..]))), body[10..])
      case 12 =>
        (match DecodeLongString(body)
         case Done(text, rest) => Done(LongStr(text), rest)
         case _ => Overrun)
      case _ => Failed(s)
  }

  function DecodeText(tag: u8, s: Bytes): (r: Parsed<Value>)
    ensures !r.Failed? && (r.Done? ==> |r.rest| <= |s|)
  {
    match DecodeString(s)
    case Done(text, rest) => Done(Str(tag, text), rest)
    case _ => Overrun
  }

  /** A member that cannot be read makes the whole object fail. */
  function ObjectOf(p: Parsed<seq<Variable>>): Parsed<Value> {
    match p
    case Done(members, rest) => Done(Obj(members), rest)
    case Failed(rest) => Failed(rest)
    case Overrun => Overrun
  }

  function DecodeMembers(s: Bytes): (r: Parsed<seq<Variable>>)
    ensures r.Failed? ==> |r.rest| <= |s|
    ensures r.Done? ==> |r.rest| <= |s|
    decreases |s|, 3
  {
    if |s| < 3 then Overrun
    else if U24At(s) == ENDMARKER then Done([], s[3..])
    else match DecodeVar(s, true)
      case Overrun => Overrun
      case Failed(rest) => Failed(rest)
      case Done(m, rest) =>
        match DecodeMembers(rest)
        case Overrun => Overrun
        case Failed(rest') => Failed(rest')
        case Done(ms, rest') => Done([m] + ms, rest')
  }

  /** The end marker that is consumed is 3, not the ENDMARKER that Write emits. */
  function EcmaOf(p: Parsed<seq<Variable>>): Parsed<Value> {
    match p
    case Done(members, rest) =>
      if |rest| < 3 then Overrun
      else if U24At(rest) == 3 then Done(Ecma(members), rest[3..])
      else Done(Ecma(members), rest)
    case _ => Overrun
  }

  function StrictOf(p: Parsed<seq<Variable>>): Parsed<Value> {
    match p
    case Done(members, rest) => Done(Strict(members), rest)
    case _ => Overrun
  }

  /** The count of an array, then its members. */
  function DecodeCounted(s: Bytes, named: bool): (r: Parsed<seq<Variable>>)
    ensures !r.Failed? && (r.Done? ==> |r.rest| <= |s|)
    decreases |s|, 4
  {
    if |s| < 4 then Overrun
    else DecodeVars(s[4..], LoopCount(U32At(s)), named)
  }

  function DecodeVar(s: Bytes, named: bool): (r: Parsed<Variable>)
    ensures r.Failed? ==> |r.rest| <= |s|
    ensures r.Done? ==> |r.rest| < |s| && r.item.hasname == named
    decreases |s|, 1
  {
    if named then
      match DecodeString(s)
      case Done(name, rest) =>
        (match DecodeValue(rest)
         case Done(v, rest') => Done(Variable(true, name, v), rest')
         case Failed(rest') => Failed(rest')
         case Overrun => Overrun)
      case _ => Overrun
    else
      match DecodeValue(s)
      case Done(v, rest') => Done(Variable(false, [], v), rest')
      case Failed(rest') => Failed(rest')
      case Overrun => Overrun
  }

  /** The loop of the two arrays: a member that cannot be read is dropped and the loop goes on. */
  function DecodeVars(s: Bytes, n: nat, named: bool): (r: Parsed<seq<Variable>>)
    ensures !r.Failed? && (r.Done? ==> |r.rest| <= |s| && |r.item| <= n)
    decreases |s|, 3, n
  {
    if n == 0 then Done([], s)
    else match DecodeVar(s, named)
      case Overrun => Overrun
      case Failed(rest) => DecodeVars(rest, n - 1, named)
      case Done(m, rest) =>
        match DecodeVars(rest, n - 1, named)
        case Done(ms, rest') => Done([m] + ms, rest')
        case _ => Overrun
  }

  // ----- The trees that the fields can hold -----

  /** Lengths, counts and the date offset fit their fields; members of objects and of ECMA arrays
      are named, members of strict arrays are not. */
  predicate Encodable(v: Value)
    decreases v, 0
  {
    match v
    case Str(tag, text) => (tag == 2 || tag == 4) && |text| < TWO16
    case Obj(members) => EncodableVars(members, true)
    case Ecma(members) => |members| < TWO31 && EncodableVars(members, true)
    case Strict(members) => |members| < TWO31 && EncodableVars(members, false)
    case Date(_, offset) => -0x8000 <= offset < 0x8000
    case LongStr(text) => |text| < TWO31
    case _ => true
  }

  predicate EncodableVar(m: Variable, named: bool)
    decreases m, 1
  {
    && m.hasname == named
    && |m.name| < TWO16
    && (!named ==> m.name == [])
    && Encodable(m.value)
  }

  predicate EncodableVars(ms: seq<Variable>, named: bool)
    decreases ms, 2
  {
    ms != [] ==> EncodableVar(ms[0], named) && EncodableVars(ms[1..], named)
  }

  predicate HasEcma(v: Value)
    decreases v, 0
  {
    match v
    case Obj(members) => HasEcmaVars(members)
    case Ecma(_) => true
    case Strict(members) => HasEcmaVars(members)
    case _ => false
  }

  predicate HasEcmaVars(ms: seq<Variable>)
    decreases ms, 2
  {
    ms != [] && (HasEcma(ms[0].value) || HasEcmaVars(ms[1..]))
  }

  // ----- Read inverts Write -----

  lemma ReadString(text: Bytes, s: Bytes)
    requires |text| < TWO16
    ensures DecodeString(EncodeString(text) + s) == Done(text, s)
  {
    hide BE16, U16At;
    var t := EncodeString(text) + s;
    assert t == BE16(|text|) + (text + s);
    Read16(|text|, text + s);
    assert |BE16(|text|)| == 2;
    assert t[2..2 + |text|] == text && t[2 + |text|..] == s;
  }

  /** No member of an object can be taken for the end marker: its name length or its type byte
      differs. */
  lemma MemberIsNotEndMarker(m: Variable, s: Bytes)
    requires EncodableVar(m, true)
    ensures |EncodeVar(m, true) + s| >= 3
    ensures U24At(EncodeVar(m, true) + s) != ENDMARKER
  {
    TypeByte(m.value);
    NamedBytesAreNotEndMarker(m.name, Encode(m.value), s);
  }

  lemma TypeByte(v: Value)
    requires Encodable(v)
    ensures Encode(v)[0] in {0, 1, 2, 3, 4, 5, 7, 8, 10, 11, 12}
  {
  }

  lemma NamedBytesAreNotEndMarker(name: Bytes, e: Bytes, s: Bytes)
    requires |name| < TWO16 && |e| >= 1 && e[0] != ENDMARKER
    ensures |EncodeString(name) + e + s| >= 3 && U24At(EncodeString(name) + e + s) != ENDMARKER
  {
    hide BE16, U24At;
    var t := EncodeString(name) + e + s;
    var rest := name + e + s;
    assert t == BE16(|name|) + rest && |rest| >= 1;
    if name == [] {
      assert rest[0] == e[0];
    }
    LengthInFront(|name|, rest);
  }

  lemma LengthInFront(n: u16, rest: Bytes)
    requires |rest| >= 1 && (n == 0 ==> rest[0] != ENDMARKER)
    ensures var t := BE16(n) + rest; |t| >= 3 && U24At(t) != ENDMARKER
  {
    var t := BE16(n) + rest;
    assert t[0] == n / 0x100 && t[1] == n % 0x100 && t[2] == rest[0];
    assert U24At(t) == n * 0x100 + rest[0];
  }

  /** The readers of the leaf types, each on its own bytes. */
  lemma ReadLeaf(v: Value, s: Bytes)
    requires Encodable(v) && (v.Double? || v.UInt8? || v.Null? || v.UInt16?)
    ensures DecodeValue(Encode(v) + s) == Done(v, s)
  {
    var t := Encode(v) + s;
    match v
    case Double(bits) =>
      assert t[1..] == BE64(bits) + s;
      Read64(bits, s);
    case UInt8(value) =>
      assert t[1..] == [value] + s;
    case Null =>
      assert t[1..] == s;
    case UInt16(word) =>
      assert t[1..] == BE16(word) + s;
      Read16(word, s);
  }

  lemma ReadDate(datetime: u64, offset: int, s: Bytes)
    requires -0x8000 <= offset < 0x8000
    ensures DecodeValue(Encode(Date(datetime, offset)) + s) == Done(Date(datetime, offset), s)
  {
    var t := Encode(Date(datetime, offset)) + s;
    var tail := BE16(offset % TWO16) + s;
    assert t[1..] == BE64(datetime) + tail;
    Read64(datetime, tail);
    Read16(offset % TWO16, s);
    assert t[1..][10..] == t[1..][8..][2..];
  }

  lemma ReadText(tag: u8, text: Bytes, s: Bytes)
    requires Encodable(Str(tag, text))
    ensures DecodeValue(Encode(Str(tag, text)) + s) == Done(Str(tag, text), s)
  {
    var t := Encode(Str(tag, text)) + s;
    assert t[1..] == EncodeString(text) + s;
    ReadString(text, s);
  }

  lemma ReadLongText(text: Bytes, s: Bytes)
    requires |text| < TWO31
    ensures DecodeValue(Encode(LongStr(text)) + s) == Done(LongStr(text), s)
  {
    hide BE32;
    var t := Encode(LongStr(text)) + s;
    assert |text| % TWO32 == |text|;
    assert t[1..] == BE32(|text|) + (text + s);
    ReadLongString(text, s);
    hide DecodeLongString;
    assert t[0] == 12;
  }

  lemma ReadLongString(text: Bytes, s: Bytes)
    requires |text| < TWO31
    ensures DecodeLongString(BE32(|text|) + (text + s)) == Done(text, s)
  {
    var body := BE32(|text|) + (text + s);
    Read32(|text|, text + s);
    assert body[4..4 + |text|] == text && body[4 + |text|..] == s;
  }

  lemma ReadStrict(members: seq<Variable>, s: Bytes)
    requires |members| < TWO31
    ensures DecodeValue(Encode(Strict(members)) + s)
         == StrictOf(DecodeVars(EncodeVars(members, false) + s, |members|, false))
  {
    hide DecodeVars, EncodeVars, BE32, ObjectOf, EcmaOf, StrictOf, DecodeText, DecodeLongString, DecodeMembers;
    var t := Encode(Strict(members)) + s;
    var tail := EncodeVars(members, false) + s;
    assert |members| % TWO32 == |members|;
    assert t[1..] == BE32(|members|) + tail;
    ReadCount(|members|, tail, false);
    hide DecodeCounted;
    assert t[0] == 10;
  }

  lemma ReadCount(n: nat, tail: Bytes, named: bool)
    requires n < TWO31
    ensures DecodeCounted(BE32(n) + tail, named) == DecodeVars(tail, n, named)
  {
    hide DecodeVars, BE32;
    Read32(n, tail);
  }

  lemma ReadObject(members: seq<Variable>, s: Bytes)
    ensures DecodeValue(Encode(Obj(members)) + s)
         == ObjectOf(DecodeMembers(EncodeVars(members, true) + (EndMarker() + s)))
  {
    hide DecodeVars, EncodeVars, EndMarker, DecodeMembers, EcmaOf, StrictOf, DecodeText, DecodeCounted;
    var t := Encode(Obj(members)) + s;
    assert t[1..] == EncodeVars(members, true) + (EndMarker() + s);
    assert t[0] == 3;
  }

  lemma Regroup(x: u8, a: Bytes, b: Bytes, c: Bytes, s: Bytes)
    ensures ([x] + a + b + c + s)[0] == x && ([x] + a + b + c + s)[1..] == a + (b + (c + s))
  {
  }

  lemma ReadEcma(members: seq<Variable>, s: Bytes)
    requires |members| < TWO31
    ensures DecodeValue(Encode(Ecma(members)) + s)
         == EcmaOf(DecodeVars(EncodeVars(members, true) + (EndMarker() + s), |members|, true))
  {
    hide DecodeVars, EncodeVars, BE32, EndMarker, ObjectOf, EcmaOf, StrictOf, DecodeText, DecodeLongString,
      DecodeMembers;
    assert Encode(Ecma(members)) == [8] + BE32(|members| % TWO32) + EncodeVars(members, true) + EndMarker();
    hide Encode;
    var t := Encode(Ecma(members)) + s;
    var tail := EncodeVars(members, true) + (EndMarker() + s);
    assert |members| % TWO32 == |members|;
    Regroup(8, BE32(|members|), EncodeVars(members, true), EndMarker(), s);
    assert t[1..] == BE32(|members|) + tail;
    ReadCount(|members|, tail, true);
    hide DecodeCounted;
    assert t[0] == 8;
  }

  lemma {:induction false} ReadInvertsWrite(v: Value, s: Bytes)
    requires Encodable(v) && !HasEcma(v)
    ensures DecodeValue(Encode(v) + s) == Done(v, s)
    decreases v, 0
  {
    hide Encode, DecodeValue;
    match v
    case Str(tag, text) => ReadText(tag, text, s);
    case LongStr(text) => ReadLongText(text, s);
    case Date(datetime, offset) => ReadDate(datetime, offset, s);
    case Obj(members) =>
      ReadMembersInvertsWrite(members, s);
      ReadObject(members, s);
    case Strict(members) =>
      ReadVarsInvertsWrite(members, false, s);
      ReadStrict(members, s);
    case Ecma(_) =>
    case _ => ReadLeaf(v, s);
  }

  lemma {:induction false} ReadVarInvertsWrite(m: Variable, named: bool, s: Bytes)
    requires EncodableVar(m, named) && !HasEcma(m.value)
    ensures DecodeVar(EncodeVar(m, named) + s, named) == Done(m, s)
    decreases m, 1
  {
    hide Encode, DecodeValue, EncodeString, DecodeString;
    ReadInvertsWrite(m.value, s);
    var tail := Encode(m.value) + s;
    if named {
      ReadString(m.name, tail);
      assert EncodeVar(m, named) + s == EncodeString(m.name) + tail;
    } else {
      assert EncodeVar(m, named) + s == tail;
    }
  }

  lemma {:induction false} ReadVarsInvertsWrite(ms: seq<Variable>, named: bool, s: Bytes)
    requires EncodableVars(ms, named) && !HasEcmaVars(ms)
    ensures DecodeVars(EncodeVars(ms, named) + s, |ms|, named) == Done(ms, s)
    decreases ms, 2
  {
    hide Encode, EncodeVar, DecodeValue, DecodeVar;
    if ms == [] {
      assert EncodeVars(ms, named) + s == s;
    } else {
      var tail := EncodeVars(ms[1..], named) + s;
      assert EncodeVars(ms, named) + s == EncodeVar(ms[0], named) + tail;
      ReadVarInvertsWrite(ms[0], named, tail);
      ReadVarsInvertsWrite(ms[1..], named, s);
      assert ms == [ms[0]] + ms[1..];
    }
  }

  lemma {:induction false} ReadMembersInvertsWrite(ms: seq<Variable>, s: Bytes)
    requires EncodableVars(ms, true) && !HasEcmaVars(ms)
    ensures DecodeMembers(EncodeVars(ms, true) + (EndMarker() + s)) == Done(ms, s)
    decreases ms, 2
  {
    hide Encode, EncodeVar, DecodeValue, DecodeVar;
    if ms == [] {
      assert EncodeVars(ms, true) + (EndMarker() + s) == EndMarker() + s;
      Read24(ENDMARKER, s);
    } else {
      var tail := EncodeVars(ms[1..], true) + (EndMarker() + s);
      assert EncodeVars(ms, true) + (EndMarker() + s) == EncodeVar(ms[0], true) + tail;
      MemberIsNotEndMarker(ms[0], tail);
      ReadVarInvertsWrite(ms[0], true, tail);
      ReadMembersInvertsWrite(ms[1..], s);
      assert ms == [ms[0]] + ms[1..];
    }
  }

  /** A root ECMA array gives its members back and leaves its own end marker unread. */
  lemma ReadRootEcma(members: seq<Variable>, s: Bytes)
    requires Encodable(Ecma(members)) && !HasEcmaVars(members)
    ensures DecodeValue(Encode(Ecma(members)) + s) == Done(Ecma(members), EndMarker() + s)
  {
    ReadVarsInvertsWrite(members, true, EndMarker() + s);
    Read24(ENDMARKER, s);
    ReadEcma(members, s);
  }

  // ----- ECMA arrays below the root -----

  /** k end markers that nobody consumed. */
  function Markers(k: nat): Bytes {
    if k == 0 then [] else EndMarker() + Markers(k - 1)
  }

  /** A tree with an ECMA array in it may read back as itself, but then the cursor is left on
      unread end markers, short of the end of the bytes Write emitted. */
  lemma {:induction false} EcmaStopsShort(v: Value, s: Bytes, rest: Bytes) returns (k: nat)
    requires Encodable(v) && HasEcma(v)
    requires DecodeValue(Encode(v) + s) == Done(v, rest)
    ensures k >= 1 && rest == Markers(k) + s
    decreases v, 0
  {
    hide Encode, DecodeValue;
    match v
    case Obj(members) =>
      ReadObject(members, s);
      k := ObjectStopsShort(members, s, rest);
    case Ecma(members) =>
      ReadEcma(members, s);
      k := RootStopsShort(members, s, rest);
    case Strict(members) =>
      ReadStrict(members, s);
      k := VarsStopShort(members, false, s, rest);
  }

  lemma {:induction false} RootStopsShort(ms: seq<Variable>, s: Bytes, rest: Bytes) returns (k: nat)
    requires EncodableVars(ms, true)
    requires EcmaOf(DecodeVars(EncodeVars(ms, true) + (EndMarker() + s), |ms|, true)) == Done(Ecma(ms), rest)
    ensures k >= 1 && rest == Markers(k) + s
    decreases ms, 3
  {
    hide Encode, DecodeValue, DecodeVars, EncodeVars;
    if HasEcmaVars(ms) {
      var r := DecodeVars(EncodeVars(ms, true) + (EndMarker() + s), |ms|, true).rest;
      k := VarsStopShort(ms, true, EndMarker() + s, r);
      MarkersFirst(k, EndMarker() + s);
      k := MarkersAppend(k, s);
    } else {
      ReadVarsInvertsWrite(ms, true, EndMarker() + s);
      Read24(ENDMARKER, s);
      k := 1;
      assert Markers(1) == EndMarker() + Markers(0);
    }
  }

  lemma MarkersFirst(k: nat, s: Bytes)
    requires k >= 1
    ensures Markers(k) + s == EndMarker() + (Markers(k - 1) + s)
    ensures |Markers(k) + s| >= 3 && U24At(Markers(k) + s) == ENDMARKER
  {
    Read24(ENDMARKER, Markers(k - 1) + s);
  }

  lemma {:induction false} MarkersAppend(k: nat, s: Bytes) returns (k': nat)
    ensures k' == k + 1 && Markers(k) + (EndMarker() + s) == Markers(k') + s
  {
    k' := k + 1;
    if k > 0 {
      var j := MarkersAppend(k - 1, s);
      MarkersFirst(k, EndMarker() + s);
      MarkersFirst(k + 1, s);
    } else {
      assert Markers(1) == EndMarker() + Markers(0);
    }
  }

  lemma {:induction false} VarsStopShort(ms: seq<Variable>, named: bool, s: Bytes, rest: Bytes) returns (k: nat)
    requires EncodableVars(ms, named) && HasEcmaVars(ms)
    requires DecodeVars(EncodeVars(ms, named) + s, |ms|, named) == Done(ms, rest)
    ensures k >= 1 && rest == Markers(k) + s
    decreases ms, 2
  {
    hide Encode, DecodeValue, DecodeVar, EncodeVar;
    var m, n := ms[0], |ms| - 1;
    var tail := EncodeVars(ms[1..], named) + s;
    assert EncodeVars(ms, named) + s == EncodeVar(m, named) + tail;
    var first := DecodeVar(EncodeVar(m, named) + tail, named);
    assert first.Done? && DecodeVars(first.rest, n, named).Done?;
    assert ms == [first.item] + DecodeVars(first.rest, n, named).item;
    assert first.item == m && DecodeVars(first.rest, n, named).item == ms[1..];
    if HasEcma(m.value) {
      k := VarStopsShort(m, named, tail, first.rest);
      if named {
        if n > 0 {
          NoNamedAfterMarker(k, tail, n);
          assert false;
        }
        assert tail == s;
      } else {
        DoublesAfterMarkers(ms[1..], k, s, rest);
      }
    } else {
      ReadVarInvertsWrite(m, named, tail);
      k := VarsStopShort(ms[1..], named, s, rest);
    }
  }

  lemma {:induction false} ObjectStopsShort(ms: seq<Variable>, s: Bytes, rest: Bytes) returns (k: nat)
    requires EncodableVars(ms, true) && HasEcmaVars(ms)
    requires ObjectOf(DecodeMembers(EncodeVars(ms, true) + (EndMarker() + s))) == Done(Obj(ms), rest)
    ensures k >= 1 && rest == Markers(k) + s
    decreases ms, 2
  {
    hide Encode, DecodeValue, DecodeVar, EncodeVar;
    var m := ms[0];
    var tail := EncodeVars(ms[1..], true) + (EndMarker() + s);
    var t := EncodeVar(m, true) + tail;
    assert EncodeVars(ms, true) + (EndMarker() + s) == t;
    MemberIsNotEndMarker(m, tail);
    var first := DecodeVar(t, true);
    assert first.Done? && DecodeMembers(first.rest).Done?;
    assert ms == [first.item] + DecodeMembers(first.rest).item;
    assert first.item == m && DecodeMembers(first.rest) == Done(ms[1..], rest);
    if HasEcma(m.value) {
      k := VarStopsShort(m, true, tail, first.rest);
      MarkersFirst(k, tail);
      assert ms[1..] == [] && rest == Markers(k - 1) + tail;
      assert tail == EndMarker() + s;
      k := MarkersAppend(k - 1, s);
    } else {
      ReadVarInvertsWrite(m, true, tail);
      k := ObjectStopsShort(ms[1..], s, rest);
    }
  }

  lemma {:induction false} VarStopsShort(m: Variable, named: bool, s: Bytes, rest: Bytes) returns (k: nat)
    requires EncodableVar(m, named) && HasEcma(m.value)
    requires DecodeVar(EncodeVar(m, named) + s, named) == Done(m, rest)
    ensures k >= 1 && rest == Markers(k) + s
    decreases m, 1
  {
    hide Encode, DecodeValue, EncodeString, DecodeString;
    var tail := Encode(m.value) + s;
    if named {
      assert EncodeVar(m, named) + s == EncodeString(m.name) + tail;
      ReadString(m.name, tail);
    } else {
      assert EncodeVar(m, named) + s == tail;
    }
    k := EcmaStopsShort(m.value, s, rest);
  }

  /** Where a name should begin, an end marker reads as an empty name before the type byte 9,
      which has no object: that member is lost. */
  lemma NoNamedAfterMarker(k: nat, s: Bytes, n: nat)
    requires k >= 1 && n >= 1
    ensures DecodeVars(Markers(k) + s, n, true).Done? ==> |DecodeVars(Markers(k) + s, n, true).item| < n
  {
    var t := Markers(k) + s;
    MarkersFirst(k, s);
    var body := t[2..];
    assert t[0] == 0 && t[1] == 0 && body[0] == 9;
    assert DecodeString(t) == Done([], body) by {
      assert t[2..2] == [];
    }
    assert DecodeValue(body) == Failed(body);
    assert DecodeVar(t, true) == Failed(body);
  }

  /** Where a value of a strict array should begin, an end marker reads as the start of a double.
      Only a double whose bytes are three end markers survives that. */
  lemma {:induction false} DoublesAfterMarkers(ms: seq<Variable>, k: nat, s: Bytes, rest: Bytes)
    requires k >= 1 && EncodableVars(ms, false)
    requires DecodeVars(Markers(k) + (EncodeVars(ms, false) + s), |ms|, false) == Done(ms, rest)
    ensures rest == Markers(k) + s
    decreases ms
  {
    if ms == [] {
      assert EncodeVars(ms, false) + s == s;
    } else {
      var m, n := ms[0], |ms| - 1;
      var tail := EncodeVars(ms[1..], false) + s;
      assert EncodeVars(ms, false) + s == Encode(m.value) + tail;
      DoubleAfterMarkers(m, k, tail, n, ms, rest);
      DoublesAfterMarkers(ms[1..], k, s, rest);
    }
  }

  lemma DoubleAfterMarkers(m: Variable, k: nat, tail: Bytes, n: nat, ms: seq<Variable>, rest: Bytes)
    requires k >= 1 && n == |ms| - 1 && m == ms[0]
    requires DecodeVars(Markers(k) + (Encode(m.value) + tail), n + 1, false) == Done(ms, rest)
    ensures DecodeVars(Markers(k) + tail, n, false) == Done(ms[1..], rest)
  {
    var t := Markers(k) + (Encode(m.value) + tail);
    MarkersFirst(k, Encode(m.value) + tail);
    assert t[0] == 0;
    var first := DecodeVar(t, false);
    ReadsAsDouble(t);
    assert first.Done? && ms == [first.item] + DecodeVars(first.rest, n, false).item by {
      hide DecodeVar;
    }
    assert Encode(m.value) == t[..9] && first.rest == t[9..];
    ThreeMarkers(Encode(m.value), k, tail);
  }

  lemma ReadsAsDouble(t: Bytes)
    requires |t| >= 1 && t[0] == 0
    ensures var r := DecodeVar(t, false);
      !r.Failed? && (r.Done? ==> |t| >= 9 && Encode(r.item.value) == t[..9] && r.rest == t[9..])
  {
    hide DecodeVar, Encode, U64At, BE64;
    var body := t[1..];
    DoubleAhead(t);
    if |body| >= 8 {
      FirstEight(body);
      assert t[..9] == [0] + body[..8];
      assert body[8..] == t[9..];
      assert Encode(Double(U64At(body))) == [0] + body[..8] by { EncodedDouble(U64At(body)); }
    }
  }

  lemma DoubleAhead(t: Bytes)
    requires |t| >= 1 && t[0] == 0
    ensures DecodeVar(t, false) == if |t| < 9 then Overrun
                                   else Done(Variable(false, [], Double(U64At(t[1..]))), t[1..][8..])
  {
    hide U64At, DecodeMembers, DecodeCounted, DecodeText, DecodeLongString, ObjectOf, EcmaOf, StrictOf;
  }

  lemma EncodedDouble(bits: u64)
    ensures Encode(Double(bits)) == [0] + BE64(bits)
  {
    hide BE64;
  }

  lemma FirstEight(body: Bytes)
    requires |body| >= 8
    ensures BE64(U64At(body)) == body[..8]
  {
    hide BE64, U32At;
    assert body[..8][..4] == body[..4] && body[..8][4..8] == body[4..8];
    Write64(body[..8]);
  }

  /** Nine bytes that reappear behind k end markers are end markers themselves. */
  lemma ThreeMarkers(e: Bytes, k: nat, tail: Bytes)
    requires k >= 1 && |e| == 9 && (Markers(k) + (e + tail))[..9] == e
    ensures (Markers(k) + (e + tail))[9..] == Markers(k) + tail
  {
    Periodic(e, k, tail);
    NineBytes();
    MarkersCommute(k, 3);
    hide Markers;
    var t := Markers(k) + (e + tail);
    assert t == (Markers(k) + e) + tail == e + (Markers(k) + tail);
  }

  lemma Periodic(e: Bytes, k: nat, tail: Bytes)
    requires k >= 1 && |e| == 9 && (Markers(k) + (e + tail))[..9] == e
    ensures e == [0, 0, 9, 0, 0, 9, 0, 0, 9]
  {
    hide Markers;
    var t := Markers(k) + (e + tail);
    MarkersPeriodic(k, e + tail);
    assert forall i :: 0 <= i < 9 ==> t[i] == e[i];
    assert t[..3] == [t[0], t[1], t[2]];
    if k == 1 {
      assert forall i :: 0 <= i < 6 ==> t[3 + i] == (e + tail)[i] == e[i];
    } else {
      assert t[3..6] == [t[3], t[4], t[5]];
      if k == 2 {
        assert forall i :: 0 <= i < 3 ==> t[6 + i] == (e + tail)[i] == e[i];
      } else {
        assert t[6..9] == [t[6], t[7], t[8]];
      }
    }
    NineDigits(e);
  }

  lemma NineDigits(e: Bytes)
    requires |e| == 9 && e[0] == 0 && e[1] == 0 && e[2] == 9 && e[3] == 0 && e[4] == 0 && e[5] == 9
    requires e[6] == 0 && e[7] == 0 && e[8] == 9
    ensures e == [0, 0, 9, 0, 0, 9, 0, 0, 9]
  {
  }

  lemma NineBytes()
    ensures Markers(3) == [0, 0, 9, 0, 0, 9, 0, 0, 9]
  {
    assert Markers(1) == [0, 0, 9];
    assert Markers(2) == EndMarker() + Markers(1);
    assert Markers(3) == EndMarker() + Markers(2);
  }

  lemma {:induction false} MarkersPeriodic(k: nat, s: Bytes)
    ensures |Markers(k)| == 3 * k
    ensures k >= 1 ==> (Markers(k) + s)[..3] == [0, 0, 9]
    ensures k >= 2 ==> (Markers(k) + s)[3..6] == [0, 0, 9]
    ensures k >= 3 ==> (Markers(k) + s)[6..9] == [0, 0, 9]
    ensures forall i :: 0 <= i < |s| ==> (Markers(k) + s)[3 * k + i] == s[i]
  {
    MarkersLength(k);
    if k >= 1 { MarkersFirst(k, s); }
    if k >= 2 { MarkersFirst(k - 1, s); }
    if k >= 3 { MarkersFirst(k - 2, s); }
  }

  lemma MarkersLength(k: nat)
    ensures |Markers(k)| == 3 * k
  {
  }

  lemma {:induction false} MarkersCommute(k: nat, j: nat)
    ensures Markers(k) + Markers(j) == Markers(j) + Markers(k)
  {
    if k > 0 {
      MarkersCommute(k - 1, j);
      var n := MarkersAppend(j, Markers(k - 1));
      assert Markers(j) + Markers(k) == Markers(j + 1) + Markers(k - 1);
      assert Markers(k) + Markers(j) == EndMarker() + (Markers(k - 1) + Markers(j));
      assert Markers(j + 1) + Markers(k - 1) == EndMarker() + (Markers(j) + Markers(k - 1));
    }
  }

  /** Read inverts Write, cursor included, on exactly the trees that hold no ECMA array. */
  lemma ReadInvertsWriteIff(v: Value, s: Bytes)
    requires Encodable(v)
    ensures DecodeValue(Encode(v) + s) == Done(v, s) <==> !HasEcma(v)
  {
    if HasEcma(v) {
      forall k: nat | k > 0
        ensures |Markers(k) + s| > |s|
      {
        MarkersLength(k);
      }
      if DecodeValue(Encode(v) + s) == Done(v, s) {
        var k := EcmaStopsShort(v, s, s);
        assert false;
      }
    } else {
      ReadInvertsWrite(v, s);
    }
  }

  /** For example: the member after a nested ECMA array is lost. */
  lemma NestedEcmaLosesMembers()
    ensures var v := Obj([Variable(true, [97], Ecma([])), Variable(true, [98], Null)]);
      && Encodable(v)
      && DecodeValue(Encode(v)) == Done(Obj([Variable(true, [97], Ecma([]))]), [0, 1, 98, 5, 0, 0, 9])
  {
    var a, b := Variable(true, [97], Ecma([])), Variable(true, [98], Null);
    var tail: Bytes := [0, 1, 98, 5, 0, 0, 9];
    assert EncodeVars([b], true) == [0, 1, 98, 5] by {
      assert [b][1..] == [] && EncodeVar(b, true) == [0, 1, 98, 5];
    }
    assert [a, b][1..] == [b] && EndMarker() == [0, 0, 9];
    assert EncodeVars([a, b], true) + (EndMarker() + []) == EncodeVar(a, true) + tail;
    ReadObject([a, b], []);
    assert Encode(Obj([a, b])) + [] == Encode(Obj([a, b]));
    MemberBeforeMarker(a, tail);
    MemberIsNotEndMarker(a, tail);
    hide DecodeVar, EncodeVar, Encode, EncodeVars, DecodeValue;
    Read24(ENDMARKER, tail);
    assert DecodeMembers(EndMarker() + tail) == Done([], tail);
    assert [a] + [] == [a];
  }

  lemma MemberBeforeMarker(a: Variable, tail: Bytes)
    requires a == Variable(true, [97], Ecma([]))
    ensures DecodeVar(EncodeVar(a, true) + tail, true) == Done(a, EndMarker() + tail)
  {
    hide DecodeValue, Encode, EncodeString, DecodeString;
    var inner := Encode(Ecma([])) + tail;
    ReadRootEcma([], tail);
    ReadString([97], inner);
    assert EncodeVar(a, true) + tail == EncodeString([97]) + inner;
  }
}
