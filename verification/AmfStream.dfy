/** AS_Bytestream and the Read and Write methods of the value objects, moving one shared cursor. */
module AmfStream {
  import opened Words
  import opened BigEndian
  import opened Amf0
  import opened Amf0Format
  import opened Wrappers

  /** before with the bytes from start on replaced. */
  function Splice(before: Bytes, start: nat, bytes: Bytes): (r: Bytes)
    requires start + |bytes| <= |before|
    ensures |r| == |before|
  {
    before[..start] + bytes + before[start + |bytes|..]
  }

  lemma SpliceTwice(before: Bytes, start: nat, a: Bytes, b: Bytes)
    requires start + |a| + |b| <= |before|
    ensures Splice(Splice(before, start, a), start + |a|, b) == Splice(before, start, a + b)
  {
  }

  class Bytestream {
    const buf: array<u8>
    var pos: nat

    constructor (buf: array<u8>)
      ensures this.buf == buf && pos == 0
    {
      this.buf := buf;
      pos := 0;
    }

    ghost predicate Valid()
      reads this
    {
      pos <= buf.Length
    }

    /** The bytes from the cursor on. */
    ghost function Rest(): Bytes
      reads this, buf
      requires Valid()
    {
      buf[pos..]
    }

    ghost predicate Room(n: nat)
      reads this
    {
      pos + n <= buf.Length
    }

    /** Since the buffer was before and the cursor at start, exactly these bytes were written. */
    ghost predicate Wrote(before: Bytes, start: nat, bytes: Bytes)
      reads this, buf
    {
      && start + |bytes| <= |before|
      && pos == start + |bytes|
      && buf[..] == Splice(before, start, bytes)
    }

    lemma WroteMore(before: Bytes, start: nat, a: Bytes, middle: Bytes, b: Bytes)
      requires start + |a| <= |before| && middle == Splice(before, start, a)
      requires Wrote(middle, start + |a|, b)
      ensures Wrote(before, start, a + b)
    {
      SpliceTwice(before, start, a, b);
    }

    lemma WroteStands(before: Bytes, start: nat, v: Value)
      requires Wrote(before, start, Encode(v))
      ensures Stands(buf[..], start, v, pos)
    {
      hide Stands, Encode;
      StandsIff(buf[..], start, v, pos);
    }

    // ----- Set -----

    method USet8(val: u8)
      requires Room(1)
      modifies this`pos, buf
      ensures Wrote(old(buf[..]), old(pos), [val])
    {
      buf[pos] := val;
      pos := pos + 1;
    }

    method USet16(val: u16)
      requires Room(2)
      modifies this`pos, buf
      ensures Wrote(old(buf[..]), old(pos), BE16(val))
    {
      buf[pos], buf[pos + 1] := val / 0x100, val % 0x100;
      pos := pos + 2;
    }

    method USet24(val: nat)
      requires Room(3) && val < TWO24
      modifies this`pos, buf
      ensures Wrote(old(buf[..]), old(pos), BE24(val))
    {
      buf[pos], buf[pos + 1], buf[pos + 2] := val / 0x1_0000, val / 0x100 % 0x100, val % 0x100;
      pos := pos + 3;
    }

    method USet32(val: u32)
      requires Room(4)
      modifies this`pos, buf
      ensures Wrote(old(buf[..]), old(pos), BE32(val))
    {
      ghost var before, start := buf[..], pos;
      USet16(val / 0x1_0000);
      ghost var middle := buf[..];
      USet16(val % 0x1_0000);
      WroteMore(before, start, BE16(val / 0x1_0000), middle, BE16(val % 0x1_0000));
    }

    method USet64(val: u64)
      requires Room(8)
      modifies this`pos, buf
      ensures Wrote(old(buf[..]), old(pos), BE64(val))
    {
      ghost var before, start := buf[..], pos;
      USet32(val / TWO32);
      ghost var middle := buf[..];
      USet32(val % TWO32);
      WroteMore(before, start, BE32(val / TWO32), middle, BE32(val % TWO32));
    }

    method CopyIn(text: Bytes)
      requires Room(|text|)
      modifies this`pos, buf
      ensures Wrote(old(buf[..]), old(pos), text)
    {
      forall i | 0 <= i < |text| {
        buf[pos + i] := text[i];
      }
      pos := pos + |text|;
    }

    method SetString(text: Bytes)
      requires Room(2 + |text|)
      modifies this`pos, buf
      ensures Wrote(old(buf[..]), old(pos), EncodeString(text))
    {
      ghost var before, start := buf[..], pos;
      USet16(|text| % TWO16);
      ghost var middle := buf[..];
      CopyIn(text);
      WroteMore(before, start, BE16(|text| % TWO16), middle, text);
    }

    method SetLongString(text: Bytes)
      requires Room(4 + |text|)
      modifies this`pos, buf
      ensures Wrote(old(buf[..]), old(pos), BE32(|text| % TWO32) + text)
    {
      ghost var before, start := buf[..], pos;
      USet32(|text| % TWO32);
      ghost var middle := buf[..];
      CopyIn(text);
      WroteMore(before, start, BE32(|text| % TWO32), middle, text);
    }

    // ----- Peek and Get -----

    function UPeek8(): u8
      reads this, buf
      requires Room(1)
    {
      buf[pos]
    }

    function UPeek24(): nat
      reads this, buf
      requires Room(3)
    {
      buf[pos] * TWO16 + buf[pos + 1] * TWO8 + buf[pos + 2]
    }

    method UGet8() returns (val: u8)
      requires Room(1)
      modifies this`pos
      ensures Valid() && val == old(Rest())[0] && Rest() == old(Rest())[1..]
    {
      val := buf[pos];
      pos := pos + 1;
    }

    method UGet16() returns (val: u16)
      requires Room(2)
      modifies this`pos
      ensures Valid() && val == U16At(old(Rest())) && Rest() == old(Rest())[2..]
    {
      val := buf[pos] * TWO8 + buf[pos + 1];
      pos := pos + 2;
    }

    method UGet24() returns (val: nat)
      requires Room(3)
      modifies this`pos
      ensures Valid() && val == U24At(old(Rest())) && Rest() == old(Rest())[3..]
    {
      val := UPeek24();
      pos := pos + 3;
    }

    method UGet32() returns (val: u32)
      requires Room(4)
      modifies this`pos
      ensures Valid() && val == U32At(old(Rest())) && Rest() == old(Rest())[4..]
    {
      val := buf[pos] * TWO24 + buf[pos + 1] * TWO16 + buf[pos + 2] * TWO8 + buf[pos + 3];
      pos := pos + 4;
    }

    method UGet64() returns (val: u64)
      requires Room(8)
      modifies this`pos
      ensures Valid() && val == U64At(old(Rest())) && Rest() == old(Rest())[8..]
    {
      ghost var s := Rest();
      var high := UGet32();
      var low := UGet32();
      val := high * TWO32 + low;
      assert U32At(s[..4]) == U32At(s) && U32At(s[4..8]) == U32At(s[4..]);
    }

    method CopyOut(n: nat) returns (text: Bytes)
      requires Room(n)
      modifies this`pos
      ensures Valid() && text == old(Rest())[..n] && Rest() == old(Rest())[n..]
    {
      text := buf[pos..pos + n];
      pos := pos + n;
    }

    method GetString() returns (text: Bytes)
      requires Valid() && DecodeString(Rest()).Done?
      modifies this`pos
      ensures Valid() && DecodeString(old(Rest())) == Done(text, Rest())
    {
      ghost var s := Rest();
      var len := UGet16();
      text := CopyOut(len);
      assert s[2..][..len] == s[2..2 + len] && s[2..][len..] == s[2 + len..];
    }

    method GetLongString() returns (text: Bytes)
      requires Valid() && DecodeLongString(Rest()).Done?
      modifies this`pos
      ensures Valid() && DecodeLongString(old(Rest())) == Done(text, Rest())
    {
      ghost var s := Rest();
      var len := UGet32();
      text := CopyOut(len);
      assert s[4..][..len] == s[4..4 + len] && s[4..][len..] == s[4 + len..];
    }
  }

  // ----- Write -----

  /** Write of a value object. The tree it leaves behind has hasname cleared where Write clears it. */
  method WriteValue(v: Value, b: Bytestream) returns (after: Value)
    requires b.Room(|Encode(v)|)
    modifies b`pos, b.buf
    ensures b.Wrote(old(b.buf[..]), old(b.pos), Encode(v))
    ensures Stands(b.buf[..], old(b.pos), v, b.pos)
    ensures after == Written(v)
    decreases v, 0
  {
    hide Stands;
    ghost var before := b.buf[..];
    after := v;
    match v {
      case Double(bits) => WriteDouble(bits, b);
      case UInt8(value) => WriteUInt8(value, b);
      case Str(tag, text) => WriteStr(tag, text, b);
      case Obj(members) =>
        var ms := WriteObject(members, b);
        after := Obj(ms);
      case Null => b.USet8(5);
      case UInt16(word) => WriteUInt16(word, b);
      case Ecma(members) =>
        var ms := WriteEcma(members, b);
        after := Ecma(ms);
      case Strict(members) =>
        var ms := WriteStrict(members, b);
        after := Strict(ms);
      case Date(datetime, offset) => WriteDate(datetime, offset, b);
      case LongStr(text) => WriteLongStr(text, b);
    }
    b.WroteStands(before, old(b.pos), v);
  }

  method WriteDouble(bits: u64, b: Bytestream)
    requires b.Room(9)
    modifies b`pos, b.buf
    ensures b.Wrote(old(b.buf[..]), old(b.pos), Encode(Double(bits)))
  {
    hide Splice;
    ghost var before, start := b.buf[..], b.pos;
    b.USet8(0);
    ghost var middle := b.buf[..];
    b.USet64(bits);
    b.WroteMore(before, start, [0], middle, BE64(bits));
  }

  method WriteUInt8(value: u8, b: Bytestream)
    requires b.Room(2)
    modifies b`pos, b.buf
    ensures b.Wrote(old(b.buf[..]), old(b.pos), Encode(UInt8(value)))
  {
    hide Splice;
    ghost var before, start := b.buf[..], b.pos;
    b.USet8(1);
    ghost var middle := b.buf[..];
    b.USet8(value);
    b.WroteMore(before, start, [1], middle, [value]);
    assert [1] + [value] == Encode(UInt8(value));
  }

  method WriteUInt16(word: u16, b: Bytestream)
    requires b.Room(3)
    modifies b`pos, b.buf
    ensures b.Wrote(old(b.buf[..]), old(b.pos), Encode(UInt16(word)))
  {
    hide Splice;
    ghost var before, start := b.buf[..], b.pos;
    b.USet8(7);
    ghost var middle := b.buf[..];
    b.USet16(word);
    b.WroteMore(before, start, [7], middle, BE16(word));
  }

  method WriteStr(tag: u8, text: Bytes, b: Bytestream)
    requires b.Room(3 + |text|)
    modifies b`pos, b.buf
    ensures b.Wrote(old(b.buf[..]), old(b.pos), Encode(Str(tag, text)))
  {
    hide Splice;
    ghost var before, start := b.buf[..], b.pos;
    b.USet8(tag);
    ghost var middle := b.buf[..];
    b.SetString(text);
    b.WroteMore(before, start, [tag], middle, EncodeString(text));
  }

  method WriteLongStr(text: Bytes, b: Bytestream)
    requires b.Room(5 + |text|)
    modifies b`pos, b.buf
    ensures b.Wrote(old(b.buf[..]), old(b.pos), Encode(LongStr(text)))
  {
    hide Splice;
    ghost var before, start := b.buf[..], b.pos;
    b.USet8(12);
    ghost var middle := b.buf[..];
    b.SetLongString(text);
    b.WroteMore(before, start, [12], middle, BE32(|text| % TWO32) + text);
    assert Encode(LongStr(text)) == [12] + (BE32(|text| % TWO32) + text);
  }

  method WriteDate(datetime: u64, offset: int, b: Bytestream)
    requires b.Room(11)
    modifies b`pos, b.buf
    ensures b.Wrote(old(b.buf[..]), old(b.pos), Encode(Date(datetime, offset)))
  {
    hide Splice;
    ghost var before, start := b.buf[..], b.pos;
    b.USet8(11);
    ghost var middle := b.buf[..];
    b.USet64(datetime);
    b.WroteMore(before, start, [11], middle, BE64(datetime));
    middle := b.buf[..];
    b.USet16(offset % TWO16);
    b.WroteMore(before, start, [11] + BE64(datetime), middle, BE16(offset % TWO16));
  }

  method WriteVar(m: Variable, named: bool, b: Bytestream) returns (after: Variable)
    requires b.Room(|EncodeVar(m, named)|)
    modifies b`pos, b.buf
    ensures b.Wrote(old(b.buf[..]), old(b.pos), EncodeVar(m, named))
    ensures after == WrittenVar(m, named)
    decreases m, 1
  {
    ghost var before, start, name := b.buf[..], b.pos, [];
    var hasname := named && m.hasname;
    if hasname {
      b.SetString(m.name);
      name := EncodeString(m.name);
    }
    ghost var middle := b.buf[..];
    assert middle == Splice(before, start, name);
    var value := WriteValue(m.value, b);
    b.WroteMore(before, start, name, middle, Encode(m.value));
    after := Variable(hasname, m.name, value);
  }

  /** The loop over the children. */
  method WriteVars(ms: seq<Variable>, named: bool, b: Bytestream) returns (after: seq<Variable>)
    requires b.Room(|EncodeVars(ms, named)|)
    modifies b`pos, b.buf
    ensures b.Wrote(old(b.buf[..]), old(b.pos), EncodeVars(ms, named))
    ensures after == WrittenVars(ms, named)
    decreases ms, 2
  {
    hide Splice;
    hide EncodeVar, Encode, WrittenVar, Written;
    ghost var before, start := b.buf[..], b.pos;
    after := [];
    Unwritten(b, before, start);
    for i := 0 to |ms|
      invariant b.Wrote(before, start, EncodeVars(ms[..i], named))
      invariant after == WrittenVars(ms[..i], named)
    {
      ghost var middle := b.buf[..];
      EncodeVarsSplit(ms, i, named);
      var m := WriteVar(ms[i], named, b);
      b.WroteMore(before, start, EncodeVars(ms[..i], named), middle, EncodeVar(ms[i], named));
      after := after + [m];
    }
    assert ms[..|ms|] == ms;
  }

  lemma Unwritten(b: Bytestream, before: Bytes, start: nat)
    requires b.Valid() && before == b.buf[..] && start == b.pos
    ensures b.Wrote(before, start, [])
  {
  }

  lemma EncodeVarsSplit(ms: seq<Variable>, i: nat, named: bool)
    requires i < |ms|
    ensures EncodeVars(ms[..i + 1], named) == EncodeVars(ms[..i], named) + EncodeVar(ms[i], named)
    ensures WrittenVars(ms[..i + 1], named) == WrittenVars(ms[..i], named) + [WrittenVar(ms[i], named)]
    ensures |EncodeVars(ms[..i + 1], named)| <= |EncodeVars(ms, named)|
  {
    assert ms[..i + 1] == ms[..i] + [ms[i]];
    EncodeVarsAppend(ms[..i], ms[i], named);
    WrittenVarsAppend(ms[..i], ms[i], named);
    EncodeVarsConcat(ms[..i + 1], ms[i + 1..], named);
    assert ms == ms[..i + 1] + ms[i + 1..];
  }

  method WriteObject(members: seq<Variable>, b: Bytestream) returns (after: seq<Variable>)
    requires b.Room(|Encode(Obj(members))|)
    modifies b`pos, b.buf
    ensures b.Wrote(old(b.buf[..]), old(b.pos), Encode(Obj(members)))
    ensures after == WrittenVars(members, true)
    decreases members, 3
  {
    hide Splice;
    ghost var before, start := b.buf[..], b.pos;
    b.USet8(3);
    ghost var middle := b.buf[..];
    after := WriteVars(members, true, b);
    ghost var body := EncodeVars(members, true);
    b.WroteMore(before, start, [3], middle, body);
    middle := b.buf[..];
    b.USet24(ENDMARKER);
    b.WroteMore(before, start, [3] + body, middle, EndMarker());
  }

  method WriteEcma(members: seq<Variable>, b: Bytestream) returns (after: seq<Variable>)
    requires b.Room(|Encode(Ecma(members))|)
    modifies b`pos, b.buf
    ensures b.Wrote(old(b.buf[..]), old(b.pos), Encode(Ecma(members)))
    ensures after == WrittenVars(members, true)
    decreases members, 3
  {
    hide Splice;
    ghost var before, start := b.buf[..], b.pos;
    WriteCount(8, |members|, b);
    ghost var middle := b.buf[..];
    after := WriteVars(members, true, b);
    ghost var header, body := [8] + BE32(|members| % TWO32), EncodeVars(members, true);
    b.WroteMore(before, start, header, middle, body);
    middle := b.buf[..];
    b.USet24(ENDMARKER);
    b.WroteMore(before, start, header + body, middle, EndMarker());
  }

  method WriteStrict(members: seq<Variable>, b: Bytestream) returns (after: seq<Variable>)
    requires b.Room(|Encode(Strict(members))|)
    modifies b`pos, b.buf
    ensures b.Wrote(old(b.buf[..]), old(b.pos), Encode(Strict(members)))
    ensures after == WrittenVars(members, false)
    decreases members, 3
  {
    hide Splice;
    ghost var before, start := b.buf[..], b.pos;
    WriteCount(10, |members|, b);
    ghost var middle := b.buf[..];
    after := WriteVars(members, false, b);
    b.WroteMore(before, start, [10] + BE32(|members| % TWO32), middle, EncodeVars(members, false));
  }

  method WriteCount(tag: u8, n: nat, b: Bytestream)
    requires b.Room(5)
    modifies b`pos, b.buf
    ensures b.Wrote(old(b.buf[..]), old(b.pos), [tag] + BE32(n % TWO32))
  {
    hide Splice;
    ghost var before, start := b.buf[..], b.pos;
    b.USet8(tag);
    ghost var middle := b.buf[..];
    b.USet32(n % TWO32);
    b.WroteMore(before, start, [tag], middle, BE32(n % TWO32));
  }

  // ----- Read -----

  /** The members already read, in front of what the rest of the loop reads. */
  ghost function After(ms: seq<Variable>, p: Parsed<seq<Variable>>): Parsed<seq<Variable>> {
    match p
    case Done(items, rest) => Done(ms + items, rest)
    case _ => p
  }

  lemma AfterNone(p: Parsed<seq<Variable>>)
    ensures After([], p) == p
  {
    if p.Done? {
      assert [] + p.item == p.item;
    }
  }

  lemma AfterMore(ms: seq<Variable>, m: Variable, p: Parsed<seq<Variable>>)
    ensures After(ms, After([m], p)) == After(ms + [m], p)
  {
    if p.Done? {
      assert ms + ([m] + p.item) == ms + [m] + p.item;
    }
  }

  lemma VarsStep(s: Bytes, n: nat, named: bool)
    requires n > 0
    ensures var p := DecodeVar(s, named);
      DecodeVars(s, n, named) == (match p
        case Done(m, rest) => After([m], DecodeVars(rest, n - 1, named))
        case Failed(rest) => DecodeVars(rest, n - 1, named)
        case Overrun => Overrun)
  {
    hide DecodeVar;
  }

  lemma MembersStep(s: Bytes)
    requires |s| >= 3 && U24At(s) != ENDMARKER
    ensures var p := DecodeVar(s, true);
      DecodeMembers(s) == (match p
        case Done(m, rest) => After([m], DecodeMembers(rest))
        case Failed(rest) => Failed(rest)
        case Overrun => Overrun)
  {
    hide DecodeVar;
  }

  method ReadDouble(b: Bytestream) returns (v: Value)
    requires b.Room(1) && DecodeValue(b.Rest()).Done? && (b.Rest()[0] == 0)
    modifies b`pos
    ensures b.Valid() && b.pos >= old(b.pos) && DecodeValue(old(b.Rest())) == Done(v, b.Rest())
  {
    hide DecodeVars, DecodeVar, DecodeMembers, DecodeCounted;
    var tag := b.UGet8();
    var bits := b.UGet64();
    v := Double(bits);
  }

  method ReadUInt8(b: Bytestream) returns (v: Value)
    requires b.Room(1) && DecodeValue(b.Rest()).Done? && (b.Rest()[0] == 1)
    modifies b`pos
    ensures b.Valid() && b.pos >= old(b.pos) && DecodeValue(old(b.Rest())) == Done(v, b.Rest())
  {
    hide DecodeVars, DecodeVar, DecodeMembers, DecodeCounted;
    var tag := b.UGet8();
    var value := b.UGet8();
    v := UInt8(value);
  }

  method ReadStr(b: Bytestream) returns (v: Value)
    requires b.Room(1) && DecodeValue(b.Rest()).Done? && (b.Rest()[0] == 2 || b.Rest()[0] == 4)
    modifies b`pos
    ensures b.Valid() && b.pos >= old(b.pos) && DecodeValue(old(b.Rest())) == Done(v, b.Rest())
  {
    hide DecodeVars, DecodeVar, DecodeMembers, DecodeCounted;
    var tag := b.UGet8();
    hide DecodeString;
    var text := b.GetString();
    v := Str(tag, text);
  }

  method ReadUInt16(b: Bytestream) returns (v: Value)
    requires b.Room(1) && DecodeValue(b.Rest()).Done? && (b.Rest()[0] == 7)
    modifies b`pos
    ensures b.Valid() && b.pos >= old(b.pos) && DecodeValue(old(b.Rest())) == Done(v, b.Rest())
  {
    hide DecodeVars, DecodeVar, DecodeMembers, DecodeCounted;
    var tag := b.UGet8();
    var word := b.UGet16();
    v := UInt16(word);
  }

  method ReadDateTime(b: Bytestream) returns (v: Value)
    requires b.Room(1) && DecodeValue(b.Rest()).Done? && (b.Rest()[0] == 11)
    modifies b`pos
    ensures b.Valid() && b.pos >= old(b.pos) && DecodeValue(old(b.Rest())) == Done(v, b.Rest())
  {
    hide DecodeVars, DecodeVar, DecodeMembers, DecodeCounted;
    var tag := b.UGet8();
    ghost var body := b.Rest();
    var datetime := b.UGet64();
    var offset := b.UGet16();
    assert body[8..][2..] == body[10..];
    v := Date(datetime, I16(offset));
  }

  method ReadLongStr(b: Bytestream) returns (v: Value)
    requires b.Room(1) && DecodeValue(b.Rest()).Done? && (b.Rest()[0] == 12)
    modifies b`pos
    ensures b.Valid() && b.pos >= old(b.pos) && DecodeValue(old(b.Rest())) == Done(v, b.Rest())
  {
    hide DecodeVars, DecodeVar, DecodeMembers, DecodeCounted;
    var tag := b.UGet8();
    hide DecodeLongString;
    var text := b.GetLongString();
    v := LongStr(text);
  }

  method ReadEcmaArray(b: Bytestream) returns (v: Value)
    requires b.Room(1) && b.Rest()[0] == 8 && !DecodeValue(b.Rest()).Overrun?
    modifies b`pos
    ensures b.Valid() && b.pos >= old(b.pos) && DecodeValue(old(b.Rest())) == Done(v, b.Rest())
    decreases b.buf.Length - b.pos, 0
  {
    hide DecodeVars, DecodeVar, DecodeMembers, DecodeCounted;
    var tag := b.UGet8();
    var ms := ReadCounted(b, true);
    ghost var rest := b.Rest();
    var em := b.UPeek24();
    assert em == U24At(rest);
    if em == 3 {
      em := b.UGet24();
    }
    v := Ecma(ms);
  }

  method ReadStrictArray(b: Bytestream) returns (v: Value)
    requires b.Room(1) && b.Rest()[0] == 10 && !DecodeValue(b.Rest()).Overrun?
    modifies b`pos
    ensures b.Valid() && b.pos >= old(b.pos) && DecodeValue(old(b.Rest())) == Done(v, b.Rest())
    decreases b.buf.Length - b.pos, 0
  {
    hide DecodeVars, DecodeVar, DecodeMembers, DecodeCounted;
    var tag := b.UGet8();
    var ms := ReadCounted(b, false);
    v := Strict(ms);
  }

  /** CreateType on the byte ahead and Read of the new object. The readers check no bounds: the
      caller supplies bytes on which they stay inside the buffer. */
  method ReadValue(b: Bytestream) returns (ret: int, v: Option<Value>)
    requires b.Valid() && !DecodeValue(b.Rest()).Overrun?
    modifies b`pos
    ensures b.Valid() && b.pos >= old(b.pos)
    ensures match DecodeValue(old(b.Rest()))
      case Done(item, rest) => ret == 0 && v == Some(item) && b.Rest() == rest
      case Failed(rest) => ret == -1 && v == None && b.Rest() == rest
      case Overrun => false
    decreases b.buf.Length - b.pos, 2
  {
    TypeByteAhead(b.Rest());
    hide DecodeValue;
    ret, v := 0, None;
    var vtype := b.UPeek8();
    if vtype == 3 {
      ret, v := ReadObject(b);
    } else if vtype == 5 {
      var tag := b.UGet8();
      v := Some(Null);
    } else if vtype in {0, 1, 2, 4, 7, 8, 10, 11, 12} {
      var item := ReadTyped(vtype, b);
      v := Some(item);
    } else {
      ret := -1;
    }
  }

  lemma TypeByteAhead(s: Bytes)
    requires !DecodeValue(s).Overrun?
    ensures |s| >= 1
    ensures s[0] in {0, 1, 2, 4, 7, 8, 10, 11, 12} ==> DecodeValue(s).Done?
    ensures s[0] == 5 ==> DecodeValue(s) == Done(Null, s[1..])
    ensures s[0] !in {0, 1, 2, 3, 4, 5, 7, 8, 10, 11, 12} ==> DecodeValue(s) == Failed(s)
  {
    hide DecodeMembers;
  }

  method ReadTyped(vtype: u8, b: Bytestream) returns (v: Value)
    requires b.Room(1) && vtype == b.Rest()[0] && vtype in {0, 1, 2, 4, 7, 8, 10, 11, 12}
    requires DecodeValue(b.Rest()).Done?
    modifies b`pos
    ensures b.Valid() && b.pos >= old(b.pos) && DecodeValue(old(b.Rest())) == Done(v, b.Rest())
    decreases b.buf.Length - b.pos, 1
  {
    hide DecodeValue;
    match vtype
    case 0 => v := ReadDouble(b);
    case 1 => v := ReadUInt8(b);
    case 7 => v := ReadUInt16(b);
    case 8 => v := ReadEcmaArray(b);
    case 10 => v := ReadStrictArray(b);
    case 11 => v := ReadDateTime(b);
    case 12 => v := ReadLongStr(b);
    case _ => v := ReadStr(b);
  }

  method ReadObject(b: Bytestream) returns (ret: int, v: Option<Value>)
    requires b.Room(1) && b.Rest()[0] == 3 && !DecodeValue(b.Rest()).Overrun?
    modifies b`pos
    ensures b.Valid() && b.pos >= old(b.pos)
    ensures match DecodeValue(old(b.Rest()))
      case Done(item, rest) => ret == 0 && v == Some(item) && b.Rest() == rest
      case Failed(rest) => ret == -1 && v == None && b.Rest() == rest
      case Overrun => false
    decreases b.buf.Length - b.pos, 0
  {
    hide DecodeVars, DecodeVar, DecodeMembers, DecodeCounted;
    var tag := b.UGet8();
    var ms;
    ret, ms := ReadMembers(b);
    v := if ret < 0 then None else Some(Obj(ms));
  }

  /** The loop that peeks for the end marker before each member. */
  method ReadMembers(b: Bytestream) returns (ret: int, ms: seq<Variable>)
    requires b.Valid() && !DecodeMembers(b.Rest()).Overrun?
    modifies b`pos
    ensures b.Valid() && b.pos >= old(b.pos)
    ensures match DecodeMembers(old(b.Rest()))
      case Done(items, rest) => ret == 0 && ms == items && b.Rest() == rest
      case Failed(rest) => ret == -1 && b.Rest() == rest
      case Overrun => false
    decreases b.buf.Length - b.pos, 4
  {
    hide DecodeVar;
    ret, ms := 0, [];
    ghost var whole := DecodeMembers(b.Rest());
    AfterNone(whole);
    while true
      invariant b.Valid() && b.pos >= old(b.pos)
      invariant whole == After(ms, DecodeMembers(b.Rest()))
      invariant ret == 0
      decreases b.buf.Length - b.pos
    {
      ghost var s := b.Rest();
      var w := b.UPeek24();
      assert w == U24At(s);
      if w == ENDMARKER {
        w := b.UGet24();
        assert whole == Done(ms + [], b.Rest());
        assert ms + [] == ms;
        break;
      }
      MembersStep(s);
      hide DecodeMembers;
      var m;
      ret, m := ReadVar(b, true);
      if ret < 0 {
        break;
      }
      AfterMore(ms, m.value, DecodeMembers(b.Rest()));
      ms := ms + [m.value];
    }
  }

  /** The count of an array, then the loop over its members: one that cannot be read is dropped. */
  method ReadCounted(b: Bytestream, named: bool) returns (ms: seq<Variable>)
    requires b.Valid() && !DecodeCounted(b.Rest(), named).Overrun?
    modifies b`pos
    ensures b.Valid() && b.pos >= old(b.pos)
    ensures DecodeCounted(old(b.Rest()), named) == Done(ms, b.Rest())
    decreases b.buf.Length - b.pos, 4
  {
    hide DecodeVar, DecodeVars;
    ghost var s := b.Rest();
    var len := b.UGet32();
    var n := LoopCount(len);
    assert DecodeCounted(s, named) == DecodeVars(b.Rest(), n, named);
    hide DecodeCounted, U32At, LoopCount;
    ghost var whole := DecodeVars(b.Rest(), n, named);
    ms := [];
    AfterNone(whole);
    for i := 0 to n
      invariant b.Valid() && b.pos >= old(b.pos) + 4
      invariant whole == After(ms, DecodeVars(b.Rest(), n - i, named))
    {
      VarsStep(b.Rest(), n - i, named);
      var ret, m := ReadVar(b, named);
      if ret >= 0 {
        AfterMore(ms, m.value, DecodeVars(b.Rest(), n - i - 1, named));
        ms := ms + [m.value];
      }
    }
    NoRound(b.Rest(), named);
    assert ms + [] == ms;
  }

  lemma NoRound(s: Bytes, named: bool)
    ensures DecodeVars(s, 0, named) == Done([], s)
  {
  }

  method ReadVar(b: Bytestream, named: bool) returns (ret: int, m: Option<Variable>)
    requires b.Valid() && !DecodeVar(b.Rest(), named).Overrun?
    modifies b`pos
    ensures b.Valid() && b.pos >= old(b.pos)
    ensures match DecodeVar(old(b.Rest()), named)
      case Done(item, rest) => ret == 0 && m == Some(item) && b.Rest() == rest
      case Failed(rest) => ret == -1 && m == None && b.Rest() == rest
      case Overrun => false
    decreases b.buf.Length - b.pos, 3
  {
    var name: Bytes := [];
    if named {
      name := b.GetString();
    }
    var v;
    ret, v := ReadValue(b);
    m := if ret < 0 then None else Some(Variable(named, name, v.value));
  }
}
