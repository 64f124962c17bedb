/** The FLV file body: tags, each behind the size of the one before it, and the two ways to read
    it (Adobe Flash Video File Format Specification 10.1, Annex E.3 and E.4.1). */
module FlvFile {
  import opened Words
  import opened BigEndian
  import opened Wrappers
  import Reader = FlvReader

  /** A tag as it is on disk: the timestamp with its extension byte, the stream id always zero. */
  datatype Tag = Tag(kind: u8, timestamp: u32, data: Bytes)

  /** The tag header and the data. DataSize counts the data alone. */
  function TagBytes(t: Tag): (r: Bytes)
    requires |t.data| < TWO24
    ensures |r| == 11 + |t.data|
  {
    [t.kind] + BE24(|t.data|) + BE24(t.timestamp % TWO24) + [t.timestamp / TWO24] + [0, 0, 0] + t.data
  }

  /** A tag stands in a file exactly when its bytes do. */
  lemma TagStandsIff(b: Bytes, at: nat, t: Tag)
    requires |t.data| < TWO24
    ensures HoldsAt(b, at, TagBytes(t)) <==> Reader.TagStands(b, at, t.kind, t.timestamp, t.data)
  {
    hide BE24, Number, HoldsAt;
    var size, low := BE24(|t.data|), BE24(t.timestamp % TWO24);
    var front := [t.kind] + size + low + [t.timestamp / TWO24];
    HoldsParts(b, at, front + [0, 0, 0], t.data);
    HoldsParts(b, at, front, [0, 0, 0]);
    HoldsParts(b, at, [t.kind] + size + low, [t.timestamp / TWO24]);
    HoldsParts(b, at, [t.kind] + size, low);
    HoldsParts(b, at, [t.kind], size);
    HoldsByte(b, at, t.kind);
    HoldsByte(b, at + 7, t.timestamp / TWO24);
    Holds24(b, at + 1, |t.data|);
    Holds24(b, at + 4, t.timestamp % TWO24);
    assert BE24(0) == [0, 0, 0] by { ZeroField(); }
    Holds24(b, at + 8, 0);
    HoldsText(b, at + 11, t.data);
    if at + 11 <= |b| {
      NumberOfThree(b, at + 4);
      Extended(b[at + 7], Number(b, at + 4, 3), t.timestamp);
    }
  }

  lemma Extended(high: u8, low: nat, timestamp: u32)
    requires low < TWO24
    ensures high == timestamp / TWO24 && low == timestamp % TWO24 <==> high * TWO24 + low == timestamp
  {
    if high * TWO24 + low == timestamp {
      QuotientUnique(timestamp, high, TWO24, low);
    }
  }

  lemma ZeroField()
    ensures BE24(0) == [0, 0, 0]
  {
  }

  predicate Small(tags: seq<Tag>) {
    forall i :: 0 <= i < |tags| ==> |tags[i].data| < TWO24
  }

  /** The PreviousTagSize that belongs behind the tags: 0 when there is none. */
  function LastSize(tags: seq<Tag>): nat {
    if tags == [] then 0 else 11 + |tags[|tags| - 1].data|
  }

  /** The file body while tags are still being added: (PreviousTagSize, tag) pairs. */
  function Pairs(tags: seq<Tag>): Bytes
    requires Small(tags)
  {
    if tags == [] then []
    else
      var init := tags[..|tags| - 1];
      Pairs(init) + BE32(LastSize(init)) + TagBytes(tags[|tags| - 1])
  }

  /** The finished file body. */
  function Body(tags: seq<Tag>): Bytes
    requires Small(tags)
  {
    Pairs(tags) + BE32(LastSize(tags))
  }

  lemma PairsAppend(tags: seq<Tag>, t: Tag)
    requires Small(tags) && |t.data| < TWO24
    ensures Small(tags + [t])
    ensures Pairs(tags + [t]) == Body(tags) + TagBytes(t)
    ensures LastSize(tags + [t]) == 11 + |t.data|
  {
    assert (tags + [t])[..|tags|] == tags;
  }

  // ----- Reading forward -----

  /** What a forward reader finds before each tag, and the tag. */
  datatype Entry = Entry(prev: u32, tag: Tag)

  /** Reads a body by the DataSize fields; it succeeds when they end exactly on the last
      PreviousTagSize. */
  function Parse(s: Bytes): Option<(seq<Entry>, u32)>
    decreases |s|
  {
    if |s| < 4 then None
    else
      var prev, r := U32At(s), s[4..];
      if r == [] then Some(([], prev))
      else if |r| < 11 || |r| < 11 + U24At(r[1..]) || r[8..11] != [0, 0, 0] then None
      else
        var n := U24At(r[1..]);
        var tag := Tag(r[0], U24At(r[4..]) + r[7] * TWO24, r[11..11 + n]);
        match Parse(r[11 + n..])
        case None => None
        case Some((es, last)) => Some(([Entry(prev, tag)] + es, last))
  }

  /** The entries of tags when prev stands before the first. */
  function Entries(prev: u32, tags: seq<Tag>): (r: seq<Entry>)
    requires Small(tags)
    ensures |r| == |tags|
    decreases tags
  {
    if tags == [] then [] else [Entry(prev, tags[0])] + Entries(11 + |tags[0].data|, tags[1..])
  }

  /** The same body, built from the front. */
  function Chain(prev: u32, tags: seq<Tag>): Bytes
    requires Small(tags)
    decreases tags
  {
    if tags == [] then BE32(prev)
    else BE32(prev) + TagBytes(tags[0]) + Chain(11 + |tags[0].data|, tags[1..])
  }

  lemma {:induction false} ChainAppend(prev: u32, tags: seq<Tag>, t: Tag)
    requires Small(tags) && |t.data| < TWO24
    ensures Small(tags + [t])
    ensures Chain(prev, tags + [t]) == Chain(prev, tags) + TagBytes(t) + BE32(11 + |t.data|)
    decreases tags
  {
    hide TagBytes, BE32;
    if tags == [] {
      assert [t][1..] == [] && Chain(11 + |t.data|, [t][1..]) == BE32(11 + |t.data|);
    } else {
      assert (tags + [t])[1..] == tags[1..] + [t];
      ChainAppend(11 + |tags[0].data|, tags[1..], t);
    }
  }

  lemma {:induction false} BodyIsChain(tags: seq<Tag>)
    requires Small(tags)
    ensures Body(tags) == Chain(0, tags)
  {
    if tags != [] {
      var init, t := tags[..|tags| - 1], tags[|tags| - 1];
      assert tags == init + [t];
      BodyIsChain(init);
      ChainAppend(0, init, t);
      PairsAppend(init, t);
    }
  }

  lemma TagFields(t: Tag, s: Bytes)
    requires |t.data| < TWO24
    ensures var r := TagBytes(t) + s;
      && U24At(r[1..]) == |t.data|
      && r[8..11] == [0, 0, 0]
      && Tag(r[0], U24At(r[4..]) + r[7] * TWO24, r[11..11 + |t.data|]) == t
      && r[11 + |t.data|..] == s
  {
    var r := TagBytes(t) + s;
    var n, low := |t.data|, t.timestamp % TWO24;
    assert r[1..][..3] == BE24(n) && r[4..][..3] == BE24(low);
    Read24(n, []);
    Read24(low, []);
    assert U24At(r[1..]) == U24At(BE24(n) + []) && U24At(r[4..]) == U24At(BE24(low) + []);
  }

  lemma ParseStep(prev: u32, t: Tag, tail: Bytes)
    requires |t.data| < TWO24
    ensures Parse(BE32(prev) + (TagBytes(t) + tail)) == (match Parse(tail)
      case None => None
      case Some((es, last)) => Some(([Entry(prev, t)] + es, last)))
  {
    hide TagBytes, BE32, U24At, U32At;
    var r := TagBytes(t) + tail;
    Read32(prev, r);
    TagFields(t, tail);
    assert |r| >= 11 + |t.data|;
  }

  lemma {:induction false} ParseChain(prev: u32, tags: seq<Tag>)
    requires Small(tags)
    ensures Parse(Chain(prev, tags)) == Some((Entries(prev, tags), SizeBehind(prev, tags)))
    decreases tags
  {
    hide Parse, TagBytes, BE32;
    if tags == [] {
      ParseEnd(prev);
    } else {
      var t, tail := tags[0], Chain(11 + |tags[0].data|, tags[1..]);
      assert Chain(prev, tags) == BE32(prev) + (TagBytes(t) + tail);
      ParseStep(prev, t, tail);
      ParseChain(11 + |t.data|, tags[1..]);
      hide Small, Chain;
      assert SizeBehind(prev, tags) == SizeBehind(11 + |t.data|, tags[1..]);
    }
  }

  function SizeBehind(prev: u32, tags: seq<Tag>): nat {
    if tags == [] then prev else LastSize(tags)
  }

  lemma ParseEnd(prev: u32)
    ensures Parse(BE32(prev)) == Some(([], prev))
  {
    assert BE32(prev) + [] == BE32(prev);
    Read32(prev, []);
  }

  /** Every body parses: the reader finds exactly the tags, and before each of them 0 for the
      first and 11 + DataSize of the one before for the others. */
  lemma BodyParses(tags: seq<Tag>)
    requires Small(tags)
    ensures Parse(Body(tags)) == Some((Entries(0, tags), LastSize(tags)))
    ensures forall i :: 0 <= i < |tags| ==>
      && Entries(0, tags)[i].tag == tags[i]
      && Entries(0, tags)[i].prev == (if i == 0 then 0 else 11 + |tags[i - 1].data|)
  {
    BodyIsChain(tags);
    ParseChain(0, tags);
    EntriesAt(0, tags);
  }

  lemma {:induction false} EntriesAt(prev: u32, tags: seq<Tag>)
    requires Small(tags)
    ensures forall i :: 0 <= i < |tags| ==>
      && Entries(prev, tags)[i].tag == tags[i]
      && Entries(prev, tags)[i].prev == (if i == 0 then prev else 11 + |tags[i - 1].data|)
    decreases tags
  {
    if tags != [] {
      EntriesAt(11 + |tags[0].data|, tags[1..]);
    }
  }

  // ----- Reading backward -----

  /** Walks from end to the front by the PreviousTagSize fields; gives the offsets of the tags it
      passed, first tag first, and where it stopped: before a field that is 0. */
  function WalkBack(s: Bytes, end: nat): Option<(seq<nat>, nat)>
    requires end <= |s|
    decreases end
  {
    if end < 4 then None
    else
      var size := U32At(s[end - 4..end]);
      if size == 0 then Some(([], end - 4))
      else if size > end - 4 then None
      else match WalkBack(s, end - 4 - size)
        case None => None
        case Some((offsets, stop)) => Some((offsets + [end - 4 - size], stop))
  }

  /** Where the tags are in a file that begins with a header of h bytes. */
  function Offsets(h: nat, tags: seq<Tag>): (r: seq<nat>)
    requires Small(tags)
    ensures |r| == |tags|
  {
    if tags == [] then []
    else
      var init := tags[..|tags| - 1];
      Offsets(h, init) + [h + |Body(init)|]
  }

  lemma {:induction false} WalkBackFrom(header: Bytes, tags: seq<Tag>, rest: Bytes)
    requires Small(tags)
    ensures WalkBack(header + Body(tags) + rest, |header| + |Body(tags)|)
         == Some((Offsets(|header|, tags), |header|))
  {
    hide Body, Small, TagBytes, BE32, U32At;
    LastField(header, tags, rest);
    if tags != [] {
      var rest' := LastTag(header, tags, rest);
      WalkBackFrom(header, tags[..|tags| - 1], rest');
    }
  }

  /** The last pair of a body, and what stands in front of it. */
  lemma PairsOfLast(tags: seq<Tag>)
    requires Small(tags) && tags != []
    ensures var init, t := tags[..|tags| - 1], tags[|tags| - 1];
      && Small(init) && |t.data| < TWO24 && LastSize(init) < TWO32 && LastSize(tags) == |TagBytes(t)| < TWO32
      && Pairs(tags) == Pairs(init) + BE32(LastSize(init)) + TagBytes(t)
      && |Body(init)| == |Pairs(init)| + 4
  {
    hide TagBytes;
  }

  lemma LastTag(header: Bytes, tags: seq<Tag>, rest: Bytes) returns (rest': Bytes)
    requires Small(tags) && tags != []
    ensures var init := tags[..|tags| - 1];
      && Small(init)
      && header + Body(tags) + rest == header + Body(init) + rest'
      && |Body(tags)| == |Body(init)| + LastSize(tags) + 4
  {
    hide BE32, TagBytes, Pairs, LastSize, Small;
    PairsOfLast(tags);
    var init, t := tags[..|tags| - 1], tags[|tags| - 1];
    var last := BE32(LastSize(tags));
    rest' := TagBytes(t) + last + rest;
    Shifted(header, Body(init), TagBytes(t), last, rest);
  }

  lemma Shifted(header: Bytes, init: Bytes, bytes: Bytes, last: Bytes, rest: Bytes)
    ensures header + (init + bytes + last) + rest == header + init + (bytes + last + rest)
  {
  }

  lemma LastField(header: Bytes, tags: seq<Tag>, rest: Bytes)
    requires Small(tags)
    ensures var s, end := header + Body(tags) + rest, |header| + |Body(tags)|;
      && end >= 4 && U32At(s[end - 4..end]) == LastSize(tags)
      && (tags == [] ==> |Body(tags)| == 4)
  {
    assert tags == [] ==> Pairs(tags) == [];
    hide Pairs, BE32;
    var s, end := header + Body(tags) + rest, |header| + |Body(tags)|;
    var field := BE32(LastSize(tags));
    assert s == header + Pairs(tags) + field + rest;
    assert s[end - 4..end] == field + [];
    Read32(LastSize(tags), []);
  }

  /** Walking back from the end of a file visits every tag and lands on the end of the header. */
  lemma WalkBackLandsOnHeader(header: Bytes, tags: seq<Tag>)
    requires Small(tags)
    ensures var file := header + Body(tags);
      && WalkBack(file, |file|) == Some((Offsets(|header|, tags), |header|))
      && forall i :: 0 <= i < |tags| ==> HoldsAt(file, Offsets(|header|, tags)[i], TagBytes(tags[i]))
  {
    hide Pairs, WalkBack, TagBytes, HoldsAt, BE32, Offsets;
    var file := header + Body(tags);
    assert file + [] == file;
    WalkBackFrom(header, tags, []);
    OffsetsHoldTags(header, tags, BE32(LastSize(tags)));
    assert header + Pairs(tags) + BE32(LastSize(tags)) == file;
  }

  lemma OffsetsOfLast(h: nat, tags: seq<Tag>)
    requires Small(tags) && tags != []
    ensures var init := tags[..|tags| - 1];
      Small(init) && Offsets(h, tags) == Offsets(h, init) + [h + |Body(init)|]
  {
    hide Body;
  }

  /** The first tag begins behind four bytes, and each other one behind the tag before it and four
      bytes more. */
  lemma {:induction false} OffsetsFollow(h: nat, tags: seq<Tag>)
    requires Small(tags)
    ensures tags != [] ==> Offsets(h, tags)[0] == h + 4
    ensures forall i :: 0 < i < |tags| ==> Offsets(h, tags)[i] == Offsets(h, tags)[i - 1] + 15 + |tags[i - 1].data|
    ensures tags == [] ==> |Body(tags)| == 4
    ensures tags != [] ==> h + |Body(tags)| == Offsets(h, tags)[|tags| - 1] + 15 + |tags[|tags| - 1].data|
  {
    hide TagBytes, BE32;
    if tags != [] {
      var n := |tags| - 1;
      OffsetsFollow(h, tags[..n]);
      OffsetsOfLast(h, tags);
      PairsOfLast(tags);
    }
  }

  lemma HoldsInside(front: Bytes, bytes: Bytes, rest: Bytes)
    ensures HoldsAt(front + bytes + rest, |front|, bytes)
  {
    var s := front + bytes + rest;
    assert s[|front|..|front| + |bytes|] == bytes;
  }

  lemma {:induction false} OffsetsHoldTags(header: Bytes, tags: seq<Tag>, rest: Bytes)
    requires Small(tags)
    ensures forall i :: 0 <= i < |tags| ==>
      HoldsAt(header + Pairs(tags) + rest, Offsets(|header|, tags)[i], TagBytes(tags[i]))
  {
    hide Small, Pairs, Body, TagBytes, LastSize, BE32, Offsets, HoldsAt;
    if tags != [] {
      var init, t := tags[..|tags| - 1], tags[|tags| - 1];
      PairsOfLast(tags);
      OffsetsOfLast(|header|, tags);
      var size, bytes := BE32(LastSize(init)), TagBytes(t);
      OffsetsHoldTags(header, init, size + bytes + rest);
      Reassociate(header, Pairs(init), size, bytes, rest);
      HoldsInside(header + Pairs(init) + size, bytes, rest);
    }
  }

  lemma Reassociate(header: Bytes, pairs: Bytes, size: Bytes, bytes: Bytes, rest: Bytes)
    ensures header + (pairs + size + bytes) + rest == header + pairs + (size + bytes + rest)
    ensures header + (pairs + size + bytes) + rest == (header + pairs + size) + bytes + rest
  {
  }

  // ----- Rewriting the first tag in place -----

  /** Replacing the first tag by one with the same amount of data changes only its own bytes. */
  lemma FirstTagInPlace(first: Tag, first': Tag, rest: seq<Tag>)
    requires Small([first] + rest) && |first'.data| == |first.data| < TWO24
    ensures Small([first'] + rest)
    ensures var n := 15 + |first.data|;
      && n <= |Body([first] + rest)|
      && Body([first'] + rest) == BE32(0) + TagBytes(first') + Body([first] + rest)[n..]
  {
    assert ([first] + rest)[0] == first;
    assert [first'] + rest == [first'] + ([first] + rest)[1..];
    BodyIsChain([first] + rest);
    BodyIsChain([first'] + rest);
    assert ([first] + rest)[1..] == rest == ([first'] + rest)[1..];
  }
}
