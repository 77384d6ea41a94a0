/** The bundled gzip header and footer recognisers, against section 2.3 of RFC 1952. */
module GzipRecogniser {

  type Byte = b: int | 0 <= b < 256

  const ID1: Byte := 0x1f
  const ID2: Byte := 0x8b
  const DEFLATE: Byte := 8
  const FHCRC := 2
  const FEXTRA := 4
  const FNAME := 8
  const FCOMMENT := 16

  /** `flags_ & bit` for a bit that is a power of two. */
  predicate HasFlag(flags: Byte, bit: int)
    requires bit > 0
  {
    flags / bit % 2 == 1
  }

  /** `value << (offset * 8)` as a 32-bit int: the top byte's high bit is the sign. */
  function Shifted(value: Byte, offset: nat): int
    requires offset <= 3
  {
    if offset == 0 then value
    else if offset == 1 then value * 0x100
    else if offset == 2 then value * 0x1_0000
    else if value < 128 then value * 0x100_0000 else value * 0x100_0000 - 0x1_0000_0000
  }

  datatype State = AtId1 | AtId2 | AtCm | AtFlg | AtMtime | AtXfl | AtOs | AtXlen | AtExtra | AtName | AtComment | AtHcrc | Done

  /** The recogniser's fields. */
  datatype Header = Header(state: State, flags: Byte, offset: nat, mtime: int, os: Byte, xlen: int,
                           name: seq<Byte>, comment: seq<Byte>)

  const RESET := Header(AtId1, 0, 0, 0, 0, 0, [], [])

  datatype Outcome = Ok(header: Header) | BadHeader | BadMethod

  function AfterComment(h: Header): Header {
    h.(state := if HasFlag(h.flags, FHCRC) then AtHcrc else Done)
  }

  function AfterName(h: Header): Header {
    if HasFlag(h.flags, FCOMMENT) then h.(state := AtComment) else AfterComment(h)
  }

  function AfterExtra(h: Header): Header {
    if HasFlag(h.flags, FNAME) then h.(state := AtName) else AfterName(h)
  }

  predicate Reading(h: Header) {
    !h.state.Done? && h.offset <= 3
  }

  /** `gzip_header::process`. */
  function Processed(h: Header, b: Byte): Outcome
    requires Reading(h)
  {
    match h.state
    case AtId1 => if b != ID1 then BadHeader else Ok(h.(state := AtId2))
    case AtId2 => if b != ID2 then BadHeader else Ok(h.(state := AtCm))
    case AtCm => if b != DEFLATE then BadMethod else Ok(h.(state := AtFlg))
    case AtFlg => Ok(h.(flags := b, state := AtMtime))
    case AtMtime =>
      var h1 := h.(mtime := h.mtime + Shifted(b, h.offset));
      Ok(if h.offset == 3 then h1.(state := AtXfl, offset := 0) else h1.(offset := h.offset + 1))
    case AtXfl => Ok(h.(state := AtOs))
    case AtOs =>
      var h1 := h.(os := b);
      Ok(if HasFlag(h.flags, FEXTRA) then h1.(state := AtExtra) else AfterExtra(h1))
    case AtXlen =>
      var h1 := h.(xlen := h.xlen + Shifted(b, h.offset));
      Ok(if h.offset == 1 then h1.(state := AtExtra, offset := 0) else h1.(offset := h.offset + 1))
    case AtExtra =>
      var h1 := h.(xlen := h.xlen - 1);
      Ok(if h1.xlen == 0 then AfterExtra(h1) else h1)
    case AtName => Ok(if b != 0 then h.(name := h.name + [b]) else AfterName(h))
    case AtComment => Ok(if b != 0 then h.(comment := h.comment + [b]) else AfterComment(h))
    case AtHcrc => Ok(if h.offset == 1 then h.(state := Done, offset := 0) else h.(offset := h.offset + 1))
    case Done => assert false; BadHeader
  }

  /** How feeding bytes ends: all consumed, an error, or bytes left over after the end was reached. */
  datatype Fed = Consumed(header: Header) | Failed | Early(header: Header, left: seq<Byte>)

  function Feed(h: Header, bytes: seq<Byte>): Fed
    requires h.offset <= 3
    decreases |bytes|
  {
    if bytes == [] then Consumed(h)
    else if h.state.Done? then Early(h, bytes)
    else
      match Processed(h, bytes[0])
      case Ok(h') => if h'.offset <= 3 then Feed(h', bytes[1..]) else Failed
      case _ => Failed
  }

  // ---------------------------------------------------------------- RFC 1952 headers

  /** A header as section 2.3 lays it out. */
  datatype Member = Member(flags: Byte, mtime: nat, xfl: Byte, os: Byte, extra: seq<Byte>,
                           name: seq<Byte>, comment: seq<Byte>, crc: (Byte, Byte))

  /** The four bytes of a number, least significant first. */
  function LittleEndian(n: nat): seq<Byte>
    requires n < 0x1_0000_0000
  {
    [n % 256, n / 0x100 % 256, n / 0x1_0000 % 256, n / 0x100_0000]
  }

  ghost predicate WellFormed(m: Member) {
    && m.mtime < 0x1_0000_0000
    && 0 !in m.name && 0 !in m.comment
    && |m.extra| < 0x1_0000
  }

  function NamePart(m: Member): seq<Byte> { if HasFlag(m.flags, FNAME) then m.name + [0] else [] }
  function CommentPart(m: Member): seq<Byte> { if HasFlag(m.flags, FCOMMENT) then m.comment + [0] else [] }
  function CrcPart(m: Member): seq<Byte> { if HasFlag(m.flags, FHCRC) then [m.crc.0, m.crc.1] else [] }
  function ExtraPart(m: Member): seq<Byte>
    requires |m.extra| < 0x1_0000
  {
    if HasFlag(m.flags, FEXTRA) then [|m.extra| % 256, |m.extra| / 256] + m.extra else []
  }

  function Layout(m: Member): seq<Byte>
    requires m.mtime < 0x1_0000_0000 && |m.extra| < 0x1_0000
  {
    [ID1, ID2, DEFLATE, m.flags] + LittleEndian(m.mtime) + [m.xfl, m.os] + ExtraPart(m) + NamePart(m) + CommentPart(m) + CrcPart(m)
  }

  /** The time the recogniser ends up with: the top byte is taken as signed. */
  function SignedTime(mtime: nat): int {
    if mtime < 0x8000_0000 then mtime else mtime - 0x1_0000_0000
  }

  /** The recogniser's fields after a header without an extra field. */
  function Recognised(m: Member): Header {
    Header(Done, m.flags, 0, SignedTime(m.mtime), m.os, 0,
           if HasFlag(m.flags, FNAME) then m.name else [], if HasFlag(m.flags, FCOMMENT) then m.comment else [])
  }

  // ---------------------------------------------------------------- the machine on each part

  /** Feeding in two pieces. */
  lemma {:induction false} FeedConcat(h: Header, a: seq<Byte>, b: seq<Byte>)
    requires h.offset <= 3 && Feed(h, a).Consumed?
    ensures Feed(h, a).header.offset <= 3 && Feed(h, a + b) == Feed(Feed(h, a).header, b)
    decreases |a|
  {
    if a == [] {
      assert a + b == b;
    } else {
      assert (a + b)[1..] == a[1..] + b;
      FeedConcat(Processed(h, a[0]).header, a[1..], b);
    }
  }

  lemma FeedOne(h: Header, b: Byte)
    requires Reading(h) && Processed(h, b).Ok? && Processed(h, b).header.offset <= 3
    ensures Feed(h, [b]) == Consumed(Processed(h, b).header)
  {
  }

  lemma FeedTwo(h: Header, b: Byte, c: Byte)
    requires Reading(h) && Processed(h, b).Ok? && Reading(Processed(h, b).header)
    requires Processed(Processed(h, b).header, c).Ok? && Processed(Processed(h, b).header, c).header.offset <= 3
    ensures Feed(h, [b, c]) == Consumed(Processed(Processed(h, b).header, c).header)
  {
    assert [b, c][1..] == [c];
    FeedOne(Processed(h, b).header, c);
  }

  lemma FeedMagic(flags: Byte)
    ensures Feed(RESET, [ID1, ID2, DEFLATE, flags]) == Consumed(RESET.(state := AtMtime, flags := flags))
  {
    FeedTwo(RESET, ID1, ID2);
    var h := RESET.(state := AtCm);
    FeedTwo(h, DEFLATE, flags);
    FeedConcat(RESET, [ID1, ID2], [DEFLATE, flags]);
    assert [ID1, ID2] + [DEFLATE, flags] == [ID1, ID2, DEFLATE, flags];
  }

  /** The four bytes of a number, and the sign that the top one carries. */
  lemma ByteSum(n: nat)
    requires n < 0x1_0000_0000
    ensures n % 256 + n / 0x100 % 256 * 0x100 + n / 0x1_0000 % 256 * 0x1_0000 + n / 0x100_0000 * 0x100_0000 == n
    ensures n / 0x100_0000 < 128 <==> n < 0x8000_0000
  {
    var n1 := n / 0x100;
    var n2 := n1 / 0x100;
    assert n / 0x1_0000 == n2 && n / 0x100_0000 == n2 / 0x100;
  }

  lemma LittleEndianSum(n: nat)
    requires n < 0x1_0000_0000
    ensures var bs := LittleEndian(n);
            Shifted(bs[0], 0) + Shifted(bs[1], 1) + Shifted(bs[2], 2) + Shifted(bs[3], 3) == SignedTime(n)
  {
    ByteSum(n);
  }

  lemma FeedTime(h: Header, n: nat)
    requires h.state == AtMtime && h.offset == 0 && h.mtime == 0 && n < 0x1_0000_0000
    ensures Feed(h, LittleEndian(n)) == Consumed(h.(state := AtXfl, mtime := SignedTime(n)))
  {
    var bs := LittleEndian(n);
    FeedTwo(h, bs[0], bs[1]);
    var h2 := h.(mtime := Shifted(bs[0], 0) + Shifted(bs[1], 1), offset := 2);
    FeedTwo(h2, bs[2], bs[3]);
    FeedConcat(h, [bs[0], bs[1]], [bs[2], bs[3]]);
    assert [bs[0], bs[1]] + [bs[2], bs[3]] == bs;
    LittleEndianSum(n);
  }

  lemma {:induction false} FeedName(h: Header, name: seq<Byte>)
    requires h.state == AtName && h.offset <= 3 && 0 !in name
    ensures Feed(h, name + [0]) == Consumed(AfterName(h.(name := h.name + name)))
    decreases |name|
  {
    if name == [] {
      assert name + [0] == [0] && h.name + name == h.name;
      FeedOne(h, 0);
    } else {
      var h1 := h.(name := h.name + [name[0]]);
      assert name[0] != 0;
      assert (name + [0])[1..] == name[1..] + [0];
      FeedName(h1, name[1..]);
      assert h.name + [name[0]] + name[1..] == h.name + name;
    }
  }

  lemma {:induction false} FeedComment(h: Header, comment: seq<Byte>)
    requires h.state == AtComment && h.offset <= 3 && 0 !in comment
    ensures Feed(h, comment + [0]) == Consumed(AfterComment(h.(comment := h.comment + comment)))
    decreases |comment|
  {
    if comment == [] {
      assert comment + [0] == [0] && h.comment + comment == h.comment;
      FeedOne(h, 0);
    } else {
      var h1 := h.(comment := h.comment + [comment[0]]);
      assert comment[0] != 0;
      assert (comment + [0])[1..] == comment[1..] + [0];
      FeedComment(h1, comment[1..]);
      assert h.comment + [comment[0]] + comment[1..] == h.comment + comment;
    }
  }

  lemma FeedTail(m: Member, h: Header)
    requires WellFormed(m) && h.flags == m.flags && h.offset == 0 && h.name == [] && h.comment == []
    ensures Feed(AfterExtra(h), NamePart(m) + CommentPart(m) + CrcPart(m)) ==
            Consumed(h.(state := Done, name := if HasFlag(m.flags, FNAME) then m.name else [],
                        comment := if HasFlag(m.flags, FCOMMENT) then m.comment else []))
  {
    var h1 := h.(name := if HasFlag(m.flags, FNAME) then m.name else []);
    var h2 := h1.(comment := if HasFlag(m.flags, FCOMMENT) then m.comment else []);
    assert Feed(AfterComment(h2), CrcPart(m)) == Consumed(h2.(state := Done)) by {
      if HasFlag(m.flags, FHCRC) {
        FeedTwo(h2.(state := AtHcrc), m.crc.0, m.crc.1);
      }
    }
    assert Feed(AfterName(h1), CommentPart(m)) == Consumed(AfterComment(h2)) by {
      if HasFlag(m.flags, FCOMMENT) {
        FeedComment(h1.(state := AtComment), m.comment);
        assert [] + m.comment == m.comment;
      }
    }
    assert Feed(AfterExtra(h), NamePart(m)) == Consumed(AfterName(h1)) by {
      if HasFlag(m.flags, FNAME) {
        FeedName(h.(state := AtName), m.name);
        assert [] + m.name == m.name;
      }
    }
    FeedConcat(AfterExtra(h), NamePart(m), CommentPart(m));
    FeedConcat(AfterExtra(h), NamePart(m) + CommentPart(m), CrcPart(m));
  }

  /** The fixed ten bytes. */
  lemma FeedFixed(m: Member)
    requires m.mtime < 0x1_0000_0000
    ensures var h := RESET.(state := AtOs, flags := m.flags, mtime := SignedTime(m.mtime), os := m.os);
            Feed(RESET, [ID1, ID2, DEFLATE, m.flags] + LittleEndian(m.mtime) + [m.xfl, m.os]) ==
            Consumed(if HasFlag(m.flags, FEXTRA) then h.(state := AtExtra) else AfterExtra(h))
  {
    var magic, time := [ID1, ID2, DEFLATE, m.flags], LittleEndian(m.mtime);
    FeedMagic(m.flags);
    var h1 := RESET.(state := AtMtime, flags := m.flags);
    FeedTime(h1, m.mtime);
    FeedConcat(RESET, magic, time);
    var h2 := h1.(state := AtXfl, mtime := SignedTime(m.mtime));
    FeedTwo(h2, m.xfl, m.os);
    FeedConcat(RESET, magic + time, [m.xfl, m.os]);
  }

  // ---------------------------------------------------------------- results

  /** Without an extra field, the recogniser reaches its done state exactly on the last byte of every
      well-formed header, never earlier, and recovers flags, OS, name and comment; it recovers the
      time exactly when that is below 2^31. */
  lemma HeaderIsRecognised(m: Member)
    requires WellFormed(m) && !HasFlag(m.flags, FEXTRA)
    ensures Feed(RESET, Layout(m)) == Consumed(Recognised(m))
    ensures Recognised(m).mtime == m.mtime <==> m.mtime < 0x8000_0000
  {
    var fixed := [ID1, ID2, DEFLATE, m.flags] + LittleEndian(m.mtime) + [m.xfl, m.os];
    var tail := NamePart(m) + CommentPart(m) + CrcPart(m);
    FeedFixed(m);
    var h := RESET.(state := AtOs, flags := m.flags, mtime := SignedTime(m.mtime), os := m.os);
    FeedTail(m, h);
    FeedConcat(RESET, fixed, tail);
    assert Layout(m) == fixed + tail;
  }

  /** Once in the extra state with a length already used up, the recogniser never leaves it. */
  lemma {:induction false} ExtraNeverEnds(h: Header, bytes: seq<Byte>)
    requires h.state == AtExtra && h.offset == 0 && h.xlen <= 0
    ensures Feed(h, bytes) == Consumed(h.(xlen := h.xlen - |bytes|))
    decreases |bytes|
  {
    if bytes != [] {
      ExtraNeverEnds(h.(xlen := h.xlen - 1), bytes[1..]);
    }
  }

  /** A header is recognised as complete exactly when it has no extra field: the machine goes to the
      extra bytes without reading their length, and then waits for ever. */
  lemma RecognisedIffNoExtra(m: Member)
    requires WellFormed(m)
    ensures Feed(RESET, Layout(m)).Consumed?
    ensures Feed(RESET, Layout(m)).header.state.Done? <==> !HasFlag(m.flags, FEXTRA)
  {
    if HasFlag(m.flags, FEXTRA) {
      var fixed := [ID1, ID2, DEFLATE, m.flags] + LittleEndian(m.mtime) + [m.xfl, m.os];
      var rest := ExtraPart(m) + NamePart(m) + CommentPart(m) + CrcPart(m);
      FeedFixed(m);
      var h := RESET.(state := AtExtra, flags := m.flags, mtime := SignedTime(m.mtime), os := m.os);
      ExtraNeverEnds(h, rest);
      FeedConcat(RESET, fixed, rest);
      assert Layout(m) == fixed + rest;
    } else {
      HeaderIsRecognised(m);
    }
  }

  // ---------------------------------------------------------------- nothing else is recognised

  /** Feeding `bytes` ends in the done state, with none left. */
  ghost predicate Reaches(h: Header, bytes: seq<Byte>) {
    h.offset <= 3 && Feed(h, bytes).Consumed? && Feed(h, bytes).header.state.Done?
  }

  /** The first byte of such a feed is accepted. */
  lemma Peel(h: Header, bytes: seq<Byte>) returns (h': Header)
    requires Reading(h) && Reaches(h, bytes)
    ensures bytes != [] && Processed(h, bytes[0]) == Ok(h') && Reaches(h', bytes[1..])
  {
    h' := Processed(h, bytes[0]).header;
  }

  lemma {:induction false} NameEnds(h: Header, bytes: seq<Byte>) returns (name: seq<Byte>, rest: seq<Byte>)
    requires h.state == AtName && Reaches(h, bytes)
    ensures bytes == name + [0] + rest && 0 !in name && Reaches(AfterName(h.(name := h.name + name)), rest)
    decreases |bytes|
  {
    var h' := Peel(h, bytes);
    if bytes[0] == 0 {
      name, rest := [], bytes[1..];
      assert h.(name := h.name + name) == h;
    } else {
      var more;
      more, rest := NameEnds(h', bytes[1..]);
      name := [bytes[0]] + more;
      assert h'.name + more == h.name + name;
    }
  }

  lemma {:induction false} CommentEnds(h: Header, bytes: seq<Byte>) returns (comment: seq<Byte>, rest: seq<Byte>)
    requires h.state == AtComment && Reaches(h, bytes)
    ensures bytes == comment + [0] + rest && 0 !in comment && Reaches(AfterComment(h.(comment := h.comment + comment)), rest)
    decreases |bytes|
  {
    var h' := Peel(h, bytes);
    if bytes[0] == 0 {
      comment, rest := [], bytes[1..];
      assert h.(comment := h.comment + comment) == h;
    } else {
      var more;
      more, rest := CommentEnds(h', bytes[1..]);
      comment := [bytes[0]] + more;
      assert h'.comment + more == h.comment + comment;
    }
  }

  lemma NameRead(h: Header, bytes: seq<Byte>) returns (name: seq<Byte>, rest: seq<Byte>, h': Header)
    requires Reaches(AfterExtra(h), bytes)
    ensures bytes == (if HasFlag(h.flags, FNAME) then name + [0] else []) + rest && 0 !in name
    ensures h'.flags == h.flags && h'.offset == h.offset && Reaches(AfterName(h'), rest)
  {
    name, rest, h' := [], bytes, h;
    if HasFlag(h.flags, FNAME) {
      name, rest := NameEnds(h.(state := AtName), bytes);
      h' := h.(state := AtName, name := h.name + name);
    }
  }

  lemma CommentRead(h: Header, bytes: seq<Byte>) returns (comment: seq<Byte>, rest: seq<Byte>, h': Header)
    requires Reaches(AfterName(h), bytes)
    ensures bytes == (if HasFlag(h.flags, FCOMMENT) then comment + [0] else []) + rest && 0 !in comment
    ensures h'.flags == h.flags && h'.offset == h.offset && Reaches(AfterComment(h'), rest)
  {
    comment, rest, h' := [], bytes, h;
    if HasFlag(h.flags, FCOMMENT) {
      comment, rest := CommentEnds(h.(state := AtComment), bytes);
      h' := h.(state := AtComment, comment := h.comment + comment);
    }
  }

  lemma CrcRead(h: Header, bytes: seq<Byte>) returns (crc: (Byte, Byte))
    requires h.offset == 0 && Reaches(AfterComment(h), bytes)
    ensures bytes == if HasFlag(h.flags, FHCRC) then [crc.0, crc.1] else []
  {
    crc := (0, 0);
    if HasFlag(h.flags, FHCRC) {
      var h1 := Peel(AfterComment(h), bytes);
      var h2 := Peel(h1, bytes[1..]);
      crc := (bytes[0], bytes[1]);
      assert bytes == [bytes[0], bytes[1]] + bytes[1..][1..];
    }
  }

  /** Four bytes are some number's. */
  lemma BytesAreNumber(a: Byte, b: Byte, c: Byte, d: Byte) returns (n: nat)
    ensures n < 0x1_0000_0000 && LittleEndian(n) == [a, b, c, d]
  {
    var n1 := c + 0x100 * d;
    var n2 := b + 0x100 * n1;
    n := a + 0x100 * n2;
    assert n / 0x100 == n2 && n2 / 0x100 == n1 && n1 / 0x100 == d;
    assert n / 0x1_0000 == n1 && n / 0x100_0000 == d;
  }

  lemma MagicRead(bytes: seq<Byte>)
    requires Reaches(RESET, bytes)
    ensures |bytes| >= 4 && bytes[..3] == [ID1, ID2, DEFLATE]
    ensures Reaches(RESET.(state := AtMtime, flags := bytes[3]), bytes[4..])
  {
    var h1 := Peel(RESET, bytes);
    var h2 := Peel(h1, bytes[1..]);
    assert bytes[1..][1..] == bytes[2..];
    var h3 := Peel(h2, bytes[2..]);
    assert bytes[2..][1..] == bytes[3..];
    var h4 := Peel(h3, bytes[3..]);
    assert bytes[3..][1..] == bytes[4..];
  }

  lemma TimeRead(h: Header, bytes: seq<Byte>) returns (mtime: int)
    requires h.state == AtMtime && h.offset == 0 && Reaches(h, bytes)
    ensures |bytes| >= 4 && Reaches(h.(state := AtXfl, mtime := mtime), bytes[4..])
  {
    var h1 := Peel(h, bytes);
    var h2 := Peel(h1, bytes[1..]);
    assert bytes[1..][1..] == bytes[2..];
    var h3 := Peel(h2, bytes[2..]);
    assert bytes[2..][1..] == bytes[3..];
    var h4 := Peel(h3, bytes[3..]);
    assert bytes[3..][1..] == bytes[4..];
    mtime := h4.mtime;
  }

  lemma OsRead(h: Header, bytes: seq<Byte>)
    requires h.state == AtXfl && h.offset == 0 && h.xlen == 0 && Reaches(h, bytes)
    ensures |bytes| >= 2 && !HasFlag(h.flags, FEXTRA) && Reaches(AfterExtra(h.(state := AtOs, os := bytes[1])), bytes[2..])
  {
    var h1 := Peel(h, bytes);
    var h2 := Peel(h1, bytes[1..]);
    assert bytes[1..][1..] == bytes[2..];
    if HasFlag(h.flags, FEXTRA) {
      ExtraNeverEnds(h2, bytes[2..]);
    }
  }

  lemma FixedRead(bytes: seq<Byte>) returns (h: Header)
    requires Reaches(RESET, bytes)
    ensures |bytes| >= 10 && bytes[..3] == [ID1, ID2, DEFLATE] && h.flags == bytes[3] && h.offset == 0
    ensures !HasFlag(h.flags, FEXTRA) && Reaches(AfterExtra(h), bytes[10..])
  {
    MagicRead(bytes);
    var h1 := RESET.(state := AtMtime, flags := bytes[3]);
    var mtime := TimeRead(h1, bytes[4..]);
    var h2 := h1.(state := AtXfl, mtime := mtime);
    assert bytes[4..][4..] == bytes[8..];
    OsRead(h2, bytes[8..]);
    assert bytes[8..][2..] == bytes[10..];
    h := h2.(state := AtOs, os := bytes[9]);
  }

  lemma TailRead(h: Header, bytes: seq<Byte>) returns (name: seq<Byte>, comment: seq<Byte>, crc: (Byte, Byte))
    requires h.offset == 0 && Reaches(AfterExtra(h), bytes)
    ensures 0 !in name && 0 !in comment
    ensures bytes == (if HasFlag(h.flags, FNAME) then name + [0] else []) +
                     ((if HasFlag(h.flags, FCOMMENT) then comment + [0] else []) +
                      (if HasFlag(h.flags, FHCRC) then [crc.0, crc.1] else []))
  {
    var rest1, rest2, h1, h2;
    name, rest1, h1 := NameRead(h, bytes);
    comment, rest2, h2 := CommentRead(h1, rest1);
    crc := CrcRead(h2, rest2);
  }

  lemma FixedPart(bytes: seq<Byte>, time: nat)
    requires |bytes| >= 10 && bytes[..3] == [ID1, ID2, DEFLATE] && time < 0x1_0000_0000
    requires LittleEndian(time) == [bytes[4], bytes[5], bytes[6], bytes[7]]
    ensures bytes[..10] == [ID1, ID2, DEFLATE, bytes[3]] + LittleEndian(time) + [bytes[8], bytes[9]]
  {
    assert bytes[..3] == [bytes[0], bytes[1], bytes[2]];
  }

  lemma LayoutParts(m: Member, fixed: seq<Byte>)
    requires WellFormed(m) && !HasFlag(m.flags, FEXTRA)
    requires fixed == [ID1, ID2, DEFLATE, m.flags] + LittleEndian(m.mtime) + [m.xfl, m.os]
    ensures Layout(m) == fixed + (NamePart(m) + (CommentPart(m) + CrcPart(m)))
  {
    assert fixed + [] == fixed;
  }

  /** The done state is reached on nothing but the layout of a well-formed header without an extra
      field: every other magic or method byte, and every other ending, is refused or waited out. */
  lemma DoneOnlyOnLayouts(bytes: seq<Byte>) returns (m: Member)
    requires Feed(RESET, bytes).Consumed? && Feed(RESET, bytes).header.state.Done?
    ensures WellFormed(m) && !HasFlag(m.flags, FEXTRA) && bytes == Layout(m)
  {
    var h := FixedRead(bytes);
    var name, comment, crc := TailRead(h, bytes[10..]);
    var time := BytesAreNumber(bytes[4], bytes[5], bytes[6], bytes[7]);
    FixedPart(bytes, time);
    m := Member(bytes[3], time, bytes[8], bytes[9], [], name, comment, crc);
    LayoutParts(m, bytes[..10]);
    assert bytes == bytes[..10] + bytes[10..];
  }

  /** The done state is reached on the last byte and on no earlier one. */
  lemma NotDoneEarlier(m: Member, n: nat)
    requires WellFormed(m) && n < |Layout(m)|
    ensures Feed(RESET, Layout(m)[..n]).Consumed? && !Feed(RESET, Layout(m)[..n]).header.state.Done?
  {
    RecognisedIffNoExtra(m);
    PrefixIsConsumed(RESET, Layout(m), n);
  }

  lemma {:induction false} PrefixIsConsumed(h: Header, bytes: seq<Byte>, n: nat)
    requires h.offset <= 3 && Feed(h, bytes).Consumed? && n < |bytes|
    ensures Feed(h, bytes[..n]).Consumed? && !Feed(h, bytes[..n]).header.state.Done?
    decreases n
  {
    if n > 0 {
      assert bytes[..n][1..] == bytes[1..][..n - 1];
      PrefixIsConsumed(Processed(h, bytes[0]).header, bytes[1..], n - 1);
    }
  }

  // ---------------------------------------------------------------- the footer

  datatype FooterState = AtCrc | AtIsize | FooterDone

  /** The footer's fields; both sums are 32-bit unsigned. */
  datatype Footer = Footer(state: FooterState, offset: nat, crc: nat, isize: nat)

  const FOOTER_RESET := Footer(AtCrc, 0, 0, 0)

  function AddWrapped(sum: nat, value: Byte, offset: nat): nat
    requires offset <= 3
  {
    (sum + Shifted(value, offset)) % 0x1_0000_0000
  }

  function FooterProcessed(f: Footer, b: Byte): Footer
    requires !f.state.FooterDone? && f.offset <= 3
  {
    if f.state.AtCrc? then
      var f1 := f.(crc := AddWrapped(f.crc, b, f.offset));
      if f.offset == 3 then f1.(state := AtIsize, offset := 0) else f1.(offset := f.offset + 1)
    else
      var f1 := f.(isize := AddWrapped(f.isize, b, f.offset));
      if f.offset == 3 then f1.(state := FooterDone, offset := 0) else f1.(offset := f.offset + 1)
  }

  /** Feeding the footer machine; bytes beyond its end are not consumed. */
  function FooterFed(f: Footer, bytes: seq<Byte>): Footer
    requires f.offset <= 3
    decreases |bytes|
  {
    if bytes == [] || f.state.FooterDone? then f
    else FooterFed(FooterProcessed(f, bytes[0]), bytes[1..])
  }

  /** Three low bytes add up without wrapping. */
  lemma LowBytesSum(a: Byte, b: Byte, c: Byte)
    ensures AddWrapped(AddWrapped(AddWrapped(0, a, 0), b, 1), c, 2) == Shifted(a, 0) + Shifted(b, 1) + Shifted(c, 2)
  {
    var s1 := AddWrapped(0, a, 0);
    assert s1 == a;
    var s2 := AddWrapped(s1, b, 1);
    assert s2 == a + b * 0x100;
  }

  lemma LastByteSum(low: nat, d: Byte, n: nat)
    requires n < 0x1_0000_0000 && low + Shifted(d, 3) == SignedTime(n)
    ensures AddWrapped(low, d, 3) == n
  {
  }

  /** The four additions of a little-endian number, wrapped, give the number: no restriction here. */
  lemma WrappedSum(n: nat)
    requires n < 0x1_0000_0000
    ensures var bs := LittleEndian(n);
            AddWrapped(AddWrapped(AddWrapped(AddWrapped(0, bs[0], 0), bs[1], 1), bs[2], 2), bs[3], 3) == n
  {
    var bs := LittleEndian(n);
    LittleEndianSum(n);
    LowBytesSum(bs[0], bs[1], bs[2]);
    LastByteSum(AddWrapped(AddWrapped(AddWrapped(0, bs[0], 0), bs[1], 1), bs[2], 2), bs[3], n);
  }

  lemma FooterReadsNumber(f: Footer, n: nat, rest: seq<Byte>)
    requires !f.state.FooterDone? && f.offset == 0 && n < 0x1_0000_0000
    requires if f.state.AtCrc? then f.crc == 0 else f.isize == 0
    ensures var f' := if f.state.AtCrc? then f.(state := AtIsize, crc := n) else f.(state := FooterDone, isize := n);
            FooterFed(f, LittleEndian(n) + rest) == FooterFed(f', rest)
  {
    var bs := LittleEndian(n);
    WrappedSum(n);
    var all := bs + rest;
    var f1 := FooterProcessed(f, bs[0]);
    var f2 := FooterProcessed(f1, bs[1]);
    var f3 := FooterProcessed(f2, bs[2]);
    assert all[0] == bs[0] && all[1..][0] == bs[1] && all[1..][1..][0] == bs[2] && all[1..][1..][1..][0] == bs[3];
    assert all[1..][1..][1..][1..] == rest;
    assert FooterFed(f, all) == FooterFed(f1, all[1..]);
    assert FooterFed(f1, all[1..]) == FooterFed(f2, all[1..][1..]);
    assert FooterFed(f2, all[1..][1..]) == FooterFed(f3, all[1..][1..][1..]);
  }

  /** The footer recovers CRC32 and ISIZE from their little-endian bytes, for all 32-bit values. */
  lemma FooterIsRecognised(crc: nat, isize: nat)
    requires crc < 0x1_0000_0000 && isize < 0x1_0000_0000
    ensures FooterFed(FOOTER_RESET, LittleEndian(crc) + LittleEndian(isize)) == Footer(FooterDone, 0, crc, isize)
  {
    FooterReadsNumber(FOOTER_RESET, crc, LittleEndian(isize));
    var f := Footer(AtIsize, 0, crc, 0);
    FooterReadsNumber(f, isize, []);
    assert LittleEndian(isize) + [] == LittleEndian(isize);
  }

  // ---------------------------------------------------------------- the objects

  class GzipHeader {
    var state: State
    var flags: Byte
    var offset: nat
    var mtime: int
    var os: Byte
    var xlen: int
    var name: seq<Byte>
    var comment: seq<Byte>

    function Fields(): Header
      reads this
    {
      Header(state, flags, offset, mtime, os, xlen, name, comment)
    }

    constructor ()
      ensures Fields() == RESET
    {
      state, flags, offset, mtime, os, xlen, name, comment := AtId1, 0, 0, 0, 0, 0, [], [];
    }

    method Reset()
      modifies this
      ensures Fields() == RESET
    {
      name, comment := [], [];
      os, flags, offset, xlen := 0, 0, 0, 0;
      mtime := 0;
      state := AtId1;
    }

    method EnterAfterName()
      modifies this`state
      ensures Fields() == AfterName(old(Fields()))
    {
      if HasFlag(flags, FCOMMENT) {
        state := AtComment;
      } else if HasFlag(flags, FHCRC) {
        state := AtHcrc;
      } else {
        state := Done;
      }
    }

    method EnterAfterExtra()
      modifies this`state
      ensures Fields() == AfterExtra(old(Fields()))
    {
      if HasFlag(flags, FNAME) {
        state := AtName;
      } else {
        EnterAfterName();
      }
    }

    /** `process`: a bad byte throws and leaves the fields as they were. */
    method Process(b: Byte) returns (ok: bool)
      requires Reading(Fields())
      modifies this
      ensures ok <==> Processed(old(Fields()), b).Ok?
      ensures Fields() == if ok then Processed(old(Fields()), b).header else old(Fields())
    {
      ok := true;
      match state {
        case AtId1 =>
          if b != ID1 { return false; }
          state := AtId2;
        case AtId2 =>
          if b != ID2 { return false; }
          state := AtCm;
        case AtCm =>
          if b != DEFLATE { return false; }
          state := AtFlg;
        case AtFlg =>
          flags := b;
          state := AtMtime;
        case AtMtime =>
          mtime := mtime + Shifted(b, offset);
          if offset == 3 {
            state, offset := AtXfl, 0;
          } else {
            offset := offset + 1;
          }
        case AtXfl => state := AtOs;
        case AtOs =>
          os := b;
          if HasFlag(flags, FEXTRA) {
            state := AtExtra;
          } else {
            EnterAfterExtra();
          }
        case AtXlen =>
          xlen := xlen + Shifted(b, offset);
          if offset == 1 {
            state, offset := AtExtra, 0;
          } else {
            offset := offset + 1;
          }
        case AtExtra =>
          xlen := xlen - 1;
          if xlen == 0 {
            EnterAfterExtra();
          }
        case AtName =>
          if b != 0 {
            name := name + [b];
          } else {
            EnterAfterName();
          }
        case AtComment =>
          if b != 0 {
            comment := comment + [b];
          } else if HasFlag(flags, FHCRC) {
            state := AtHcrc;
          } else {
            state := Done;
          }
        case AtHcrc =>
          if offset == 1 {
            state, offset := Done, 0;
          } else {
            offset := offset + 1;
          }
      }
    }

    /** Bytes one after the other, until the header is done or a byte is bad. */
    method ProcessAll(bytes: seq<Byte>) returns (used: nat, ok: bool)
      requires OffsetFits(Fields())
      modifies this
      ensures used <= |bytes|
      ensures Feed(old(Fields()), bytes) == if !ok then Failed
                                            else if used == |bytes| then Consumed(Fields())
                                            else Early(Fields(), bytes[used..])
    {
      used, ok := 0, true;
      while used < |bytes| && !state.Done?
        invariant used <= |bytes| && OffsetFits(Fields())
        invariant Feed(old(Fields()), bytes) == Feed(Fields(), bytes[used..])
      {
        OffsetStaysFit(Fields(), bytes[used]);
        assert bytes[used..][1..] == bytes[used + 1..];
        ok := Process(bytes[used]);
        if !ok {
          return;
        }
        used := used + 1;
      }
    }
  }

  /** The offset counts the bytes of the field being read. */
  predicate OffsetFits(h: Header) {
    h.offset <= if h.state.AtMtime? then 3 else if h.state.AtXlen? || h.state.AtHcrc? then 1 else 0
  }

  lemma OffsetStaysFit(h: Header, b: Byte)
    requires Reading(h) && OffsetFits(h)
    ensures Processed(h, b).Ok? ==> OffsetFits(Processed(h, b).header)
  {
  }

  /** A new recogniser reads a whole header without an extra field, and nothing of what follows it. */
  method RecogniseHeader(m: Member, rest: seq<Byte>) returns (h: GzipHeader, used: nat)
    requires WellFormed(m) && !HasFlag(m.flags, FEXTRA)
    ensures h.Fields() == Recognised(m) && used == |Layout(m)|
  {
    h := new GzipHeader();
    HeaderIsRecognised(m);
    HeaderIsLeftAlone(m, rest);
    var ok;
    used, ok := h.ProcessAll(Layout(m) + rest);
  }

  lemma HeaderIsLeftAlone(m: Member, rest: seq<Byte>)
    requires WellFormed(m) && !HasFlag(m.flags, FEXTRA)
    ensures Feed(RESET, Layout(m) + rest) == if rest == [] then Consumed(Recognised(m)) else Early(Recognised(m), rest)
  {
    HeaderIsRecognised(m);
    FeedConcat(RESET, Layout(m), rest);
  }

  class GzipFooter {
    var state: FooterState
    var offset: nat
    var crc: nat
    var isize: nat

    function Fields(): Footer
      reads this
    {
      Footer(state, offset, crc, isize)
    }

    constructor ()
      ensures Fields() == FOOTER_RESET
    {
      state, offset, crc, isize := AtCrc, 0, 0, 0;
    }

    method Reset()
      modifies this
      ensures Fields() == FOOTER_RESET
    {
      crc, isize, offset := 0, 0, 0;
      state := AtCrc;
    }

    method Process(b: Byte)
      requires !state.FooterDone? && offset <= 3
      modifies this
      ensures Fields() == FooterProcessed(old(Fields()), b)
    {
      if state.AtCrc? {
        crc := AddWrapped(crc, b, offset);
        if offset == 3 {
          state, offset := AtIsize, 0;
        } else {
          offset := offset + 1;
        }
      } else {
        isize := AddWrapped(isize, b, offset);
        if offset == 3 {
          state, offset := FooterDone, 0;
        } else {
          offset := offset + 1;
        }
      }
    }

    /** Bytes one after the other, until the footer is done. */
    method ProcessAll(bytes: seq<Byte>) returns (used: nat)
      requires offset <= 3
      modifies this
      ensures used <= |bytes| && (used < |bytes| ==> state.FooterDone?)
      ensures Fields() == FooterFed(old(Fields()), bytes)
    {
      used := 0;
      while used < |bytes| && !state.FooterDone?
        invariant used <= |bytes| && offset <= 3
        invariant FooterFed(old(Fields()), bytes) == FooterFed(Fields(), bytes[used..])
      {
        assert bytes[used..][1..] == bytes[used + 1..];
        Process(bytes[used]);
        used := used + 1;
      }
    }
  }
}
