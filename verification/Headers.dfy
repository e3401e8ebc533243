/**
 What the batch reader takes for a header block: UTF-8, white space and the line that names a chunk
 (client/src/remote.rs), told in terms of characters and lines.
 */
module Headers {
  import opened Octets
  import opened Multipart
  import opened Framing

  /** A Unicode scalar value. */
  predicate Scalar(c: nat) {
    c < 0xD800 || 0xE000 <= c < 0x11_0000
  }

  /** Its UTF-8 form (section 3 of RFC 3629). */
  function Encode(c: nat): Bytes
    requires Scalar(c)
  {
    if c < 0x80 then [c as byte]
    else if c < 0x800 then [(0xC0 + c / 64) as byte, (0x80 + c % 64) as byte]
    else if c < 0x1_0000 then [(0xE0 + c / 4096) as byte, (0x80 + c / 64 % 64) as byte, (0x80 + c % 64) as byte]
    else [(0xF0 + c / 262_144) as byte, (0x80 + c / 4096 % 64) as byte, (0x80 + c / 64 % 64) as byte, (0x80 + c % 64) as byte]
  }

  ghost predicate AllScalars(cs: seq<nat>) {
    forall i | 0 <= i < |cs| :: Scalar(cs[i])
  }

  function EncodeAll(cs: seq<nat>): Bytes
    requires forall i | 0 <= i < |cs| :: Scalar(cs[i])
  {
    if cs == [] then [] else Encode(cs[0]) + EncodeAll(cs[1..])
  }

  /** The character the bytes start with. */
  function Decode(b: Bytes): nat
    requires CharLength(b) > 0
  {
    match CharLength(b)
    case 1 => b[0] as nat
    case 2 => (b[0] as nat - 0xC0) * 64 + (b[1] as nat - 0x80)
    case 3 => (b[0] as nat - 0xE0) * 4096 + (b[1] as nat - 0x80) * 64 + (b[2] as nat - 0x80)
    case _ => (b[0] as nat - 0xF0) * 262_144 + (b[1] as nat - 0x80) * 4096 + (b[2] as nat - 0x80) * 64 + (b[3] as nat - 0x80)
  }

  lemma {:induction false} LastDigit(a: nat, r: nat)
    requires r < 64
    ensures (a * 64 + r) / 64 == a && (a * 64 + r) % 64 == r
  {
  }

  lemma {:induction false} DecodeReads(b: Bytes)
    requires CharLength(b) > 0
    ensures Scalar(Decode(b)) && Encode(Decode(b)) == b[..CharLength(b)]
  {
    match CharLength(b)
    case 1 =>
    case 2 => LastDigit(b[0] as nat - 0xC0, b[1] as nat - 0x80);
    case 3 => DecodeThree(b);
    case _ => DecodeFour(b);
  }

  lemma {:induction false} DecodeThree(b: Bytes)
    requires CharLength(b) == 3
    ensures Scalar(Decode(b)) && Encode(Decode(b)) == b[..3]
  {
    var x, y, z := b[0] as nat - 0xE0, b[1] as nat - 0x80, b[2] as nat - 0x80;
    var c := Decode(b);
    assert c == (x * 64 + y) * 64 + z;
    LastDigit(x * 64 + y, z);
    LastDigit(x, y);
    assert c / 4096 == c / 64 / 64;
    assert 0x800 <= c < 0x1_0000;
  }

  lemma {:induction false} DecodeFour(b: Bytes)
    requires CharLength(b) == 4
    ensures Scalar(Decode(b)) && Encode(Decode(b)) == b[..4]
  {
    var w, x, y, z := b[0] as nat - 0xF0, b[1] as nat - 0x80, b[2] as nat - 0x80, b[3] as nat - 0x80;
    var c := Decode(b);
    assert c == ((w * 64 + x) * 64 + y) * 64 + z;
    LastDigit((w * 64 + x) * 64 + y, z);
    LastDigit(w * 64 + x, y);
    LastDigit(w, x);
    assert c / 4096 == c / 64 / 64 && c / 262_144 == c / 64 / 64 / 64;
    assert 0x1_0000 <= c < 0x11_0000;
  }

  lemma {:induction false} EncodeLength(c: nat, rest: Bytes)
    requires Scalar(c)
    ensures CharLength(Encode(c) + rest) == |Encode(c)| > 0
  {
    var b := Encode(c) + rest;
    assert forall i | 0 <= i < |Encode(c)| :: b[i] == Encode(c)[i];
  }

  /** Valid is exactly what encodes a sequence of scalar values. */
  lemma {:induction false} ValidUtf8Exact(b: Bytes)
    ensures ValidUtf8(b) <==> exists cs | AllScalars(cs) :: EncodeAll(cs) == b
  {
    if ValidUtf8(b) {
      var cs := Scalars(b);
    } else if cs :| AllScalars(cs) && EncodeAll(cs) == b {
      EncodedIsValid(cs);
    }
  }

  lemma {:induction false} Scalars(b: Bytes) returns (cs: seq<nat>)
    requires ValidUtf8(b)
    ensures AllScalars(cs) && EncodeAll(cs) == b
    decreases |b|
  {
    if b == [] {
      cs := [];
    } else {
      var rest := Scalars(b[CharLength(b)..]);
      DecodeReads(b);
      cs := [Decode(b)] + rest;
    }
  }

  lemma {:induction false} EncodedIsValid(cs: seq<nat>)
    requires AllScalars(cs)
    ensures ValidUtf8(EncodeAll(cs))
  {
    if cs != [] {
      var rest := EncodeAll(cs[1..]);
      EncodedIsValid(cs[1..]);
      EncodeLength(cs[0], rest);
      assert (Encode(cs[0]) + rest)[|Encode(cs[0])|..] == rest;
    }
  }

  /** The characters with the property `White_Space`, as listed in `PropList.txt` of the Unicode Character Database. */
  predicate WhiteSpace(c: nat) {
    9 <= c <= 13 || c == 32 || c == 0x85 || c == 0xA0 || c == 0x1680 || 0x2000 <= c <= 0x200A ||
    c == 0x2028 || c == 0x2029 || c == 0x202F || c == 0x205F || c == 0x3000
  }

  lemma {:induction false} LeadSpaceExact(c: nat, rest: Bytes)
    requires Scalar(c)
    ensures LeadSpace(Encode(c) + rest) == if WhiteSpace(c) then |Encode(c)| else 0
  {
    var b := Encode(c) + rest;
    assert forall i | 0 <= i < |Encode(c)| :: b[i] == Encode(c)[i];
  }

  /** White space by the bytes it ends with. */
  predicate SpaceByte(z: byte) {
    9 <= z <= 13 || z == 32
  }

  predicate SpacePair(y: byte, z: byte) {
    y == 0xC2 && (z == 0x85 || z == 0xA0)
  }

  predicate SpaceTriple(x: byte, y: byte, z: byte) {
    (x == 0xE1 && y == 0x9A && z == 0x80) ||
    (x == 0xE2 && y == 0x80 && (0x80 <= z <= 0x8A || z == 0xA8 || z == 0xA9 || z == 0xAF)) ||
    (x == 0xE2 && y == 0x81 && z == 0x9F) || (x == 0xE3 && y == 0x80 && z == 0x80)
  }

  lemma {:induction false} ShortSpaces(x: byte, y: byte, z: byte)
    ensures LeadSpace([z]) == 1 <==> SpaceByte(z)
    ensures LeadSpace([y, z]) == 2 <==> SpacePair(y, z)
    ensures LeadSpace([x, y, z]) == 3 <==> SpaceTriple(x, y, z)
  {
  }

  lemma {:induction false} LastByte(t: Text)
    ensures |t| >= 1 ==> (LeadSpace(t[|t| - 1..]) == 1 <==> SpaceByte(t[|t| - 1]))
  {
    hide LeadSpace, SpaceByte;
    if |t| >= 1 {
      ShortSpaces(0, 0, t[|t| - 1]);
      assert t[|t| - 1..] == [t[|t| - 1]];
    }
  }

  lemma {:induction false} LastPair(t: Text)
    ensures |t| >= 2 ==> (LeadSpace(t[|t| - 2..]) == 2 <==> SpacePair(t[|t| - 2], t[|t| - 1]))
  {
    hide LeadSpace, SpacePair;
    if |t| >= 2 {
      ShortSpaces(0, t[|t| - 2], t[|t| - 1]);
      assert t[|t| - 2..] == [t[|t| - 2], t[|t| - 1]];
    }
  }

  lemma {:induction false} LastTriple(t: Text)
    ensures |t| >= 3 ==> (LeadSpace(t[|t| - 3..]) == 3 <==> SpaceTriple(t[|t| - 3], t[|t| - 2], t[|t| - 1]))
  {
    hide LeadSpace, SpaceTriple;
    if |t| >= 3 {
      ShortSpaces(t[|t| - 3], t[|t| - 2], t[|t| - 1]);
      assert t[|t| - 3..] == [t[|t| - 3], t[|t| - 2], t[|t| - 1]];
    }
  }

  lemma {:induction false} TailBytes(t: Text)
    ensures var n := |t|;
            TailSpace(t) ==
            if n >= 1 && SpaceByte(t[n - 1]) then 1
            else if n >= 2 && SpacePair(t[n - 2], t[n - 1]) then 2
            else if n >= 3 && SpaceTriple(t[n - 3], t[n - 2], t[n - 1]) then 3
            else 0
  {
    hide LeadSpace, SpaceByte, SpacePair, SpaceTriple;
    LastByte(t);
    LastPair(t);
    LastTriple(t);
  }

  lemma {:induction false} TailSpaceExact(before: Bytes, c: nat)
    requires Scalar(c)
    ensures TailSpace(before + Encode(c)) == if WhiteSpace(c) then |Encode(c)| else 0
  {
    hide TailSpace, Encode;
    TailBytes(before + Encode(c));
    EncodeSpaces(c);
    var b, e := before + Encode(c), Encode(c);
    var n, m := |b|, |e|;
    assert b[n - 1] == e[m - 1];
    if m >= 2 {
      assert b[n - 2] == e[m - 2];
    }
    if m >= 3 {
      assert b[n - 3] == e[m - 3];
    }
  }

  /** What the last bytes of a character say about it. */
  lemma {:induction false} EncodeSpaces(c: nat)
    requires Scalar(c)
    ensures var e := Encode(c);
            match |e|
            case 1 => e[0] < 0x80 && (WhiteSpace(c) <==> SpaceByte(e[0]))
            case 2 => e[0] >= 0xC2 && e[1] >= 0x80 && (WhiteSpace(c) <==> SpacePair(e[0], e[1]))
            case 3 => e[0] >= 0xE0 && 0x80 <= e[1] < 0xC0 && e[2] >= 0x80 && (WhiteSpace(c) <==> SpaceTriple(e[0], e[1], e[2]))
            case _ => |e| == 4 && 0x80 <= e[1] < 0xC0 && 0x80 <= e[2] < 0xC0 && e[3] >= 0x80 && !WhiteSpace(c)
  {
  }

  ghost predicate AllWhite(cs: seq<nat>) {
    forall i | 0 <= i < |cs| :: WhiteSpace(cs[i])
  }

  lemma {:induction false} EncodeAllAppend(a: seq<nat>, b: seq<nat>)
    requires AllScalars(a) && AllScalars(b)
    ensures AllScalars(a + b) && EncodeAll(a + b) == EncodeAll(a) + EncodeAll(b)
  {
    hide Encode, Scalar;
    if a == [] {
      assert a + b == b;
    } else {
      assert (a + b)[1..] == a[1..] + b;
      EncodeAllAppend(a[1..], b);
    }
  }

  lemma {:induction false} NoSpace()
    ensures LeadSpace([]) == 0
  {
  }

  lemma {:induction false} TrimStartExact(white: seq<nat>, cs: seq<nat>)
    requires AllScalars(white) && AllWhite(white) && AllScalars(cs) && (cs != [] ==> !WhiteSpace(cs[0]))
    ensures TrimStart(EncodeAll(white) + EncodeAll(cs)) == EncodeAll(cs)
  {
    hide Encode, Scalar, LeadSpace, WhiteSpace;
    if white == [] {
      assert EncodeAll(white) + EncodeAll(cs) == EncodeAll(cs);
      if cs == [] {
        assert LeadSpace([]) == 0 by {
          NoSpace();
        }
      } else {
        LeadSpaceExact(cs[0], EncodeAll(cs[1..]));
      }
    } else {
      var rest := EncodeAll(white[1..]) + EncodeAll(cs);
      assert EncodeAll(white) + EncodeAll(cs) == Encode(white[0]) + rest;
      LeadSpaceExact(white[0], rest);
      EncodeLength(white[0], rest);
      assert (Encode(white[0]) + rest)[|Encode(white[0])|..] == rest;
      TrimStartExact(white[1..], cs);
    }
  }

  lemma {:induction false} EncodeAllSnoc(cs: seq<nat>, c: nat)
    requires AllScalars(cs) && Scalar(c)
    ensures AllScalars(cs + [c]) && EncodeAll(cs + [c]) == EncodeAll(cs) + Encode(c)
  {
    EncodeAllAppend(cs, [c]);
    assert EncodeAll([c]) == Encode(c) + [];
  }

  lemma {:induction false} TrimEndExact(cs: seq<nat>, white: seq<nat>)
    requires AllScalars(white) && AllWhite(white) && AllScalars(cs) && (cs != [] ==> !WhiteSpace(cs[|cs| - 1]))
    ensures TrimEnd(EncodeAll(cs) + EncodeAll(white)) == EncodeAll(cs)
  {
    if white == [] {
      assert EncodeAll(cs) + EncodeAll(white) == EncodeAll(cs);
      if cs != [] {
        var n := |cs| - 1;
        assert cs == cs[..n] + [cs[n]];
        EncodeAllSnoc(cs[..n], cs[n]);
        TailSpaceExact(EncodeAll(cs[..n]), cs[n]);
      }
    } else {
      var n := |white| - 1;
      var last := Encode(white[n]);
      assert white == white[..n] + [white[n]];
      EncodeAllSnoc(white[..n], white[n]);
      var before := EncodeAll(cs) + EncodeAll(white[..n]);
      assert EncodeAll(cs) + EncodeAll(white) == before + last;
      TailSpaceExact(before, white[n]);
      EncodeLength(white[n], []);
      assert (before + last)[..|before|] == before;
      TrimEndExact(cs, white[..n]);
    }
  }

  /** `trim` takes the white space off both ends, and nothing else. */
  lemma {:induction false} TrimExact(before: seq<nat>, cs: seq<nat>, after: seq<nat>)
    requires AllScalars(before) && AllWhite(before) && AllScalars(cs) && AllScalars(after) && AllWhite(after)
    requires cs != [] ==> !WhiteSpace(cs[0]) && !WhiteSpace(cs[|cs| - 1])
    ensures TrimEnd(TrimStart(EncodeAll(before + cs + after))) == EncodeAll(cs)
  {
    hide Encode, Scalar, WhiteSpace, LeadSpace;
    EncodeAllAppend(before, cs);
    EncodeAllAppend(before + cs, after);
    if cs == [] {
      assert TailSpace([]) == 0 && TrimEnd([]) == [] && EncodeAll([]) == [];
      assert before + cs + after == before + after;
      EncodeAllAppend(before, after);
      TrimStartExact(before + after, []);
      assert EncodeAll(before + after) + EncodeAll([]) == EncodeAll(before + after);
      assert TrimStart(EncodeAll(before + cs + after)) == [];
    } else {
      EncodeAllAppend(cs, after);
      assert EncodeAll(before + cs + after) == EncodeAll(before) + EncodeAll(cs + after);
      TrimStartExact(before, cs + after);
      TrimEndExact(cs, after);
    }
  }

  /** Lines that each end in a carriage return and a newline. */
  function Lined(lines: seq<Text>): Text {
    if lines == [] then [] else lines[0] + CRLF + Lined(lines[1..])
  }

  /** No such line names a chunk. */
  ghost predicate Nameless(lines: seq<Text>) {
    forall i | 0 <= i < |lines| :: LF !in lines[i] && CR !in lines[i] && !(ID_PREFIX <= lines[i])
  }

  lemma {:induction false} NamelessSkipped(lines: seq<Text>, rest: Text)
    requires Nameless(lines)
    ensures FirstIdLine(HeaderLines(Lined(lines) + rest)) == FirstIdLine(HeaderLines(rest))
  {
    if lines == [] {
      assert Lined(lines) + rest == rest;
    } else {
      var more := Lined(lines[1..]) + rest;
      assert Lined(lines) + rest == lines[0] + CRLF + more;
      FirstLine(lines[0], more);
      NamelessSkipped(lines[1..], rest);
      assert ([lines[0]] + HeaderLines(more))[1..] == HeaderLines(more);
    }
  }

  /**
   The id is what stands on the first line that begins with `X-Chunk-ID:`, between the blank after that and
   the end of the line, white space taken off; whatever other lines there are.
   */
  lemma {:induction false} HeaderIdRead(lines: seq<Text>, value: Text, rest: Text)
    requires Nameless(lines) && LF !in value && CR !in value && Absent(value, COLON_SPACE)
    ensures var headers := Lined(lines) + IdLine(value) + CRLF + rest;
            HeaderId(headers) == if ValidUtf8(headers) then Some(TrimEnd(TrimStart(value))) else None
  {
    var line := IdLine(value);
    LineBytes();
    assert Lined(lines) + line + CRLF + rest == Lined(lines) + (line + CRLF + rest);
    NamelessSkipped(lines, line + CRLF + rest);
    FirstLine(line, rest);
    assert ID_PREFIX <= line;
    IdLineReads(value);
  }

  /** A second colon and blank on that line ends the id, too. */
  lemma {:induction false} HeaderIdCut(lines: seq<Text>, value: Text, more: Text, rest: Text)
    requires Nameless(lines) && LF !in value && CR !in value && LF !in more && CR !in more && Absent(value, COLON_SPACE)
    ensures var headers := Lined(lines) + IdLine(value + COLON_SPACE + more) + CRLF + rest;
            HeaderId(headers) == if ValidUtf8(headers) then Some(TrimEnd(TrimStart(value))) else None
  {
    hide HeaderLines, SecondPiece, FirstIdLine;
    var all := value + COLON_SPACE + more;
    var line := IdLine(all);
    LineBytes();
    assert LF !in all && CR !in all;
    assert Lined(lines) + line + CRLF + rest == Lined(lines) + (line + CRLF + rest);
    NamelessSkipped(lines, line + CRLF + rest);
    FirstLine(line, rest);
    IdLineFirst(all, HeaderLines(rest));
    PieceBetween(value, more);
  }

  lemma {:induction false} IdLineFirst(value: Text, lines: seq<Text>)
    ensures FirstIdLine([IdLine(value)] + lines) == Some(IdLine(value))
  {
    assert ID_PREFIX <= IdLine(value);
  }

  lemma {:induction false} PieceBetween(value: Text, more: Text)
    requires Absent(value, COLON_SPACE)
    ensures SecondPiece(IdLine(value + COLON_SPACE + more)) == Some(value)
  {
    hide Find;
    var all := value + COLON_SPACE + more;
    var line := IdLine(all);
    PrefixPiece(all);
    forall i: nat | i < |value|
      ensures !At(all, COLON_SPACE, i)
    {
      assert !At(value, COLON_SPACE, i);
      assert all[i..][0] == value[i];
      if i + 1 < |value| {
        assert all[i..][1] == value[i + 1];
        assert value[i..][0] == value[i] && value[i..][1] == value[i + 1];
      } else {
        assert all[i..][1] == 58;
      }
    }
    assert all[|value|..] == COLON_SPACE + more;
    FindMeaning(all, COLON_SPACE, |value|);
    assert all[..|value|] == value;
  }

  lemma {:induction false} PrefixPiece(rest: Text)
    ensures Find(IdLine(rest), COLON_SPACE) == Some(10) && IdLine(rest)[12..] == rest
  {
    hide Find;
    var line := IdLine(rest);
    assert line[10..] == COLON_SPACE + rest;
    forall i: nat | i < 10
      ensures !At(line, COLON_SPACE, i)
    {
      assert line[i..][0] == line[i] == ID_PREFIX[i] != 58;
    }
    FindMeaning(line, COLON_SPACE, 10);
  }

  /** Without such a line there is no id. */
  lemma {:induction false} NoIdRead(lines: seq<Text>)
    requires Nameless(lines)
    ensures HeaderId(Lined(lines)) == None
  {
    NamelessSkipped(lines, []);
    assert Lined(lines) + [] == Lined(lines);
  }
}
