/** The server's batch response (server/src/chunks/response.rs), and the client reader as its inverse. */
module Framing {
  import opened Octets
  import opened Servers
  import opened Multipart

  const CONTENT_TYPE_LINE: Bytes := Ascii("Content-Type: text/plain; charset=utf-8")

  /** The line that names a section. */
  function IdLine(id: Text): Bytes {
    ID_PREFIX + [32] + id
  }

  /** The header lines of a section, without the blank line that ends them. */
  function Header(id: Text): Bytes {
    CRLF + CONTENT_TYPE_LINE + CRLF + IdLine(id)
  }

  function Delimiter(boundary: Text): Bytes {
    [DASH, DASH] + boundary
  }

  function Section(boundary: Text, id: Text, content: Bytes): Bytes {
    CRLF + Delimiter(boundary) + Header(id) + DOUBLE_CRLF + content
  }

  function Sections(boundary: Text, parts: seq<Part>): Bytes {
    if parts == [] then [] else Section(boundary, parts[0].0, parts[0].1) + Sections(boundary, parts[1..])
  }

  function Closing(boundary: Text): Bytes {
    CRLF + Delimiter(boundary) + [DASH, DASH] + CRLF
  }

  /** The whole body. */
  function Body(boundary: Text, parts: seq<Part>): Bytes {
    Sections(boundary, parts) + Closing(boundary)
  }

  /** The chunks that are served before the first one missing from the store. */
  function Served(store: Blobs, ids: seq<Text>): seq<Part> {
    if ids == [] || ids[0] !in store then [] else [(ids[0], store[ids[0]])] + Served(store, ids[1..])
  }

  /** They are the chunks of the first `n` ids, the next id, if there is one, being the first that is missing. */
  lemma {:induction false} ServedExact(store: Blobs, ids: seq<Text>, n: nat)
    requires n <= |ids| && (forall i | 0 <= i < n :: ids[i] in store) && (n < |ids| ==> ids[n] !in store)
    ensures |Served(store, ids)| == n && forall i | 0 <= i < n :: Served(store, ids)[i] == (ids[i], store[ids[i]])
  {
    if n > 0 {
      ServedExact(store, ids[1..], n - 1);
    }
  }

  lemma {:induction false} SectionsAppend(boundary: Text, a: seq<Part>, b: seq<Part>)
    ensures Sections(boundary, a + b) == Sections(boundary, a) + Sections(boundary, b)
  {
    if a == [] {
      assert a + b == b;
    } else {
      assert (a + b)[1..] == a[1..] + b;
      SectionsAppend(boundary, a[1..], b);
    }
  }

  /** How much of a file each read of the response stream yields. */
  type FileReads = (Text, nat) -> nat

  function Piece(io: FileReads, id: Text, pos: nat, left: nat): (n: nat)
    requires left > 0
    ensures 1 <= n <= left
  {
    var n := io(id, pos);
    if n == 0 then 1 else if n > left then left else n
  }

  /**
   `MultipartMixed::into_response`: the pieces of the body as they are sent. A chunk missing from the
   store panics the stream, which then ends early; `complete` says whether that did not happen.
   */
  method IntoResponse(store: Blobs, ids: seq<Text>, boundary: Text, io: FileReads)
    returns (pieces: seq<Bytes>, complete: bool)
    ensures complete <==> forall id | id in ids :: id in store
    ensures Concat(pieces) ==
            if complete then Body(boundary, Served(store, ids)) else Sections(boundary, Served(store, ids))
  {
    pieces := [];
    var i := 0;
    while i < |ids|
      invariant 0 <= i <= |ids|
      invariant SentBefore(store, ids, boundary, i, Concat(pieces))
    {
      if ids[i] !in store {
        SentUpToMissing(store, ids, boundary, i, Concat(pieces));
        return pieces, false;
      }
      SentOneMore(store, ids, boundary, i, Concat(pieces));
      pieces := SendSection(pieces, boundary, ids[i], store[ids[i]], io);
      i := i + 1;
    }
    SentAll(store, ids, boundary, Concat(pieces));
    ConcatSnoc(pieces, Closing(boundary));
    pieces := pieces + [Closing(boundary)];
    complete := true;
  }

  /** The first `i` chunks are in the store, and `sent` is what precedes the others. */
  ghost predicate SentBefore(store: Blobs, ids: seq<Text>, boundary: Text, i: nat, sent: Bytes)
    requires i <= |ids|
  {
    (forall j | 0 <= j < i :: ids[j] in store) &&
    sent + Sections(boundary, Served(store, ids[i..])) == Sections(boundary, Served(store, ids))
  }

  lemma SentOneMore(store: Blobs, ids: seq<Text>, boundary: Text, i: nat, sent: Bytes)
    requires i < |ids| && SentBefore(store, ids, boundary, i, sent) && ids[i] in store
    ensures SentBefore(store, ids, boundary, i + 1, sent + Section(boundary, ids[i], store[ids[i]]))
  {
    assert ids[i..][1..] == ids[i + 1..];
    var section, rest := Section(boundary, ids[i], store[ids[i]]), Sections(boundary, Served(store, ids[i + 1..]));
    assert sent + (section + rest) == sent + section + rest;
  }

  lemma {:induction false} SentUpToMissing(store: Blobs, ids: seq<Text>, boundary: Text, i: nat, sent: Bytes)
    requires i < |ids| && SentBefore(store, ids, boundary, i, sent) && ids[i] !in store
    ensures sent == Sections(boundary, Served(store, ids))
    ensures ids[i] in ids
  {
    assert sent + [] == sent;
  }

  lemma {:induction false} SentAll(store: Blobs, ids: seq<Text>, boundary: Text, sent: Bytes)
    requires SentBefore(store, ids, boundary, |ids|, sent)
    ensures sent + Closing(boundary) == Body(boundary, Served(store, ids))
    ensures forall id | id in ids :: id in store
  {
    assert sent + [] == sent;
  }

  lemma {:induction false} SentMore(pieces: seq<Bytes>, before: Bytes, file: Bytes, pos: nat, n: nat)
    requires pos + n <= |file| && Concat(pieces) == before + file[..pos]
    ensures Concat(pieces + [file[pos..pos + n]]) == before + file[..pos + n]
  {
    ConcatSnoc(pieces, file[pos..pos + n]);
    assert file[..pos + n] == file[..pos] + file[pos..pos + n];
  }

  /** One section: its header in one piece, then the file in as many pieces as it takes to read. */
  method SendSection(sent: seq<Bytes>, boundary: Text, id: Text, file: Bytes, io: FileReads)
    returns (pieces: seq<Bytes>)
    ensures Concat(pieces) == Concat(sent) + Section(boundary, id, file)
  {
    ghost var head := CRLF + Delimiter(boundary) + Header(id) + DOUBLE_CRLF;
    pieces := sent + [CRLF + Delimiter(boundary) + Header(id) + DOUBLE_CRLF];
    ConcatSnoc(sent, head);
    var pos := 0;
    while pos < |file|
      invariant 0 <= pos <= |file|
      invariant Concat(pieces) == Concat(sent) + head + file[..pos]
    {
      var n := Piece(io, id, pos, |file| - pos);
      SentMore(pieces, Concat(sent) + head, file, pos, n);
      pieces := pieces + [file[pos..pos + n]];
      pos := pos + n;
    }
    assert file[..pos] == file;
  }

  /** The server draws boundaries from letters and digits. */
  ghost predicate Alphanumeric(t: Text) {
    forall i | 0 <= i < |t| :: 48 <= t[i] <= 57 || 65 <= t[i] <= 90 || 97 <= t[i] <= 122
  }

  /** Ids a header line can carry: no line break, no `: `, no white space around, no delimiter inside. */
  ghost predicate Carriable(boundary: Text, id: Text) {
    ValidUtf8(id) && CR !in id && LF !in id && Absent(id, COLON_SPACE) &&
    LeadSpace(id) == 0 && TailSpace(id) == 0 && Absent(id, Delimiter(boundary))
  }

  ghost predicate Framable(boundary: Text, parts: seq<Part>) {
    boundary != [] && Alphanumeric(boundary) &&
    forall p | p in parts :: Carriable(boundary, p.0) && Absent(p.1, Delimiter(boundary))
  }

  /** A pattern that does not hold `c` occurs in `a`, `c`, `b` end to end only inside `a` or inside `b`. */
  lemma AbsentAcross(a: Bytes, c: byte, b: Bytes, pat: Bytes)
    requires pat != [] && c !in pat && Absent(a, pat) && Absent(b, pat)
    ensures Absent(a + [c] + b, pat)
  {
    var s := a + [c] + b;
    forall i: nat
      ensures !At(s, pat, i)
    {
      if At(s, pat, i) {
        OnlyInside(a, c, b, pat, i);
      }
    }
  }

  lemma OnlyInside(a: Bytes, c: byte, b: Bytes, pat: Bytes, i: nat)
    requires pat != [] && c !in pat && At(a + [c] + b, pat, i)
    ensures At(a, pat, i) || (i > |a| && At(b, pat, i - |a| - 1))
  {
    var s := a + [c] + b;
    assert forall j | 0 <= j < |pat| :: pat[j] == s[i..][j] == s[i + j];
    if i + |pat| <= |a| {
      assert pat <= a[i..];
    } else if i > |a| {
      assert b[i - |a| - 1..] == s[i..];
    } else {
      Straddling(s, pat, i, |a|);
    }
  }

  lemma Straddling(s: Bytes, pat: Bytes, i: nat, k: nat)
    requires At(s, pat, i) && i <= k < i + |pat|
    ensures s[k] in pat
  {
    assert s[i..][k - i] == pat[k - i];
  }

  /** The first occurrence of a pattern that is put right after `a` and a byte it does not hold. */
  lemma {:induction false} FirstAfter(a: Bytes, c: byte, pat: Bytes, rest: Bytes)
    requires pat != [] && c !in pat && Absent(a, pat)
    ensures Find(a + [c] + pat + rest, pat) == Some(|a| + 1)
  {
    var s := a + [c] + pat + rest;
    assert s == a + [c] + (pat + rest);
    assert s[|a| + 1..] == pat + rest;
    forall i: nat | i < |a| + 1
      ensures !At(s, pat, i)
    {
      if At(s, pat, i) {
        OnlyInside(a, c, pat + rest, pat, i);
      }
    }
    FindMeaning(s, pat, |a| + 1);
  }

  /** Where no two dashes meet there is no delimiter. */
  lemma NoDoubleDash(data: Bytes, boundary: Text)
    requires forall i | 0 <= i < |data| - 1 :: data[i] != DASH || data[i + 1] != DASH
    ensures Absent(data, Delimiter(boundary))
  {
    forall i: nat
      ensures !At(data, Delimiter(boundary), i)
    {
      if At(data, Delimiter(boundary), i) {
        TwoDashes(data, boundary, i);
      }
    }
  }

  lemma TwoDashes(data: Bytes, boundary: Text, i: nat)
    requires At(data, Delimiter(boundary), i)
    ensures i < |data| - 1 && data[i] == DASH && data[i + 1] == DASH
  {
    assert data[i..][0] == Delimiter(boundary)[0] && data[i..][1] == Delimiter(boundary)[1];
  }

  lemma DelimiterBytes(boundary: Text)
    requires Alphanumeric(boundary)
    ensures CR !in Delimiter(boundary) && LF !in Delimiter(boundary) && 32 !in Delimiter(boundary)
  {
    var pat := Delimiter(boundary);
    forall i | 0 <= i < |pat|
      ensures pat[i] != CR && pat[i] != LF && pat[i] != 32
    {
      assert i >= 2 ==> pat[i] == boundary[i - 2];
    }
  }

  lemma AbsentAcrossLine(a: Bytes, b: Bytes, pat: Bytes)
    requires pat != [] && CR !in pat && LF !in pat && Absent(a, pat) && Absent(b, pat)
    ensures Absent(a + CRLF + b, pat)
    ensures Absent(a + [CR], pat)
  {
    assert Absent([], pat);
    AbsentAcross(a, CR, [], pat);
    assert a + [CR] + [] == a + [CR];
    AbsentAcross(a + [CR], LF, b, pat);
    assert a + [CR] + [LF] + b == a + CRLF + b;
  }

  lemma HeaderHasNoDelimiter(boundary: Text, id: Text)
    requires Alphanumeric(boundary) && Absent(id, Delimiter(boundary))
    ensures Absent(Header(id), Delimiter(boundary))
  {
    var pat := Delimiter(boundary);
    DelimiterBytes(boundary);
    NoDoubleDash([], boundary);
    NoDoubleDash(CONTENT_TYPE_LINE, boundary);
    NoDoubleDash(ID_PREFIX, boundary);
    AbsentAcross(ID_PREFIX, 32, id, pat);
    AbsentAcrossLine([], CONTENT_TYPE_LINE, pat);
    AbsentAcrossLine([] + CRLF + CONTENT_TYPE_LINE, IdLine(id), pat);
    assert [] + CRLF + CONTENT_TYPE_LINE + CRLF + IdLine(id) == Header(id);
  }

  /** Nothing between two delimiters of a framed body looks like a delimiter. */
  lemma NoStrayDelimiter(boundary: Text, id: Text, content: Bytes)
    requires Alphanumeric(boundary) && Absent(id, Delimiter(boundary)) && Absent(content, Delimiter(boundary))
    ensures Absent(Header(id) + DOUBLE_CRLF + content + [CR], Delimiter(boundary))
  {
    var pat := Delimiter(boundary);
    DelimiterBytes(boundary);
    HeaderHasNoDelimiter(boundary, id);
    NoDoubleDash([], boundary);
    AbsentAcrossLine([], content, pat);
    AbsentAcrossLine(Header(id), [] + CRLF + content, pat);
    assert Header(id) + CRLF + ([] + CRLF + content) == Header(id) + DOUBLE_CRLF + content;
    AbsentAcrossLine(Header(id) + DOUBLE_CRLF + content, [], pat);
  }

  /** A body from its first delimiter on. */
  function FromDelimiter(boundary: Text, parts: seq<Part>): Bytes {
    if parts == [] then Delimiter(boundary) + [DASH, DASH] + CRLF
    else
      Delimiter(boundary) + Header(parts[0].0) + DOUBLE_CRLF + parts[0].1 + CRLF + FromDelimiter(boundary, parts[1..])
  }

  lemma {:induction false} BodyFromDelimiter(boundary: Text, parts: seq<Part>)
    ensures Body(boundary, parts) == CRLF + FromDelimiter(boundary, parts)
  {
    if parts == [] {
      assert Body(boundary, parts) == Closing(boundary);
    } else {
      BodyFromDelimiter(boundary, parts[1..]);
      BodyHead(boundary, parts);
      Reassociate(CRLF, Delimiter(boundary), Header(parts[0].0) + DOUBLE_CRLF + parts[0].1,
                  FromDelimiter(boundary, parts[1..]));
    }
  }

  lemma {:induction false} BodyHead(boundary: Text, parts: seq<Part>)
    requires parts != []
    ensures var section := Header(parts[0].0) + DOUBLE_CRLF + parts[0].1;
            Body(boundary, parts) == (CRLF + Delimiter(boundary) + section) + Body(boundary, parts[1..]) &&
            FromDelimiter(boundary, parts) == Delimiter(boundary) + section + CRLF + FromDelimiter(boundary, parts[1..])
  {
    SectionShape(boundary, parts[0].0, parts[0].1);
    FromDelimiterShape(boundary, parts);
    Associate(Section(boundary, parts[0].0, parts[0].1), Sections(boundary, parts[1..]), Closing(boundary));
  }

  lemma Associate(a: Bytes, b: Bytes, c: Bytes)
    ensures (a + b) + c == a + (b + c)
  {
  }

  lemma SplitAt(a: Bytes, b: Bytes)
    ensures (a + b)[..|a|] == a && (a + b)[|a|..] == b
  {
  }

  lemma Reassociate(a: Bytes, b: Bytes, c: Bytes, d: Bytes)
    ensures (a + b + c) + (a + d) == a + (b + c + a + d)
  {
  }

  lemma SectionShape(boundary: Text, id: Text, content: Bytes)
    ensures Section(boundary, id, content) == CRLF + Delimiter(boundary) + (Header(id) + DOUBLE_CRLF + content)
  {
  }

  lemma {:induction false} FromDelimiterShape(boundary: Text, parts: seq<Part>)
    requires parts != []
    ensures FromDelimiter(boundary, parts) ==
            Delimiter(boundary) + (Header(parts[0].0) + DOUBLE_CRLF + parts[0].1) + CRLF +
            FromDelimiter(boundary, parts[1..])
  {
  }

  lemma LineBytes()
    ensures CR !in CONTENT_TYPE_LINE && LF !in CONTENT_TYPE_LINE
    ensures CR !in ID_PREFIX && LF !in ID_PREFIX
  {
  }

  /** The header block ends at the first blank line. */
  lemma {:induction false} HeaderEnds(id: Text, tail: Bytes)
    requires CR !in id && LF !in id
    ensures Find(Header(id) + DOUBLE_CRLF + tail, DOUBLE_CRLF) == Some(|Header(id)|)
  {
    var h := Header(id);
    var s := h + DOUBLE_CRLF + tail;
    assert s[|h|..] == DOUBLE_CRLF + tail;
    forall i: nat | i < |h|
      ensures !At(s, DOUBLE_CRLF, i)
    {
      if At(s, DOUBLE_CRLF, i) {
        assert s[i..][0] == s[i] && s[i..][2] == s[i + 2];
        ReturnInHeader(id, i);
      }
    }
    FindMeaning(s, DOUBLE_CRLF, |h|);
  }

  /** Every carriage return of a header is followed by a newline and then by something else. */
  lemma ReturnInHeader(id: Text, i: nat)
    requires CR !in id && i < |Header(id)| && Header(id)[i] == CR
    ensures i + 2 < |Header(id)| && Header(id)[i + 2] != CR
  {
    LineBytes();
    var h, n := Header(id), |CONTENT_TYPE_LINE|;
    assert h[2] == CONTENT_TYPE_LINE[0] && h[n + 4] == ID_PREFIX[0];
  }

  lemma {:induction false} FirstLine(line: Text, rest: Text)
    requires LF !in line && CR !in line
    ensures HeaderLines(line + CRLF + rest) == [line] + HeaderLines(rest)
  {
    var s := line + CRLF + rest;
    var k := |line| + 1;
    assert s[k..] == [LF] + rest;
    forall i: nat | i < k
      ensures !At(s, [LF], i)
    {
      assert s[i..][0] == s[i] != LF;
    }
    FindMeaning(s, [LF], k);
    assert s[..k - 1] == line && s[k + 1..] == rest;
  }

  lemma {:induction false} LastHeaderLine(line: Text)
    requires LF !in line && line != []
    ensures HeaderLines(line) == [line]
  {
    forall i: nat
      ensures !At(line, [LF], i)
    {
      if At(line, [LF], i) {
        Straddling(line, [LF], i, i);
      }
    }
    FindNothing(line, [LF]);
  }

  lemma IdLineReads(id: Text)
    requires Absent(id, COLON_SPACE)
    ensures SecondPiece(IdLine(id)) == Some(id)
  {
    var line := IdLine(id);
    assert line[10..] == COLON_SPACE + id;
    forall i: nat | i < 10
      ensures !At(line, COLON_SPACE, i)
    {
      assert line[i..][0] == line[i] == ID_PREFIX[i] != 58;
    }
    FindMeaning(line, COLON_SPACE, 10);
    assert line[12..] == id;
    FindNothing(id, COLON_SPACE);
  }

  lemma {:induction false} Utf8Append(a: Bytes, b: Bytes)
    requires ValidUtf8(a) && ValidUtf8(b)
    ensures ValidUtf8(a + b)
    decreases |a|
  {
    if a == [] {
      assert a + b == b;
    } else {
      var n := CharLength(a);
      assert CharLength(a + b) == n;
      assert (a + b)[n..] == a[n..] + b;
      Utf8Append(a[n..], b);
    }
  }

  lemma {:induction false} AsciiIsUtf8(a: Bytes)
    requires forall i | 0 <= i < |a| :: a[i] < 0x80
    ensures ValidUtf8(a)
    decreases |a|
  {
    if a != [] {
      AsciiIsUtf8(a[1..]);
    }
  }

  lemma {:induction false} HeaderIsUtf8(id: Text)
    requires ValidUtf8(id)
    ensures ValidUtf8(Header(id))
  {
    var before := CRLF + CONTENT_TYPE_LINE + CRLF + ID_PREFIX + [32];
    forall i | 0 <= i < |before|
      ensures before[i] < 0x80
    {
      assert before[i] in CRLF || before[i] in CONTENT_TYPE_LINE || before[i] in ID_PREFIX || before[i] == 32;
    }
    AsciiIsUtf8(before);
    Utf8Append(before, id);
    assert before + id == Header(id);
  }

  /** The client reads out of a header the id the server put in. */
  lemma HeaderIdReads(boundary: Text, id: Text)
    requires Carriable(boundary, id)
    ensures HeaderId(Header(id)) == Some(id)
  {
    HeaderIsUtf8(id);
    IdLineReads(id);
    HeaderLinesAre(id);
    FindIdLine(id);
  }

  lemma HeaderLinesAre(id: Text)
    requires CR !in id && LF !in id
    ensures HeaderLines(Header(id)) == [[], CONTENT_TYPE_LINE, IdLine(id)]
  {
    LineBytes();
    assert LF !in IdLine(id) && CR !in IdLine(id);
    var rest := CONTENT_TYPE_LINE + CRLF + IdLine(id);
    assert Header(id) == [] + CRLF + rest;
    FirstLine([], rest);
    FirstLine(CONTENT_TYPE_LINE, IdLine(id));
    LastHeaderLine(IdLine(id));
  }

  lemma FindIdLine(id: Text)
    ensures FirstIdLine([[], CONTENT_TYPE_LINE, IdLine(id)]) == Some(IdLine(id))
  {
    var line := IdLine(id);
    assert ID_PREFIX <= line;
    assert !(ID_PREFIX <= CONTENT_TYPE_LINE) by {
      assert ID_PREFIX[0] != CONTENT_TYPE_LINE[0];
    }
    assert FirstIdLine([line]) == Some(line);
    assert [CONTENT_TYPE_LINE, line][1..] == [line];
    assert FirstIdLine([CONTENT_TYPE_LINE, line]) == Some(line);
    assert [[], CONTENT_TYPE_LINE, line][1..] == [CONTENT_TYPE_LINE, line];
  }

  lemma HeaderSlices(header: Bytes, tail: Bytes)
    ensures var part := header + DOUBLE_CRLF + tail;
            part[..|header|] == header && (|tail| >= 2 ==> part[|header| + 4..|part| - 2] == tail[..|tail| - 2])
  {
  }

  lemma {:induction false} PartProcessed(part: Bytes, e: nat, id: Text)
    requires Find(part, DOUBLE_CRLF) == Some(e) && HeaderId(part[..e]) == Some(id)
    ensures ProcessPart(part) == if e + 6 <= |part| then Item(id, part[e + 4..|part| - 2]) else Failed(SlicePanic)
  {
  }

  /** Of what follows the header, all but the last two bytes are content. */
  lemma PartReads(boundary: Text, id: Text, tail: Bytes)
    requires Carriable(boundary, id)
    ensures ProcessPart(Header(id) + DOUBLE_CRLF + tail) ==
            if |tail| >= 2 then Item(id, tail[..|tail| - 2]) else Failed(SlicePanic)
  {
    hide Header, HeaderId, ProcessPart;
    HeaderEnds(id, tail);
    HeaderSlices(Header(id), tail);
    HeaderIdReads(boundary, id);
    PartProcessed(Header(id) + DOUBLE_CRLF + tail, |Header(id)|, id);
  }

  lemma SectionReads(boundary: Text, id: Text, content: Bytes)
    requires Carriable(boundary, id)
    ensures ProcessPart(Header(id) + DOUBLE_CRLF + content + CRLF) == Item(id, content)
  {
    PartReads(boundary, id, content + CRLF);
    assert (content + CRLF)[..|content|] == content;
    Associate(Header(id) + DOUBLE_CRLF, content, CRLF);
  }

  /** The first delimiter is found at once, with or without the line break that opens the body. */
  lemma {:induction false} DelimiterFirst(boundary: Text, lead: Bytes, rest: Bytes)
    requires Alphanumeric(boundary) && (lead == [] || lead == CRLF)
    ensures Find(lead + Delimiter(boundary) + rest, Delimiter(boundary)) == Some(|lead|)
  {
    var pat := Delimiter(boundary);
    var s := lead + pat + rest;
    if lead == [] {
      assert pat <= s;
    } else {
      DelimiterBytes(boundary);
      NoDoubleDash([CR], boundary);
      FirstAfter([CR], LF, pat, rest);
      assert [CR] + [LF] + pat + rest == s;
    }
  }

  lemma {:induction false} FromDelimiterStarts(boundary: Text, parts: seq<Part>)
    ensures Delimiter(boundary) <= FromDelimiter(boundary, parts)
  {
  }

  lemma {:induction false} NextDelimiter(before: Bytes, c: byte, pat: Bytes, next: Bytes)
    requires pat != [] && c !in pat && Absent(before, pat) && pat <= next
    ensures Find(before + [c] + next, pat) == Some(|before| + 1)
  {
    FirstAfter(before, c, pat, next[|pat|..]);
    Associate(before + [c], pat, next[|pat|..]);
    assert next == pat + next[|pat|..];
  }

  /** Between two delimiters that follow one another lies one part. */
  lemma {:induction false} CutBetween(lead: Bytes, pat: Bytes, part: Bytes, next: Bytes)
    requires pat != []
    requires Find(lead + pat + (part + next), pat) == Some(|lead|)
    requires Find(part + next, pat) == Some(|part|)
    ensures ExtractNextPart(lead + pat + (part + next), pat) == Cut(part, next)
  {
    SplitAt(lead + pat, part + next);
    SplitAt(part, next);
  }

  /** A section is cut out of the buffer as it was put in. */
  lemma {:induction false} SectionCut(boundary: Text, lead: Bytes, parts: seq<Part>)
    requires boundary != [] && Alphanumeric(boundary) && (lead == [] || lead == CRLF)
    requires parts != [] && Carriable(boundary, parts[0].0) && Absent(parts[0].1, Delimiter(boundary))
    ensures ExtractNextPart(lead + FromDelimiter(boundary, parts), Delimiter(boundary)) ==
            Cut(Header(parts[0].0) + DOUBLE_CRLF + parts[0].1 + CRLF, FromDelimiter(boundary, parts[1..]))
  {
    var section, next := Header(parts[0].0) + DOUBLE_CRLF + parts[0].1, FromDelimiter(boundary, parts[1..]);
    DelimiterFirst(boundary, lead, section + CRLF + next);
    FromDelimiterStarts(boundary, parts[1..]);
    NoStrayDelimiter(boundary, parts[0].0, parts[0].1);
    DelimiterBytes(boundary);
    SectionLayout(Delimiter(boundary), lead, section, next);
    FromDelimiterShape(boundary, parts);
  }

  lemma {:induction false} SectionLayout(pat: Bytes, lead: Bytes, section: Bytes, next: Bytes)
    requires pat != [] && LF !in pat && Absent(section + [CR], pat) && pat <= next
    requires Find(lead + pat + (section + CRLF + next), pat) == Some(|lead|)
    ensures ExtractNextPart(lead + (pat + section + CRLF + next), pat) == Cut(section + CRLF, next)
  {
    NextDelimiter(section + [CR], LF, pat, next);
    assert section + [CR] + [LF] == section + CRLF;
    CutBetween(lead, pat, section + CRLF, next);
    Reopen(lead, pat, section, CRLF, next);
  }

  lemma Reopen(lead: Bytes, pat: Bytes, section: Bytes, line: Bytes, next: Bytes)
    ensures lead + (pat + section + line + next) == lead + pat + (section + line + next)
  {
  }

  /** After the last section the reader waits for more, which does not come. */
  lemma {:induction false} ClosingNotCut(boundary: Text, lead: Bytes)
    requires boundary != [] && Alphanumeric(boundary) && (lead == [] || lead == CRLF)
    ensures ExtractNextPart(lead + FromDelimiter(boundary, []), Delimiter(boundary)).NeedMore?
  {
    hide Find;
    var pat, end := Delimiter(boundary), [DASH, DASH] + CRLF;
    assert lead + FromDelimiter(boundary, []) == lead + pat + end;
    DelimiterFirst(boundary, lead, end);
    assert (lead + pat + end)[|lead| + |pat|..] == end;
    NothingAfterClose(boundary);
  }

  lemma {:induction false} NothingAfterClose(boundary: Text)
    requires boundary != [] && Alphanumeric(boundary)
    ensures Find([DASH, DASH] + CRLF, Delimiter(boundary)) == None
  {
    hide Find;
    var pat, end := Delimiter(boundary), [DASH, DASH] + CRLF;
    DelimiterBytes(boundary);
    forall i: nat
      ensures !At(end, pat, i)
    {
      if At(end, pat, i) {
        TwoDashes(end, boundary, i);
        Straddling(end, pat, i, 2);
      }
    }
    FindNothing(end, pat);
  }

  lemma {:induction false} DrainItem(buffer: Bytes, pat: Bytes, part: Bytes, next: Bytes, id: Text, content: Bytes)
    requires pat != [] && ExtractNextPart(buffer, pat) == Cut(part, next) && ProcessPart(part) == Item(id, content)
    ensures var d := Drain(next, pat);
            Drain(buffer, pat) == d.(items := [(id, content)] + d.items)
  {
  }

  /**
   The client's reader is the inverse of the server's framing: out of a body it takes exactly the
   chunks put in, ids and bytes, in order, and nothing more.
   */
  lemma {:induction false} FramingRoundTrip(boundary: Text, lead: Bytes, parts: seq<Part>)
    requires Framable(boundary, parts) && (lead == [] || lead == CRLF)
    ensures var d := Drain(lead + FromDelimiter(boundary, parts), Delimiter(boundary));
            d.items == parts && d.fault == None
    decreases parts
  {
    if parts == [] {
      ClosingNotCut(boundary, lead);
    } else {
      assert parts == [parts[0]] + parts[1..];
      FirstSectionReads(boundary, lead, parts);
      FramingRoundTrip(boundary, [], parts[1..]);
      assert [] + FromDelimiter(boundary, parts[1..]) == FromDelimiter(boundary, parts[1..]);
    }
  }

  /** When a content holds the delimiter, the part is cut short at it. */
  lemma {:induction false} CutInside(boundary: Text, id: Text, content: Bytes, k: nat, next: Bytes)
    requires Alphanumeric(boundary) && Absent(id, Delimiter(boundary))
    requires Find(content, Delimiter(boundary)) == Some(k)
    ensures Find(Header(id) + DOUBLE_CRLF + (content + next), Delimiter(boundary)) == Some(|Header(id)| + 4 + k)
  {
    HeaderLeadHasNoDelimiter(boundary, id);
    DelimiterBytes(boundary);
    FindExtended(content, next, Delimiter(boundary));
    FoundLater(Header(id) + CRLF + [CR], LF, content + next, Delimiter(boundary), k);
    assert Header(id) + CRLF + [CR] + [LF] + (content + next) == Header(id) + DOUBLE_CRLF + (content + next);
  }

  lemma HeaderLeadHasNoDelimiter(boundary: Text, id: Text)
    requires Alphanumeric(boundary) && Absent(id, Delimiter(boundary))
    ensures Absent(Header(id) + CRLF + [CR], Delimiter(boundary))
  {
    DelimiterBytes(boundary);
    NoDoubleDash([], boundary);
    HeaderHasNoDelimiter(boundary, id);
    AbsentAcrossLine(Header(id), [], Delimiter(boundary));
    assert Header(id) + CRLF + [] == Header(id) + CRLF;
    AbsentAcrossLine(Header(id) + CRLF, [], Delimiter(boundary));
  }

  /** A pattern found in `b` is found at the same place behind bytes that do not hold it. */
  lemma {:induction false} FoundLater(a: Bytes, c: byte, b: Bytes, pat: Bytes, k: nat)
    requires pat != [] && c !in pat && Absent(a, pat) && Find(b, pat) == Some(k)
    ensures Find(a + [c] + b, pat) == Some(|a| + 1 + k)
  {
    var s := a + [c] + b;
    FindMeaning(b, pat, k);
    assert s[|a| + 1 + k..] == b[k..];
    forall i: nat | i < |a| + 1 + k
      ensures !At(s, pat, i)
    {
      if At(s, pat, i) {
        OnlyInside(a, c, b, pat, i);
      }
    }
    FindMeaning(s, pat, |a| + 1 + k);
  }

  lemma {:induction false} StrayFound(boundary: Text, id: Text, front: Bytes, back: Bytes, next: Bytes)
    requires Alphanumeric(boundary) && Absent(id, Delimiter(boundary))
    requires Find(front + back, Delimiter(boundary)) == Some(|front|)
    ensures Find(Header(id) + DOUBLE_CRLF + ((front + back) + next), Delimiter(boundary)) ==
            Some(|Header(id) + DOUBLE_CRLF + front|)
  {
    CutInside(boundary, id, front + back, |front|, next);
  }

  lemma {:induction false} StrayExtract(boundary: Text, lead: Bytes, id: Text, front: Bytes, back: Bytes, next: Bytes)
    requires boundary != [] && Alphanumeric(boundary) && (lead == [] || lead == CRLF)
    requires Absent(id, Delimiter(boundary)) && Find(front + back, Delimiter(boundary)) == Some(|front|)
    ensures ExtractNextPart(lead + (Delimiter(boundary) + (Header(id) + DOUBLE_CRLF + (front + back)) + CRLF + next),
                            Delimiter(boundary)) ==
            Cut(Header(id) + DOUBLE_CRLF + front, back + (CRLF + next))
  {
    var header := Header(id) + DOUBLE_CRLF;
    StrayFound(boundary, id, front, back, CRLF + next);
    DelimiterFirst(boundary, lead, header + (front + back) + CRLF + next);
    StrayLayout(Delimiter(boundary), lead, header, front, back, CRLF, next);
  }

  lemma {:induction false} StrayCut(boundary: Text, lead: Bytes, parts: seq<Part>, k: nat)
    requires boundary != [] && Alphanumeric(boundary) && (lead == [] || lead == CRLF)
    requires parts != [] && Absent(parts[0].0, Delimiter(boundary)) && Find(parts[0].1, Delimiter(boundary)) == Some(k)
    ensures var content := parts[0].1;
            ExtractNextPart(lead + FromDelimiter(boundary, parts), Delimiter(boundary)) ==
            Cut(Header(parts[0].0) + DOUBLE_CRLF + content[..k], content[k..] + (CRLF + FromDelimiter(boundary, parts[1..])))
  {
    var content := parts[0].1;
    HalvesOf(content, k);
    FromDelimiterSplit(boundary, parts, content[..k], content[k..]);
    StrayExtract(boundary, lead, parts[0].0, content[..k], content[k..], FromDelimiter(boundary, parts[1..]));
  }

  lemma HalvesOf(s: Bytes, k: nat)
    requires k <= |s|
    ensures s == s[..k] + s[k..] && |s[..k]| == k
  {
  }

  lemma {:induction false} FromDelimiterSplit(boundary: Text, parts: seq<Part>, front: Bytes, back: Bytes)
    requires parts != [] && parts[0].1 == front + back
    ensures FromDelimiter(boundary, parts) ==
            Delimiter(boundary) + (Header(parts[0].0) + DOUBLE_CRLF + (front + back)) + CRLF + FromDelimiter(boundary, parts[1..])
  {
    FromDelimiterShape(boundary, parts);
  }

  lemma {:induction false} StrayLayout(pat: Bytes, lead: Bytes, header: Bytes, front: Bytes, back: Bytes,
                                       line: Bytes, next: Bytes)
    requires pat != []
    requires Find(header + ((front + back) + (line + next)), pat) == Some(|header + front|)
    requires Find(lead + pat + (header + (front + back) + line + next), pat) == Some(|lead|)
    ensures ExtractNextPart(lead + (pat + (header + (front + back)) + line + next), pat) ==
            Cut(header + front, back + (line + next))
  {
    Regroup(header, front, back, line, next);
    RegroupAll(lead, pat, header, front, back, line, next);
    CutBetween(lead, pat, header + front, back + (line + next));
  }

  lemma Regroup(header: Bytes, front: Bytes, back: Bytes, line: Bytes, next: Bytes)
    ensures header + ((front + back) + (line + next)) == header + front + (back + (line + next))
    ensures header + (front + back) + line + next == header + front + (back + (line + next))
  {
  }

  lemma RegroupAll(lead: Bytes, pat: Bytes, header: Bytes, front: Bytes, back: Bytes, line: Bytes, next: Bytes)
    ensures lead + (pat + (header + (front + back)) + line + next) == lead + pat + (header + front + (back + (line + next)))
  {
  }

  /** A content that holds the delimiter is not read back. */
  lemma {:induction false} StrayDelimiterBreaks(boundary: Text, lead: Bytes, parts: seq<Part>)
    requires boundary != [] && Alphanumeric(boundary) && (lead == [] || lead == CRLF)
    requires parts != [] && Carriable(boundary, parts[0].0) && !Absent(parts[0].1, Delimiter(boundary))
    ensures var d := Drain(lead + FromDelimiter(boundary, parts), Delimiter(boundary));
            d.items == [] || d.items[0] != parts[0]
  {
    var pat, id, content := Delimiter(boundary), parts[0].0, parts[0].1;
    FindNothing(content, pat);
    var k := Find(content, pat).value;
    StrayCut(boundary, lead, parts, k);
    DrainFirst(lead + FromDelimiter(boundary, parts), pat);
    ShortPart(boundary, id, content, k);
  }

  lemma {:induction false} ShortPart(boundary: Text, id: Text, content: Bytes, k: nat)
    requires Carriable(boundary, id) && k <= |content| && Find(content, Delimiter(boundary)) == Some(k)
    ensures var p := ProcessPart(Header(id) + DOUBLE_CRLF + content[..k]);
            p.Failed? || (p.Item? && p.id == id && |p.content| < |content|)
  {
    PartReads(boundary, id, content[..k]);
  }

  /** With ids a header can carry, a body is read back exactly when no content holds the delimiter. */
  lemma {:induction false} FramingExact(boundary: Text, lead: Bytes, parts: seq<Part>)
    requires boundary != [] && Alphanumeric(boundary) && (lead == [] || lead == CRLF)
    requires forall p | p in parts :: Carriable(boundary, p.0)
    ensures var d := Drain(lead + FromDelimiter(boundary, parts), Delimiter(boundary));
            d.items == parts && d.fault == None <==> forall p | p in parts :: Absent(p.1, Delimiter(boundary))
    decreases parts
  {
    if Framable(boundary, parts) {
      FramingRoundTrip(boundary, lead, parts);
    } else if !Absent(parts[0].1, Delimiter(boundary)) {
      StrayDelimiterBreaks(boundary, lead, parts);
    } else {
      var id, content, rest := parts[0].0, parts[0].1, parts[1..];
      assert parts == [parts[0]] + rest;
      FramingExact(boundary, [], rest);
      assert [] + FromDelimiter(boundary, rest) == FromDelimiter(boundary, rest);
      FirstSectionReads(boundary, lead, parts);
    }
  }

  /** A sound first section is read whatever follows. */
  lemma {:induction false} FirstSectionReads(boundary: Text, lead: Bytes, parts: seq<Part>)
    requires boundary != [] && Alphanumeric(boundary) && (lead == [] || lead == CRLF)
    requires parts != [] && Carriable(boundary, parts[0].0) && Absent(parts[0].1, Delimiter(boundary))
    ensures var d := Drain(FromDelimiter(boundary, parts[1..]), Delimiter(boundary));
            Drain(lead + FromDelimiter(boundary, parts), Delimiter(boundary)) == d.(items := [parts[0]] + d.items)
  {
    var id, content, next := parts[0].0, parts[0].1, FromDelimiter(boundary, parts[1..]);
    SectionCut(boundary, lead, parts);
    SectionReads(boundary, id, content);
    DrainItem(lead + FromDelimiter(boundary, parts), Delimiter(boundary),
              Header(id) + DOUBLE_CRLF + content + CRLF, next, id, content);
  }

  /** The same, for the whole body as it is sent. */
  lemma BodyReads(boundary: Text, parts: seq<Part>)
    requires Framable(boundary, parts)
    ensures var d := Drain(Body(boundary, parts), Delimiter(boundary));
            d.items == parts && d.fault == None
  {
    BodyFromDelimiter(boundary, parts);
    FramingRoundTrip(boundary, CRLF, parts);
  }

  /**
   What the reader takes out of a body when the first content to hold the delimiter is the `n`-th, at `k`. Up
   to it all is read as it was put in. Of that content the reader yields what comes before the delimiter,
   less two bytes; and if there are no two bytes before it, the reader panics.
   */
  ghost predicate Garbled(d: Drained, parts: seq<Part>, n: nat, k: nat)
    requires n < |parts| && k <= |parts[n].1|
  {
    parts[..n] <= d.items &&
    if k < 2 then d.items == parts[..n] && d.fault == Some(SlicePanic)
    else |d.items| > n && d.items[n] == (parts[n].0, parts[n].1[..k - 2])
  }

  lemma GarbledCons(d: Drained, parts: seq<Part>, n: nat, k: nat)
    requires 0 < n < |parts| && k <= |parts[n].1| && Garbled(d, parts[1..], n - 1, k)
    ensures Garbled(d.(items := [parts[0]] + d.items), parts, n, k)
  {
    assert parts[..n] == [parts[0]] + parts[1..][..n - 1];
  }

  lemma ShortPartReads(boundary: Text, id: Text, content: Bytes, k: nat)
    requires Carriable(boundary, id) && k <= |content|
    ensures ProcessPart(Header(id) + DOUBLE_CRLF + content[..k]) ==
            if k >= 2 then Item(id, content[..k - 2]) else Failed(SlicePanic)
  {
    PartReads(boundary, id, content[..k]);
    assert k >= 2 ==> content[..k][..k - 2] == content[..k - 2];
  }

  lemma {:induction false} GarbledFirst(buffer: Bytes, pat: Bytes, parts: seq<Part>, k: nat, part: Bytes, next: Bytes)
    requires pat != [] && parts != [] && k <= |parts[0].1| && ExtractNextPart(buffer, pat) == Cut(part, next)
    requires ProcessPart(part) == if k >= 2 then Item(parts[0].0, parts[0].1[..k - 2]) else Failed(SlicePanic)
    ensures Garbled(Drain(buffer, pat), parts, 0, k)
  {
    DrainFirst(buffer, pat);
  }

  lemma DelimiterNotEmpty(boundary: Text)
    ensures Delimiter(boundary) != []
  {
  }

  lemma {:induction false} StrayNow(boundary: Text, lead: Bytes, parts: seq<Part>, k: nat)
    requires boundary != [] && Alphanumeric(boundary) && (lead == [] || lead == CRLF)
    requires parts != [] && Carriable(boundary, parts[0].0) && Find(parts[0].1, Delimiter(boundary)) == Some(k)
    ensures k <= |parts[0].1| && Garbled(Drain(lead + FromDelimiter(boundary, parts), Delimiter(boundary)), parts, 0, k)
  {
    hide Drain, ExtractNextPart, ProcessPart, FromDelimiter, Header, Garbled, Delimiter;
    var id, content := parts[0].0, parts[0].1;
    DelimiterNotEmpty(boundary);
    StrayCut(boundary, lead, parts, k);
    ShortPartReads(boundary, id, content, k);
    GarbledFirst(lead + FromDelimiter(boundary, parts), Delimiter(boundary), parts, k,
                 Header(id) + DOUBLE_CRLF + content[..k], content[k..] + (CRLF + FromDelimiter(boundary, parts[1..])));
  }

  lemma {:induction false} StrayExact(boundary: Text, lead: Bytes, parts: seq<Part>, n: nat, k: nat)
    requires boundary != [] && Alphanumeric(boundary) && (lead == [] || lead == CRLF)
    requires forall p | p in parts :: Carriable(boundary, p.0)
    requires n < |parts| && forall i | 0 <= i < n :: Absent(parts[i].1, Delimiter(boundary))
    requires Find(parts[n].1, Delimiter(boundary)) == Some(k)
    ensures k <= |parts[n].1| && Garbled(Drain(lead + FromDelimiter(boundary, parts), Delimiter(boundary)), parts, n, k)
    decreases n
  {
    hide Drain, FromDelimiter, Garbled, Delimiter, Carriable, Absent;
    DelimiterNotEmpty(boundary);
    if n == 0 {
      StrayNow(boundary, lead, parts, k);
    } else {
      var next := FromDelimiter(boundary, parts[1..]);
      FirstSectionReads(boundary, lead, parts);
      StrayExact(boundary, [], parts[1..], n - 1, k);
      assert [] + next == next;
      GarbledCons(Drain(next, Delimiter(boundary)), parts, n, k);
    }
  }

  /** So a chunk that begins with the delimiter, or has it one byte in, makes the reader of its body panic. */
  lemma BodyPanics(boundary: Text, parts: seq<Part>, n: nat, k: nat)
    requires boundary != [] && Alphanumeric(boundary) && forall p | p in parts :: Carriable(boundary, p.0)
    requires n < |parts| && forall i | 0 <= i < n :: Absent(parts[i].1, Delimiter(boundary))
    requires Find(parts[n].1, Delimiter(boundary)) == Some(k) && k < 2
    ensures var d := Drain(Body(boundary, parts), Delimiter(boundary)); d.items == parts[..n] && d.fault == Some(SlicePanic)
  {
    BodyFromDelimiter(boundary, parts);
    StrayExact(boundary, CRLF, parts, n, k);
  }

  lemma {:induction false} ServedMembers(store: Blobs, ids: seq<Text>)
    ensures forall p | p in Served(store, ids) :: p.0 in ids && p.0 in store && p.1 == store[p.0]
    ensures (forall id | id in ids :: id in store) ==> forall id | id in ids :: exists p | p in Served(store, ids) :: p.0 == id
  {
    if ids != [] && ids[0] in store {
      ServedMembers(store, ids[1..]);
      var rest := Served(store, ids[1..]);
      if forall id | id in ids :: id in store {
        forall id | id in ids
          ensures exists p | p in Served(store, ids) :: p.0 == id
        {
          if id == ids[0] {
            assert Served(store, ids)[0].0 == id;
          } else {
            assert id in ids[1..];
            var p :| p in rest && p.0 == id;
            assert p in Served(store, ids);
          }
        }
      }
    }
  }
}
