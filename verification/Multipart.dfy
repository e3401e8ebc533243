/**
 The client's hand-written reader of batch downloads (client/src/remote.rs): a buffer that grows with
 whatever the network delivers, cut at each `--boundary`.
 */
module Multipart {
  import opened Octets

  const CRLF: Bytes := [CR, LF]
  const DOUBLE_CRLF: Bytes := [CR, LF, CR, LF]
  const COLON_SPACE: Bytes := [58, 32]
  const ID_PREFIX: Bytes := Ascii("X-Chunk-ID:")

  /** `pat` occurs in `data` at `i`. */
  predicate At(data: Bytes, pat: Bytes, i: nat) {
    i <= |data| && pat <= data[i..]
  }

  ghost predicate Absent(data: Bytes, pat: Bytes) {
    forall i: nat :: !At(data, pat, i)
  }

  /** `windows(pat.len()).position(..)`. */
  function Find(data: Bytes, pat: Bytes): (r: Option<nat>)
    requires pat != []
    ensures r.Some? ==> r.value + |pat| <= |data|
  {
    if |data| < |pat| then None
    else if pat <= data then Some(0)
    else
      match Find(data[1..], pat)
      case None => None
      case Some(k) => Some(k + 1)
  }

  /** `Find` answers with `k` exactly when the first occurrence is at `k`. */
  lemma {:induction false} FindMeaning(data: Bytes, pat: Bytes, k: nat)
    requires pat != []
    ensures Find(data, pat) == Some(k) <==> At(data, pat, k) && forall i: nat | i < k :: !At(data, pat, i)
    decreases |data|
  {
    if |data| >= |pat| {
      assert data[0..] == data;
      assert At(data, pat, 0) <==> pat <= data;
      if k > 0 && !(pat <= data) {
        FindMeaning(data[1..], pat, k - 1);
        forall i: nat | i > 0
          ensures At(data, pat, i) <==> At(data[1..], pat, i - 1)
        {
          AtShift(data, pat, i);
        }
        if forall i: nat | i < k :: !At(data, pat, i) {
          forall i: nat | i < k - 1
            ensures !At(data[1..], pat, i)
          {
            assert !At(data, pat, i + 1);
          }
        }
      }
    }
  }

  lemma AtShift(data: Bytes, pat: Bytes, i: nat)
    requires i > 0 && data != []
    ensures At(data, pat, i) <==> At(data[1..], pat, i - 1)
  {
    if i <= |data| {
      assert data[1..][i - 1..] == data[i..];
    }
  }

  lemma {:induction false} FindNothing(data: Bytes, pat: Bytes)
    requires pat != []
    ensures Find(data, pat).None? <==> Absent(data, pat)
  {
    if Find(data, pat).Some? {
      FindMeaning(data, pat, Find(data, pat).value);
    } else if k: nat :| At(data, pat, k) {
      FirstOccurrence(data, pat, k);
    }
  }

  lemma {:induction false} FirstOccurrence(data: Bytes, pat: Bytes, k: nat)
    requires pat != [] && At(data, pat, k)
    ensures Find(data, pat).Some?
  {
    if j: nat :| j < k && At(data, pat, j) {
      FirstOccurrence(data, pat, j);
    } else {
      FindMeaning(data, pat, k);
    }
  }

  datatype Extracted = NeedMore | Cut(part: Bytes, remaining: Bytes)

  /** `extract_next_part`: what lies between the first two boundaries, and the rest from the second on. */
  function ExtractNextPart(buffer: Bytes, boundary: Bytes): (r: Extracted)
    requires boundary != []
    ensures r.Cut? ==> |r.remaining| < |buffer|
  {
    match Find(buffer, boundary)
    case None => NeedMore
    case Some(start) =>
      var after := buffer[start + |boundary|..];
      match Find(after, boundary)
      case None => NeedMore
      case Some(next) => Cut(after[..next], after[next..])
  }

  /** The length of the UTF-8 encoded character the bytes start with, or zero when there is none. */
  function CharLength(b: Bytes): (n: nat)
    ensures n <= |b|
  {
    if b == [] then 0
    else if b[0] < 0x80 then 1
    else if 0xC2 <= b[0] <= 0xDF && |b| >= 2 && Tail(b[1]) then 2
    else if 0xE0 <= b[0] <= 0xEF && |b| >= 3 && Tail(b[1]) && Tail(b[2]) &&
            (b[0] == 0xE0 ==> b[1] >= 0xA0) && (b[0] == 0xED ==> b[1] <= 0x9F) then 3
    else if 0xF0 <= b[0] <= 0xF4 && |b| >= 4 && Tail(b[1]) && Tail(b[2]) && Tail(b[3]) &&
            (b[0] == 0xF0 ==> b[1] >= 0x90) && (b[0] == 0xF4 ==> b[1] <= 0x8F) then 4
    else 0
  }

  predicate Tail(b: byte) {
    0x80 <= b <= 0xBF
  }

  /** `str::from_utf8` accepts the bytes. */
  predicate ValidUtf8(b: Bytes) {
    b == [] || (CharLength(b) > 0 && ValidUtf8(b[CharLength(b)..]))
  }

  /** `lines()`: ends at a newline, a carriage return just before it dropped, no empty line at the end. */
  function HeaderLines(s: Text): seq<Text> {
    if s == [] then []
    else
      match Find(s, [LF])
      case None => [s]
      case Some(k) => [if k > 0 && s[k - 1] == CR then s[..k - 1] else s[..k]] + HeaderLines(s[k + 1..])
  }

  function FirstIdLine(lines: seq<Text>): Option<Text> {
    if lines == [] then None
    else if ID_PREFIX <= lines[0] then Some(lines[0])
    else FirstIdLine(lines[1..])
  }

  /** `split(": ").nth(1)`. */
  function SecondPiece(line: Text): Option<Text> {
    match Find(line, COLON_SPACE)
    case None => None
    case Some(k) =>
      var rest := line[k + 2..];
      match Find(rest, COLON_SPACE)
      case None => Some(rest)
      case Some(m) => Some(rest[..m])
  }

  /** The length of the white-space character the text starts with, or zero. */
  function LeadSpace(t: Text): (n: nat)
    ensures n <= |t|
  {
    if |t| >= 1 && (9 <= t[0] <= 13 || t[0] == 32) then 1
    else if |t| >= 2 && t[0] == 0xC2 && (t[1] == 0x85 || t[1] == 0xA0) then 2
    else if |t| >= 3 && t[0] == 0xE1 && t[1] == 0x9A && t[2] == 0x80 then 3
    else if |t| >= 3 && t[0] == 0xE2 && t[1] == 0x80 &&
            (0x80 <= t[2] <= 0x8A || t[2] == 0xA8 || t[2] == 0xA9 || t[2] == 0xAF) then 3
    else if |t| >= 3 && t[0] == 0xE2 && t[1] == 0x81 && t[2] == 0x9F then 3
    else if |t| >= 3 && t[0] == 0xE3 && t[1] == 0x80 && t[2] == 0x80 then 3
    else 0
  }

  /** The length of the white-space character the text ends with, or zero. */
  function TailSpace(t: Text): (n: nat)
    ensures n <= |t|
  {
    if |t| >= 1 && LeadSpace(t[|t| - 1..]) == 1 then 1
    else if |t| >= 2 && LeadSpace(t[|t| - 2..]) == 2 then 2
    else if |t| >= 3 && LeadSpace(t[|t| - 3..]) == 3 then 3
    else 0
  }

  function TrimStart(t: Text): Text
    decreases |t|
  {
    if LeadSpace(t) > 0 then TrimStart(t[LeadSpace(t)..]) else t
  }

  function TrimEnd(t: Text): Text
    decreases |t|
  {
    if TailSpace(t) > 0 then TrimEnd(t[..|t| - TailSpace(t)]) else t
  }

  datatype Fault = BadPart | SlicePanic

  datatype Processed = NotAPart | Item(id: Text, content: Bytes) | Failed(fault: Fault)

  /** The id a header block names. */
  function HeaderId(headers: Bytes): Option<Text> {
    if !ValidUtf8(headers) then None
    else
      match FirstIdLine(HeaderLines(headers))
      case None => None
      case Some(line) =>
        match SecondPiece(line)
        case None => None
        case Some(id) => Some(TrimEnd(TrimStart(id)))
  }

  /** `process_part`. The last two bytes are taken off unseen; cutting them out of the header panics. */
  function ProcessPart(part: Bytes): Processed {
    match Find(part, DOUBLE_CRLF)
    case None => NotAPart
    case Some(headersEnd) =>
      match HeaderId(part[..headersEnd])
      case None => Failed(BadPart)
      case Some(id) =>
        if headersEnd + 4 <= |part| - 2 then Item(id, part[headersEnd + 4..|part| - 2])
        else Failed(SlicePanic)
  }

  /** What a reader takes out of a buffer: the items, what stays, and the fault that ends it, if any. */
  datatype Drained = Drained(items: seq<(Text, Bytes)>, rest: Bytes, fault: Option<Fault>)

  /** All complete parts taken out of a buffer at once. */
  function Drain(buffer: Bytes, boundary: Bytes): Drained
    requires boundary != []
    decreases |buffer|
  {
    match ExtractNextPart(buffer, boundary)
    case NeedMore => Drained([], buffer, None)
    case Cut(part, remaining) =>
      match ProcessPart(part)
      case Failed(fault) => Drained([], buffer, Some(fault))
      case NotAPart => Drain(remaining, boundary)
      case Item(id, content) =>
        var d := Drain(remaining, boundary);
        d.(items := [(id, content)] + d.items)
  }

  /** More bytes at the end do not move an occurrence that was found. */
  lemma {:induction false} FindExtended(a: Bytes, b: Bytes, pat: Bytes)
    requires pat != [] && Find(a, pat).Some?
    ensures Find(a + b, pat) == Find(a, pat)
    decreases |a|
  {
    if !(pat <= a) {
      assert (a + b)[1..] == a[1..] + b;
      FindExtended(a[1..], b, pat);
    }
  }

  lemma Slices(a: Bytes, b: Bytes, n: nat)
    requires n <= |a|
    ensures (a + b)[..n] == a[..n] && (a + b)[n..] == a[n..] + b
  {
  }

  /** Nor do they change a part that was already complete. */
  lemma ExtractExtended(a: Bytes, b: Bytes, boundary: Bytes)
    requires boundary != [] && ExtractNextPart(a, boundary).Cut?
    ensures var r := ExtractNextPart(a, boundary);
            ExtractNextPart(a + b, boundary) == Cut(r.part, r.remaining + b)
  {
    FindExtended(a, b, boundary);
    var from := Find(a, boundary).value + |boundary|;
    Slices(a, b, from);
    FindExtended(a[from..], b, boundary);
    Slices(a[from..], b, Find(a[from..], boundary).value);
  }

  /** Taking one complete part out of a buffer first, and draining the rest with what comes later. */
  lemma {:induction false} DrainOne(a: Bytes, b: Bytes, boundary: Bytes)
    requires boundary != [] && ExtractNextPart(a, boundary).Cut?
    ensures var r, all := ExtractNextPart(a, boundary), Drain(a + b, boundary);
            match ProcessPart(r.part)
            case Failed(fault) => all.items == [] && all.fault == Some(fault)
            case NotAPart => all == Drain(r.remaining + b, boundary)
            case Item(id, content) =>
              var d := Drain(r.remaining + b, boundary);
              all == d.(items := [(id, content)] + d.items)
  {
    ExtractExtended(a, b, boundary);
  }

  /** `whole` takes out what `first` does and goes on like `more`. */
  ghost predicate Chained(first: Drained, more: Drained, whole: Drained) {
    if first.fault.Some? then whole.items == first.items && whole.fault == first.fault
    else whole.items == first.items + more.items && whole.fault == more.fault && whole.rest == more.rest
  }

  function WithItem(d: Drained, p: Processed): Drained {
    if p.Item? then d.(items := [(p.id, p.content)] + d.items) else d
  }

  lemma ChainedWithItem(first: Drained, more: Drained, whole: Drained, p: Processed)
    requires Chained(first, more, whole)
    ensures Chained(WithItem(first, p), more, WithItem(whole, p))
  {
    if p.Item? {
      assert [(p.id, p.content)] + (first.items + more.items) == [(p.id, p.content)] + first.items + more.items;
    }
  }

  /** Draining a buffer that has a complete part in front. */
  lemma {:induction false} DrainFirst(a: Bytes, boundary: Bytes)
    requires boundary != [] && ExtractNextPart(a, boundary).Cut?
    ensures var r := ExtractNextPart(a, boundary);
            var p := ProcessPart(r.part);
            Drain(a, boundary) == if p.Failed? then Drained([], a, Some(p.fault)) else WithItem(Drain(r.remaining, boundary), p)
  {
  }

  /** Draining now and again when more has come is draining once at the end. */
  lemma {:induction false} DrainExtended(a: Bytes, b: Bytes, boundary: Bytes)
    requires boundary != []
    ensures var d := Drain(a, boundary);
            Chained(d, Drain(d.rest + b, boundary), Drain(a + b, boundary))
    decreases |a|
  {
    var r := ExtractNextPart(a, boundary);
    if r.Cut? {
      DrainFirst(a, boundary);
      ExtractExtended(a, b, boundary);
      DrainFirst(a + b, boundary);
      if !ProcessPart(r.part).Failed? {
        DrainExtended(r.remaining, b, boundary);
        var d := Drain(r.remaining, boundary);
        ChainedWithItem(d, Drain(d.rest + b, boundary), Drain(r.remaining + b, boundary), ProcessPart(r.part));
      }
    }
  }

  /** Items taken so far, and a buffer still to drain with what comes later, make up the whole. */
  ghost predicate Towards(all: Drained, items: seq<(Text, Bytes)>, buffer: Bytes, later: Bytes, boundary: Bytes)
    requires boundary != []
  {
    var d := Drain(buffer + later, boundary);
    items + d.items == all.items && d.fault == all.fault
  }

  lemma TowardsOne(all: Drained, items: seq<(Text, Bytes)>, buffer: Bytes, later: Bytes, boundary: Bytes)
    requires boundary != [] && ExtractNextPart(buffer, boundary).Cut?
    requires Towards(all, items, buffer, later, boundary)
    ensures var next := ExtractNextPart(buffer, boundary);
            match ProcessPart(next.part)
            case Failed(why) => all.items == items && all.fault == Some(why)
            case NotAPart => Towards(all, items, next.remaining, later, boundary)
            case Item(id, content) => Towards(all, items + [(id, content)], next.remaining, later, boundary)
  {
    DrainOne(buffer, later, boundary);
    var next := ExtractNextPart(buffer, boundary);
    match ProcessPart(next.part)
    case Failed(_) =>
    case NotAPart =>
    case Item(id, content) =>
      var d := Drain(next.remaining + later, boundary);
      assert items + ([(id, content)] + d.items) == items + [(id, content)] + d.items;
  }

  /**
   `download_batch`'s buffer loop. However the network cuts the body, it yields what parsing the whole
   body at once yields, and stops at the same fault.
   */
  method DownloadBatch(network: seq<Bytes>, boundary: Bytes)
    returns (items: seq<(Text, Bytes)>, fault: Option<Fault>)
    requires boundary != []
    ensures var all := Drain(Concat(network), boundary);
            items == all.items && fault == all.fault
  {
    var buffer: Bytes := [];
    items := [];
    ghost var all := Drain(Concat(network), boundary);
    var i := 0;
    assert [] + Concat(network[0..]) == Concat(network) by {
      assert network[0..] == network;
    }
    while i < |network|
      invariant 0 <= i <= |network|
      invariant ExtractNextPart(buffer, boundary).NeedMore?
      invariant Towards(all, items, buffer, Concat(network[i..]), boundary)
    {
      ghost var later := Concat(network[i + 1..]);
      assert buffer + Concat(network[i..]) == buffer + network[i] + later by {
        assert network[i..][1..] == network[i + 1..];
      }
      buffer := buffer + network[i];
      while true
        invariant Towards(all, items, buffer, later, boundary)
        decreases |buffer|
      {
        var next := ExtractNextPart(buffer, boundary);
        if next.NeedMore? {
          break;
        }
        TowardsOne(all, items, buffer, later, boundary);
        match ProcessPart(next.part)
        case Failed(why) =>
          return items, Some(why);
        case NotAPart =>
          buffer := next.remaining;
        case Item(id, content) =>
          items := items + [(id, content)];
          buffer := next.remaining;
      }
      i := i + 1;
    }
    assert buffer + Concat(network[i..]) == buffer;
    fault := None;
  }
}
