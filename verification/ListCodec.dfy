/** Rust's `join(sep)` and `split(sep)`, as used for `chunk_ids` (comma) and for paths (slash). */
module ListCodec {
  import opened Octets

  function Join(parts: seq<Text>, sep: byte): Text {
    if parts == [] then []
    else if |parts| == 1 then parts[0]
    else parts[0] + [sep] + Join(parts[1..], sep)
  }

  /** Never empty: the empty text splits into one empty piece. */
  function Split(s: Text, sep: byte): (parts: seq<Text>)
    ensures |parts| > 0
  {
    if s == [] then [[]]
    else
      var rest := Split(s[1..], sep);
      if s[0] == sep then [[]] + rest else [[s[0]] + rest[0]] + rest[1..]
  }

  ghost predicate Free(parts: seq<Text>, sep: byte) {
    forall p | p in parts :: sep !in p
  }

  lemma {:induction false} SplitIsFree(s: Text, sep: byte)
    ensures Free(Split(s, sep), sep)
  {
    if s != [] {
      SplitIsFree(s[1..], sep);
    }
  }

  /** Joining what was split gives the text back, whatever the text. */
  lemma {:induction false} JoinAfterSplit(s: Text, sep: byte)
    ensures Join(Split(s, sep), sep) == s
  {
    if s != [] {
      JoinAfterSplit(s[1..], sep);
      var rest := Split(s[1..], sep);
      var all := Split(s, sep);
      if s[0] == sep {
        assert all[1..] == rest;
      } else if |rest| > 1 {
        assert all[1..] == rest[1..];
      }
    }
  }

  lemma {:induction false} SplitPiece(p: Text, sep: byte)
    requires sep !in p
    ensures Split(p, sep) == [p]
  {
    if p != [] {
      SplitPiece(p[1..], sep);
      assert [p[0]] + p[1..] == p;
    }
  }

  lemma {:induction false} SplitHead(p: Text, rest: Text, sep: byte)
    requires sep !in p
    ensures Split(p + [sep] + rest, sep) == [p] + Split(rest, sep)
  {
    var s := p + [sep] + rest;
    if p == [] {
      assert s[1..] == rest;
    } else {
      assert s[1..] == p[1..] + [sep] + rest;
      SplitHead(p[1..], rest, sep);
      assert [p[0]] + p[1..] == p;
    }
  }

  lemma {:induction false} SplitAfterJoin(parts: seq<Text>, sep: byte)
    requires parts != [] && Free(parts, sep)
    ensures Split(Join(parts, sep), sep) == parts
  {
    if |parts| == 1 {
      SplitPiece(parts[0], sep);
    } else {
      SplitAfterJoin(parts[1..], sep);
      SplitHead(parts[0], Join(parts[1..], sep), sep);
    }
  }

  /** The codec loses exactly the empty list and pieces that hold the separator. */
  lemma {:induction false} SplitJoinExact(parts: seq<Text>, sep: byte)
    ensures Split(Join(parts, sep), sep) == parts <==> parts != [] && Free(parts, sep)
    ensures parts == [] ==> Split(Join(parts, sep), sep) == [[]]
  {
    SplitIsFree(Join(parts, sep), sep);
    if parts != [] && Free(parts, sep) {
      SplitAfterJoin(parts, sep);
    }
  }
}
