/**
 The URL-encoded forms a client posts with `commit` and with a batch download (client/src/remote.rs),
 the limit the server puts on them, and how it reads a download form (server/src/chunks/mod.rs).
 */
module Forms {
  import opened Octets
  import opened Paths
  import ListCodec

  /** A longer form is answered with 413 before its handler runs. */
  const FORM_LIMIT: nat := 1024 * 1024

  const SPACE: byte := 32
  const PERCENT: byte := 37
  const AMPERSAND: byte := 38
  const PLUS: byte := 43
  const EQUALS: byte := 61

  /** Bytes that stand for themselves. */
  predicate Plain(b: byte) {
    b == 42 || b == DASH || b == DOT || b == 95 || 48 <= b <= 57 || 65 <= b <= 90 || 97 <= b <= 122
  }

  predicate AllPlain(t: Text) {
    forall i | 0 <= i < |t| :: Plain(t[i])
  }

  function HexDigit(n: nat): byte
    requires n < 16
  {
    if n < 10 then (48 + n) as byte else (55 + n) as byte
  }

  function HexValue(b: byte): Option<nat> {
    if 48 <= b <= 57 then Some(b as int - 48)
    else if 65 <= b <= 70 then Some(b as int - 55)
    else if 97 <= b <= 102 then Some(b as int - 87)
    else None
  }

  function EncodedByte(b: byte): Text {
    if Plain(b) then [b]
    else if b == SPACE then [PLUS]
    else [PERCENT, HexDigit(b as int / 16), HexDigit(b as int % 16)]
  }

  function Encoded(t: Text): Text {
    if t == [] then [] else EncodedByte(t[0]) + Encoded(t[1..])
  }

  /** The byte of an escape, if the text starts with one. */
  function Escape(t: Text): Option<byte> {
    if |t| < 3 || t[0] != PERCENT || HexValue(t[1]).None? || HexValue(t[2]).None? then None
    else
      var n := 16 * HexValue(t[1]).value + HexValue(t[2]).value;
      if n < 256 then Some(n as byte) else None
  }

  function Decoded(t: Text): Text
    decreases |t|
  {
    if t == [] then []
    else if Escape(t).Some? then [Escape(t).value] + Decoded(t[3..])
    else [if t[0] == PLUS then SPACE else t[0]] + Decoded(t[1..])
  }

  lemma HexDigitReads(n: nat)
    requires n < 16
    ensures HexValue(HexDigit(n)) == Some(n)
    ensures HexDigit(n) != AMPERSAND && HexDigit(n) != EQUALS
  {
  }

  /** An escape is read with letters in either case. */
  lemma {:induction false} EscapeReads(hi: byte, lo: byte, rest: Text)
    requires HexLetter(hi) && HexLetter(lo)
    ensures Escape([37, hi, lo] + rest) == Some((16 * LetterValue(hi) + LetterValue(lo)) as byte)
  {
  }

  predicate HexLetter(b: byte) {
    '0' as int <= b as int <= '9' as int || 'a' as int <= b as int <= 'f' as int || 'A' as int <= b as int <= 'F' as int
  }

  function LetterValue(b: byte): (n: nat)
    requires HexLetter(b)
    ensures n < 16
  {
    if b as int <= '9' as int then b as int - '0' as int
    else if b as int <= 'F' as int then b as int - 'A' as int + 10
    else b as int - 'a' as int + 10
  }

  lemma {:induction false} EncodedByteReads(b: byte, rest: Text)
    ensures Decoded(EncodedByte(b) + rest) == [b] + Decoded(rest)
  {
    var t := EncodedByte(b) + rest;
    if Plain(b) || b == SPACE {
      assert t[1..] == rest;
    } else {
      HexDigitReads(b as int / 16);
      HexDigitReads(b as int % 16);
      assert t[3..] == rest;
    }
  }

  /** What is encoded is decoded again, and holds no separator. */
  lemma {:induction false} EncodedReads(t: Text)
    ensures Decoded(Encoded(t)) == t
    ensures AMPERSAND !in Encoded(t) && EQUALS !in Encoded(t)
  {
    if t != [] {
      EncodedReads(t[1..]);
      EncodedByteReads(t[0], Encoded(t[1..]));
      HexDigitReads(t[0] as int / 16);
      HexDigitReads(t[0] as int % 16);
    }
  }

  lemma {:induction false} EncodedAppend(a: Text, b: Text)
    ensures Encoded(a + b) == Encoded(a) + Encoded(b)
  {
    if a == [] {
      assert a + b == b;
    } else {
      assert (a + b)[1..] == a[1..] + b;
      EncodedAppend(a[1..], b);
    }
  }

  lemma {:induction false} EncodedPlain(t: Text)
    requires AllPlain(t)
    ensures Encoded(t) == t
  {
    if t != [] {
      EncodedPlain(t[1..]);
    }
  }

  const DELETED_TRUE: Text := Ascii("deleted=true")
  const DELETED_FALSE: Text := Ascii("deleted=false")
  const AND_CHUNK_IDS: Text := Ascii("&chunk_ids=")
  const AND_PATH: Text := Ascii("&path=")

  /** The body of a `commit` request. */
  function CommitForm(path: Path, deleted: bool, chunkIds: Text): Text {
    (if deleted then DELETED_TRUE else DELETED_FALSE) + AND_CHUNK_IDS + Encoded(chunkIds) + AND_PATH + Encoded(Slashed(path))
  }

  predicate CommitFits(path: Path, deleted: bool, chunkIds: Text) {
    |CommitForm(path, deleted, chunkIds)| <= FORM_LIMIT
  }

  lemma {:induction false} CommitFormLength(path: Path, deleted: bool, chunkIds: Text)
    ensures |CommitForm(path, deleted, chunkIds)| ==
            (if deleted then 29 else 30) + |Encoded(chunkIds)| + |Encoded(Slashed(path))|
  {
  }

  lemma OneMoreTimes(k: nat, n: nat)
    requires n > 0
    ensures k * n == k * (n - 1) + k
  {
  }

  lemma {:induction false} CommaLength(p: Text, rest: Text)
    requires AllPlain(p)
    ensures |Encoded(p + [COMMA] + rest)| == |p| + 3 + |Encoded(rest)|
  {
    EncodedPlain(p);
    EncodedAppend(p + [COMMA], rest);
    EncodedAppend(p, [COMMA]);
    assert |Encoded([COMMA])| == 3;
  }

  /** The comma, three bytes long in a form, comes between any two of the ids. */
  lemma {:induction false} JoinedLength(ids: seq<Text>, size: nat)
    requires ids != [] && forall id | id in ids :: |id| == size && AllPlain(id)
    ensures |Encoded(ListCodec.Join(ids, COMMA))| == (size + 3) * |ids| - 3
  {
    if |ids| == 1 {
      EncodedPlain(ids[0]);
    } else {
      JoinedLength(ids[1..], size);
      CommaLength(ids[0], ListCodec.Join(ids[1..], COMMA));
      OneMoreTimes(size + 3, |ids|);
    }
  }

  /** What the form's fields say when it is split at the ampersands and decoded: the three values, in order. */
  lemma {:induction false} CommitFormReads(path: Path, deleted: bool, chunkIds: Text)
    ensures Values(ListCodec.Split(CommitForm(path, deleted, chunkIds), AMPERSAND)) ==
            [if deleted then Ascii("true") else Ascii("false"), chunkIds, Slashed(path)]
  {
    var first := (if deleted then DELETED_TRUE else DELETED_FALSE);
    var second, third := CHUNK_IDS + [EQUALS] + Encoded(chunkIds), PATH + [EQUALS] + Encoded(Slashed(path));
    EncodedReads(chunkIds);
    EncodedReads(Slashed(path));
    FieldBytes();
    CommitFormFields(path, deleted, chunkIds);
    hide CommitForm, Encoded, Decoded, ListCodec.Split, Values, ValueOf, Slashed;
    hide AND_CHUNK_IDS, AND_PATH, CHUNK_IDS, PATH, DELETED_TRUE, DELETED_FALSE;
    ListCodec.SplitHead(first, second + [AMPERSAND] + third, AMPERSAND);
    ListCodec.SplitHead(second, third, AMPERSAND);
    ListCodec.SplitPiece(third, AMPERSAND);
    ValueFound(CHUNK_IDS, Encoded(chunkIds));
    ValueFound(PATH, Encoded(Slashed(path)));
    DeletedReads(deleted);
    ThreeValues(first, second, third);
  }

  lemma {:induction false} CommitFormFields(path: Path, deleted: bool, chunkIds: Text)
    ensures CommitForm(path, deleted, chunkIds) ==
            (if deleted then DELETED_TRUE else DELETED_FALSE) + [AMPERSAND] +
            (CHUNK_IDS + [EQUALS] + Encoded(chunkIds) + [AMPERSAND] + (PATH + [EQUALS] + Encoded(Slashed(path))))
  {
    hide Encoded, Slashed;
    FieldBytes();
    hide AND_CHUNK_IDS, AND_PATH, CHUNK_IDS, PATH, DELETED_TRUE, DELETED_FALSE;
  }

  lemma {:induction false} ThreeValues(a: Text, b: Text, c: Text)
    requires a != [] && b != [] && c != []
    ensures Values([a] + ([b] + [c])) == [Decoded(ValueOf(a)), Decoded(ValueOf(b)), Decoded(ValueOf(c))]
  {
    ValuesCons(c, []);
    ValuesCons(b, [c]);
    ValuesCons(a, [b] + [c]);
    assert [c] + [] == [c];
  }

  const CHUNK_IDS: Text := Ascii("chunk_ids")
  const PATH: Text := Ascii("path")

  lemma {:induction false} FieldBytes()
    ensures AND_CHUNK_IDS == [AMPERSAND] + CHUNK_IDS + [EQUALS] && AND_PATH == [AMPERSAND] + PATH + [EQUALS]
    ensures AMPERSAND !in CHUNK_IDS && EQUALS !in CHUNK_IDS && AMPERSAND !in PATH && EQUALS !in PATH
    ensures AMPERSAND !in DELETED_TRUE && AMPERSAND !in DELETED_FALSE && DELETED_TRUE != [] && DELETED_FALSE != []
  {
  }

  lemma {:induction false} DeletedReads(deleted: bool)
    ensures Decoded(ValueOf(if deleted then DELETED_TRUE else DELETED_FALSE)) == if deleted then Ascii("true") else Ascii("false")
  {
    var key, value := Ascii("deleted"), if deleted then Ascii("true") else Ascii("false");
    assert (if deleted then DELETED_TRUE else DELETED_FALSE) == key + [EQUALS] + value;
    ValueFound(key, value);
    EncodedPlain(value);
    EncodedReads(value);
  }

  /** Letters, digits and four signs stand for themselves, a space is a plus, and any other byte takes three. */
  lemma {:induction false} EncodedOne(b: byte)
    ensures Encoded([b]) == [b] <==>
            'a' as int <= b as int <= 'z' as int || 'A' as int <= b as int <= 'Z' as int ||
            '0' as int <= b as int <= '9' as int || b as int in {'*' as int, '-' as int, '.' as int, '_' as int}
    ensures Encoded([32]) == [43]
    ensures Encoded([b]) != [b] && b != 32 ==> |Encoded([b])| == 3 && Encoded([b])[0] as int == '%' as int
  {
    assert [b][1..] == [];
    var space: Text := [32];
    assert space[1..] == [] && Encoded(space) == EncodedByte(32) + [];
  }

  const ID_KEY: Text := Ascii("chunk_ids%5B%5D")

  function IdPair(id: Text): Text {
    ID_KEY + [EQUALS] + Encoded(id)
  }

  function IdPairs(ids: seq<Text>): (pairs: seq<Text>)
    ensures |pairs| == |ids|
  {
    if ids == [] then [] else [IdPair(ids[0])] + IdPairs(ids[1..])
  }

  /** The body of a batch download request. */
  function DownloadForm(ids: seq<Text>): Text {
    ListCodec.Join(IdPairs(ids), AMPERSAND)
  }

  predicate DownloadFits(ids: seq<Text>) {
    |DownloadForm(ids)| <= FORM_LIMIT
  }

  /** What follows the first equals sign. */
  function ValueOf(pair: Text): Text {
    if pair == [] then [] else if pair[0] == EQUALS then pair[1..] else ValueOf(pair[1..])
  }

  function Values(pairs: seq<Text>): seq<Text> {
    if pairs == [] then []
    else (if pairs[0] == [] then [] else [Decoded(ValueOf(pairs[0]))]) + Values(pairs[1..])
  }

  /** `requested_chunks`: every value of the form, whatever its key. */
  function RequestedChunks(body: Text): seq<Text> {
    Values(ListCodec.Split(body, AMPERSAND))
  }

  lemma {:induction false} ValueFound(key: Text, value: Text)
    requires EQUALS !in key
    ensures ValueOf(key + [EQUALS] + value) == value
  {
    var pair := key + [EQUALS] + value;
    if key == [] {
      assert pair[1..] == value;
    } else {
      assert pair[0] == key[0] && key[0] in key;
      assert pair[1..] == key[1..] + [EQUALS] + value;
      ValueFound(key[1..], value);
    }
  }

  lemma KeyBytes()
    ensures AMPERSAND !in ID_KEY && EQUALS !in ID_KEY
  {
  }

  lemma IdPairReads(id: Text)
    ensures IdPair(id) != [] && Decoded(ValueOf(IdPair(id))) == id && AMPERSAND !in IdPair(id)
  {
    KeyBytes();
    EncodedReads(id);
    ValueFound(ID_KEY, Encoded(id));
  }

  lemma {:induction false} ValuesCons(pair: Text, pairs: seq<Text>)
    requires pair != []
    ensures Values([pair] + pairs) == [Decoded(ValueOf(pair))] + Values(pairs)
  {
    assert ([pair] + pairs)[1..] == pairs;
  }

  lemma FreeCons(pair: Text, pairs: seq<Text>, sep: byte)
    requires sep !in pair && ListCodec.Free(pairs, sep)
    ensures ListCodec.Free([pair] + pairs, sep)
  {
  }

  lemma {:induction false} IdPairsRead(ids: seq<Text>)
    ensures Values(IdPairs(ids)) == ids && ListCodec.Free(IdPairs(ids), AMPERSAND)
  {
    hide IdPair, Decoded, ValueOf;
    if ids != [] {
      IdPairReads(ids[0]);
      IdPairsRead(ids[1..]);
      ValuesCons(IdPair(ids[0]), IdPairs(ids[1..]));
      FreeCons(IdPair(ids[0]), IdPairs(ids[1..]), AMPERSAND);
    }
  }

  /** The server reads out of a download form exactly the ids the client asked for, in order. */
  lemma RequestedBack(ids: seq<Text>)
    ensures RequestedChunks(DownloadForm(ids)) == ids
  {
    IdPairsRead(ids);
    ListCodec.SplitJoinExact(IdPairs(ids), AMPERSAND);
    if ids == [] {
      assert Values([[]]) == [];
    }
  }

  lemma PairLength(id: Text)
    requires AllPlain(id)
    ensures |IdPair(id)| == 16 + |id|
  {
    EncodedPlain(id);
  }

  lemma {:induction false} JoinOneMore(first: Text, rest: seq<Text>, sep: byte)
    requires rest != []
    ensures |ListCodec.Join([first] + rest, sep)| == |first| + 1 + |ListCodec.Join(rest, sep)|
  {
    assert ([first] + rest)[1..] == rest;
  }

  lemma {:induction false} OneMorePair(ids: seq<Text>)
    requires ids != [] && AllPlain(ids[0])
    ensures |DownloadForm(ids)| == 16 + |ids[0]| + if |ids| > 1 then 1 + |DownloadForm(ids[1..])| else 0
  {
    PairLength(ids[0]);
    if |ids| > 1 {
      JoinOneMore(IdPair(ids[0]), IdPairs(ids[1..]), AMPERSAND);
    }
  }

  /** Each id costs its key, its own length and the separators. */
  lemma {:induction false} DownloadFormLength(ids: seq<Text>, least: nat, most: nat)
    requires ids != [] && forall id | id in ids :: least <= |id| <= most && AllPlain(id)
    ensures (least + 17) * |ids| - 1 <= |DownloadForm(ids)| <= (most + 17) * |ids| - 1
  {
    hide DownloadForm, AllPlain;
    assert ids[0] in ids && forall id | id in ids[1..] :: id in ids;
    OneMorePair(ids);
    if |ids| > 1 {
      DownloadFormLength(ids[1..], least, most);
      OneMoreBetween(least + 17, most + 17, |ids|, 17 + |ids[0]|, |DownloadForm(ids[1..])|);
    }
  }

  lemma {:induction false} OneMoreBetween(a: nat, b: nat, n: nat, one: nat, rest: nat)
    requires n > 1 && a <= one <= b && a * (n - 1) - 1 <= rest <= b * (n - 1) - 1
    ensures a * n - 1 <= one + rest <= b * n - 1
  {
    OneMoreTimes(a, n);
    OneMoreTimes(b, n);
  }

  /** With ids of one length it passes exactly up to the number that 1 MiB has room for. */
  lemma {:induction false} DownloadFitsExact(ids: seq<Text>, size: nat)
    requires ids != [] && forall id | id in ids :: |id| == size && AllPlain(id)
    ensures DownloadFits(ids) <==> (size + 17) * |ids| <= 1_048_577
  {
    hide DownloadForm, AllPlain;
    DownloadFormLength(ids, size, size);
  }

  /**
   A download form of hashes is sure to pass when it asks for at most 21,399 chunks, and sure to be
   refused when it asks for 38,837 or more.
   */
  lemma DownloadFormBounds(ids: seq<Text>)
    requires forall id | id in ids :: 10 <= |id| <= 32 && AllPlain(id)
    ensures |ids| <= 21_399 ==> DownloadFits(ids)
    ensures |ids| >= 38_837 ==> !DownloadFits(ids)
  {
    if ids != [] {
      DownloadFormLength(ids, 10, 32);
    }
  }
}
