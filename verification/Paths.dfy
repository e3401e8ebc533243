/** Relative paths and what their names say about a file (`is_text`, `is_binary`, `is_dot_dir`). */
module Paths {
  import opened Octets
  import ListCodec

  type Name = Text

  /** The names between slashes, from the storage root down; `[]` is the root itself. */
  type Path = seq<Name>

  function Parent(p: Path): Path
    requires p != []
  {
    p[..|p| - 1]
  }

  function FileName(p: Path): Name
    requires p != []
  {
    p[|p| - 1]
  }

  /** The form in which a path is sent to the server and kept in both databases. */
  function Slashed(p: Path): Text {
    ListCodec.Join(p, SLASH)
  }

  /** Distinct paths with slash-free, non-empty names stay distinct in their slashed form. */
  lemma SlashedInjective(p: Path, q: Path)
    requires ListCodec.Free(p, SLASH) && ListCodec.Free(q, SLASH)
    requires [] !in p && [] !in q
    ensures Slashed(p) == Slashed(q) <==> p == q
  {
    ListCodec.SplitJoinExact(p, SLASH);
    ListCodec.SplitJoinExact(q, SLASH);
    if p == [] && q != [] {
      assert q[0] in q;
    } else if q == [] && p != [] {
      assert p[0] in p;
    }
  }

  function Lower(b: byte): byte {
    if 65 <= b <= 90 then b + 32 else b
  }

  function ToAsciiLowercase(t: Text): Text {
    seq(|t|, i requires 0 <= i < |t| => Lower(t[i]))
  }

  /** What follows the last dot, unless there is no dot or it only opens the name. */
  function Extension(n: Name): Option<Text> {
    var pieces := ListCodec.Split(n, DOT);
    if |pieces| == 1 || (|pieces| == 2 && pieces[0] == []) then None
    else Some(pieces[|pieces| - 1])
  }

  predicate IsBinary(p: Path) {
    p != [] &&
    match Extension(FileName(p))
    case None => false
    case Some(e) => ToAsciiLowercase(e) in {Ascii("jpg"), Ascii("jpeg"), Ascii("png")}
  }

  predicate IsText(p: Path) {
    p != [] &&
    (FileName(p) in {Ascii(".shopping-list"), Ascii(".shopping-checked"), Ascii(".bookmarks")} ||
     match Extension(FileName(p))
     case None => false
     case Some(e) =>
       ToAsciiLowercase(e) in {Ascii("cook"), Ascii("conf"), Ascii("yaml"), Ascii("yml"),
                               Ascii("md"), Ascii("menu"), Ascii("jinja"), Ascii("j2")})
  }

  /** `filter_eligible`, symbolic links aside. */
  predicate Eligible(p: Path) {
    IsText(p) || IsBinary(p)
  }

  predicate DotName(n: Name) {
    n != [] && n[0] == DOT
  }

  /** Some directory on the way down to `p`, `p` itself excluded, is hidden. */
  predicate UnderDotDir(p: Path) {
    exists i | 0 <= i < |p| - 1 :: DotName(p[i])
  }

  /** A file here is seen by the indexer's walk. */
  predicate Scannable(p: Path) {
    Eligible(p) && !UnderDotDir(p)
  }

  /** The same letters as `w`, which is in lower case, in either case. */
  ghost predicate SameLetters(e: Text, w: string) {
    |e| == |w| &&
    forall i | 0 <= i < |w| :: e[i] as int == w[i] as int || ('a' <= w[i] <= 'z' && e[i] as int == w[i] as int - 32)
  }

  predicate LowerCase(w: string) {
    forall i | 0 <= i < |w| :: w[i] < 128 as char && !('A' <= w[i] <= 'Z')
  }

  lemma {:induction false} LowercaseExact(e: Text, w: string)
    requires LowerCase(w)
    ensures ToAsciiLowercase(e) == Ascii(w) <==> SameLetters(e, w)
  {
    if ToAsciiLowercase(e) == Ascii(w) {
      forall i | 0 <= i < |w|
        ensures e[i] as int == w[i] as int || ('a' <= w[i] <= 'z' && e[i] as int == w[i] as int - 32)
      {
        assert ToAsciiLowercase(e)[i] == Ascii(w)[i];
      }
    }
    if SameLetters(e, w) {
      forall i | 0 <= i < |w|
        ensures ToAsciiLowercase(e)[i] == Ascii(w)[i]
      {
      }
    }
  }

  lemma {:induction false} LastPiece(stem: Name, e: Text)
    requires DOT !in e
    ensures var pieces := ListCodec.Split(stem + [DOT] + e, DOT);
            |pieces| >= 2 && pieces[|pieces| - 1] == e &&
            (|pieces| == 2 ==> pieces[0] == stem)
  {
    var n := stem + [DOT] + e;
    if stem == [] {
      assert n[1..] == e;
      ListCodec.SplitPiece(e, DOT);
    } else {
      assert n[1..] == stem[1..] + [DOT] + e;
      LastPiece(stem[1..], e);
      assert stem == [stem[0]] + stem[1..];
    }
  }

  /** The extension is what follows the last dot, however many there are before it. */
  lemma {:induction false} ExtensionAfterLastDot(stem: Name, e: Text)
    requires stem != [] && DOT !in e
    ensures Extension(stem + [DOT] + e) == Some(e)
  {
    LastPiece(stem, e);
  }

  /** A name with no dot, or with none but a leading one, has no extension. */
  lemma {:induction false} NoExtension(n: Name)
    requires DOT !in n || (n[0] == DOT && DOT !in n[1..])
    ensures Extension(n) == None
  {
    if DOT !in n {
      ListCodec.SplitPiece(n, DOT);
    } else {
      ListCodec.SplitHead([], n[1..], DOT);
      ListCodec.SplitPiece(n[1..], DOT);
      assert n == [] + [DOT] + n[1..];
    }
  }

  /** Every other name is of the first kind. */
  lemma {:induction false} NameHasExtension(n: Name) returns (stem: Name, e: Text)
    requires DOT in n && !(n[0] == DOT && DOT !in n[1..])
    ensures n == stem + [DOT] + e && stem != [] && DOT !in e
  {
    assert n == [n[0]] + n[1..];
    if n[1] == DOT && DOT !in n[2..] {
      assert n[1..][1..] == n[2..];
      stem, e := [n[0]], n[2..];
    } else {
      assert n[1..][1..] == n[2..];
      var s;
      s, e := NameHasExtension(n[1..]);
      stem := [n[0]] + s;
    }
  }

  /** One of the three names that are text without an extension. */
  ghost predicate NamedText(n: Name) {
    n == Ascii(".shopping-list") || n == Ascii(".shopping-checked") || n == Ascii(".bookmarks")
  }

  ghost predicate TextExtension(e: Text) {
    SameLetters(e, "cook") || SameLetters(e, "conf") || SameLetters(e, "yaml") || SameLetters(e, "yml") ||
    SameLetters(e, "md") || SameLetters(e, "menu") || SameLetters(e, "jinja") || SameLetters(e, "j2")
  }

  ghost predicate BinaryExtension(e: Text) {
    SameLetters(e, "jpg") || SameLetters(e, "jpeg") || SameLetters(e, "png")
  }

  lemma {:induction false} LowercaseListed(e: Text)
    ensures TextExtension(e) <==>
            ToAsciiLowercase(e) in {Ascii("cook"), Ascii("conf"), Ascii("yaml"), Ascii("yml"),
                                    Ascii("md"), Ascii("menu"), Ascii("jinja"), Ascii("j2")}
    ensures ToAsciiLowercase(e) in {Ascii("jpg"), Ascii("jpeg"), Ascii("png")} <==> BinaryExtension(e)
  {
    hide ToAsciiLowercase, SameLetters, Ascii;
    LowercaseExact(e, "cook");
    LowercaseExact(e, "conf");
    LowercaseExact(e, "yaml");
    LowercaseExact(e, "yml");
    LowercaseExact(e, "md");
    LowercaseExact(e, "menu");
    LowercaseExact(e, "jinja");
    LowercaseExact(e, "j2");
    LowercaseExact(e, "jpg");
    LowercaseExact(e, "jpeg");
    LowercaseExact(e, "png");
  }

  lemma {:induction false} NamedTextHasNoExtension(n: Name)
    requires NamedText(n)
    ensures n[0] == DOT && DOT !in n[1..]
  {
  }

  /** What the name says about the format, when it has something before its last dot. */
  lemma {:induction false} FormatByExtension(p: Path, stem: Name, e: Text)
    requires p != [] && FileName(p) == stem + [DOT] + e && stem != [] && DOT !in e
    ensures IsText(p) <==> TextExtension(e)
    ensures IsBinary(p) <==> BinaryExtension(e)
  {
    var n := FileName(p);
    ExtensionAfterLastDot(stem, e);
    LowercaseListed(e);
    assert n[1..][|stem| - 1] == DOT;
    if NamedText(n) {
      NamedTextHasNoExtension(n);
    }
  }

  /** And when it has not. */
  lemma {:induction false} FormatWithoutExtension(p: Path)
    requires p != [] && (DOT !in FileName(p) || (FileName(p)[0] == DOT && DOT !in FileName(p)[1..]))
    ensures IsText(p) <==> NamedText(FileName(p))
    ensures !IsBinary(p)
  {
    NoExtension(FileName(p));
  }

  /** Dots inside a name do not matter. */
  lemma {:induction false} DottedRecipe(stem: Name)
    requires stem != []
    ensures IsText([stem + Ascii(".v2.cook")])
  {
    hide IsText, IsBinary, BinaryExtension;
    var n, e := stem + Ascii(".v2.cook"), Ascii("cook");
    assert n == stem + Ascii(".v2") + [DOT] + e;
    FormatByExtension([n], stem + Ascii(".v2"), e);
    assert SameLetters(e, "cook");
  }

  /** Nor does the case of the letters. */
  lemma {:induction false} LoudPhoto(stem: Name)
    requires stem != []
    ensures IsBinary([stem + Ascii(".JPG")])
  {
    hide IsText, IsBinary, TextExtension;
    var n, e := stem + Ascii(".JPG"), Ascii("JPG");
    assert n == stem + [DOT] + e;
    FormatByExtension([n], stem, e);
    assert SameLetters(e, "jpg");
  }

  function Markdown(stem: Name): Path {
    [stem + [DOT] + Ascii("md")]
  }

  /** A Markdown file in the storage root is text, and the indexer sees it. */
  lemma MarkdownSeen(stem: Name)
    requires stem != [] && DOT !in stem
    ensures var p := Markdown(stem); IsText(p) && Scannable(p) && !DotName(FileName(p))
  {
    var n, md := stem + [DOT] + Ascii("md"), Ascii("md");
    ListCodec.SplitHead(stem, md, DOT);
    ListCodec.SplitPiece(md, DOT);
    assert Extension(n) == Some(md);
    assert ToAsciiLowercase(md) == md;
    assert n[0] == stem[0] && stem[0] in stem;
  }

  /** And so is one in a folder that is named like a Markdown file. */
  lemma NestedSeen(outer: Name, inner: Name)
    requires outer != [] && DOT !in outer && inner != [] && DOT !in inner
    ensures var p := Markdown(outer) + Markdown(inner);
            Parent(p) == Markdown(outer) && IsText(p) && Scannable(p) && !DotName(FileName(p))
  {
    MarkdownSeen(outer);
    MarkdownSeen(inner);
    var p := Markdown(outer) + Markdown(inner);
    assert FileName(p) == FileName(Markdown(inner)) && p[0] == FileName(Markdown(outer));
    assert IsText(p) == IsText(Markdown(inner));
  }
}
