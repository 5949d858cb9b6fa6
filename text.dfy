/**
 * The text operations the extractor relies on: joining with the `;` separator,
 * the Java string that may be null, `StringBuilder.append` of such a string and
 * `StringUtils.isBlank`.
 */
module Text {

  /** App.SEPARATOR */
  const Separator: char := ';'

  /** A Java `String` reference: either some characters or `null`. */
  datatype JString = Str(chars: string) | Null

  /** What `StringBuilder.append(String)` writes: the characters, or the four letters `null`. */
  function Render(v: JString): string
  {
    match v
    case Str(s) => s
    case Null => "null"
  }

  /** The rendered form of every value, in order. */
  function Renders(vs: seq<JString>): seq<string>
  {
    seq(|vs|, i requires 0 <= i < |vs| => Render(vs[i]))
  }

  /** `Character.isWhitespace`: Unicode space, line and paragraph separators other than
      the non-breaking ones, and the ASCII controls TAB, LF, VT, FF, CR, FS, GS, RS, US. */
  predicate IsWhitespace(c: char)
  {
    || ('\t' <= c <= '\r')
    || ('\U{1C}' <= c <= ' ')
    || c == '\U{1680}'
    || ('\U{2000}' <= c <= '\U{2006}')
    || ('\U{2008}' <= c <= '\U{200A}')
    || c == '\U{2028}' || c == '\U{2029}' || c == '\U{205F}' || c == '\U{3000}'
  }

  /** `StringUtils.isBlank`: null, empty, or whitespace only. */
  predicate IsBlank(v: JString)
  {
    match v
    case Null => true
    case Str(s) => forall i :: 0 <= i < |s| ==> IsWhitespace(s[i])
  }

  /** The elements of `xs` with one separator between neighbours and none before the first. */
  function Join(xs: seq<string>): string
  {
    if |xs| == 0 then ""
    else if |xs| == 1 then xs[0]
    else Join(xs[..|xs| - 1]) + [Separator] + xs[|xs| - 1]
  }

  /** The pieces of `s` between separators, empty pieces included (a reader of the output). */
  function Split(s: string): (r: seq<string>)
    ensures |r| >= 1
  {
    if |s| == 0 then [""]
    else if s[|s| - 1] == Separator then Split(s[..|s| - 1]) + [""]
    else Extend(Split(s[..|s| - 1]), [s[|s| - 1]])
  }

  /** `pieces` with `t` added to the end of its last piece. */
  function Extend(pieces: seq<string>, t: string): (r: seq<string>)
    requires |pieces| >= 1
    ensures |r| == |pieces|
  {
    pieces[..|pieces| - 1] + [pieces[|pieces| - 1] + t]
  }

  predicate NoSeparator(s: string)
  {
    forall i :: 0 <= i < |s| ==> s[i] != Separator
  }

  /** Split reads its input from the end, one character at a time. */
  lemma SplitSnoc(s: string, c: char)
    ensures Split(s + [c]) == if c == Separator then Split(s) + [""] else Extend(Split(s), [c])
  {
    assert (s + [c])[..|s|] == s;
  }

  /** Appending separator-free text extends the last piece and adds no piece. */
  lemma {:induction false} SplitAppendPlain(s: string, t: string)
    requires NoSeparator(t)
    ensures Split(s + t) == Extend(Split(s), t)
  {
    if |t| == 0 {
      var p := Split(s);
      assert s + t == s;
      assert p[|p| - 1] + t == p[|p| - 1];
      assert p[..|p| - 1] + [p[|p| - 1]] == p;
    } else {
      var t', c := t[..|t| - 1], t[|t| - 1];
      assert t' + [c] == t;
      assert s + t == (s + t') + [c];
      SplitSnoc(s + t', c);
      SplitAppendPlain(s, t');
      ExtendTwice(Split(s), t', [c]);
    }
  }

  lemma ExtendTwice(pieces: seq<string>, t: string, u: string)
    requires |pieces| >= 1
    ensures Extend(Extend(pieces, t), u) == Extend(pieces, t + u)
  {
    var e := Extend(pieces, t);
    assert e[..|e| - 1] == pieces[..|pieces| - 1];
    assert e[|e| - 1] + u == pieces[|pieces| - 1] + (t + u);
  }

  /** Splitting a join of separator-free pieces gives the pieces back. */
  lemma {:induction false} SplitJoin(xs: seq<string>)
    requires |xs| >= 1
    requires forall i :: 0 <= i < |xs| ==> NoSeparator(xs[i])
    ensures Split(Join(xs)) == xs
  {
    if |xs| == 1 {
      SplitAppendPlain("", xs[0]);
      assert "" + xs[0] == xs[0];
      assert Extend([""], xs[0]) == [xs[0]] == xs;
    } else {
      var init, last := xs[..|xs| - 1], xs[|xs| - 1];
      SplitJoin(init);
      SplitJoinStep(init, last);
      assert init + [last] == xs;
    }
  }

  lemma SplitJoinStep(init: seq<string>, last: string)
    requires |init| >= 1 && NoSeparator(last)
    requires Split(Join(init)) == init
    ensures Split(Join(init + [last])) == init + [last]
  {
    var xs := init + [last];
    assert xs[..|xs| - 1] == init;
    SplitSnoc(Join(init), Separator);
    SplitAppendPlain(Join(init) + [Separator], last);
    var e := init + [""];
    assert e[..|e| - 1] == init && e[|e| - 1] + last == last;
  }
}
