/**
 * The lightweight markdown the page script applies to the content it reads back
 * from the textarea: bold, then italic, then line breaks, each a global regular
 * expression replace. Math delimiters such as `$` get no special treatment.
 */
module Markup {
  import opened Text

  /** Length of the longest prefix of `s` without `*`: what `[^*]+` can consume. */
  function StarFreePrefix(s: string): (n: nat)
    ensures n <= |s| && '*' !in s[..n]
    ensures n < |s| ==> s[n] == '*'
  {
    if s == [] || s[0] == '*' then 0
    else
      var n := StarFreePrefix(s[1..]);
      assert s[1..][..n] == s[1..n + 1];
      1 + n
  }

  /** `d` consecutive stars at index `i` of `s`: the regex's `\*{d}`. */
  predicate StarsAt(s: string, i: nat, d: nat) {
    i + d <= |s| && forall j :: i <= j < i + d ==> s[j] == '*'
  }

  /** The run of `d` stars used as a delimiter. */
  function Stars(d: nat): (r: string)
    ensures |r| == d && StarsAt(r, 0, d)
  {
    seq(d, _ => '*')
  }

  /** Length of the group `([^*]+)` would capture after `d` opening stars. */
  function GroupLen(s: string, d: nat): nat {
    if d <= |s| then StarFreePrefix(s[d..]) else 0
  }

  /** `\*{d}([^*]+)\*{d}` matches at the start of `s`. */
  predicate MatchesAtStart(s: string, d: nat) {
    StarsAt(s, 0, d) && GroupLen(s, d) >= 1 && StarsAt(s, d + GroupLen(s, d), d)
  }

  /**
   * A global replace of `d` stars, a non-empty star-free group and `d` stars by
   * the group between the tags: scanning left to right, each match is wrapped
   * and the scan resumes after it; elsewhere the character is copied.
   */
  function Emphasis(s: string, d: nat, open: string, close: string): string
    requires d >= 1
    decreases |s|
  {
    if s == [] then []
    else if MatchesAtStart(s, d) then
      open + s[d..d + GroupLen(s, d)] + close + Emphasis(s[d + GroupLen(s, d) + d..], d, open, close)
    else [s[0]] + Emphasis(s[1..], d, open, close)
  }

  /** The bold pass: a star-free group between double stars becomes strong. */
  function Bold(s: string): string {
    Emphasis(s, 2, "<strong>", "</strong>")
  }

  /** The italic pass: a star-free group between single stars becomes emphasised. */
  function Italic(s: string): string {
    Emphasis(s, 1, "<em>", "</em>")
  }

  /** The break pass: every newline becomes a line-break tag. */
  function Breaks(s: string): string {
    ReplaceChar(s, '\n', "<br>")
  }

  /** The page script's whole formatting pass, in the script's order. */
  function Format(s: string): (r: string)
    ensures '\n' !in r
  {
    Breaks(Italic(Bold(s)))
  }

  /** A star-free prefix is copied unchanged, since every match begins with a star. */
  lemma {:induction false} EmphasisSkipsStarFree(a: string, b: string, d: nat, open: string, close: string)
    requires d >= 1 && '*' !in a
    ensures Emphasis(a + b, d, open, close) == a + Emphasis(b, d, open, close)
  {
    if a == [] {
      assert a + b == b;
    } else {
      var s := a + b;
      assert s[0] == a[0] && !StarsAt(s, 0, d);
      assert s[1..] == a[1..] + b;
      assert '*' !in a[1..];
      EmphasisSkipsStarFree(a[1..], b, d, open, close);
    }
  }

  /** Text without stars is left exactly as it is. */
  lemma EmphasisStarFree(s: string, d: nat, open: string, close: string)
    requires d >= 1 && '*' !in s
    ensures Emphasis(s, d, open, close) == s
  {
    EmphasisSkipsStarFree(s, [], d, open, close);
    assert s + [] == s;
  }

  lemma {:induction false} StarFreePrefixUpTo(x: string, t: string)
    requires '*' !in x && t != [] && t[0] == '*'
    ensures StarFreePrefix(x + t) == |x|
  {
    if x == [] {
      assert x + t == t;
    } else {
      assert (x + t)[1..] == x[1..] + t;
      assert '*' !in x[1..];
      StarFreePrefixUpTo(x[1..], t);
    }
  }

  /** A run of stars holds no newline. */
  lemma StarsNoNewline(s: string, i: nat, d: nat)
    requires StarsAt(s, i, d)
    ensures '\n' !in s[i..i + d]
  {
    var w := s[i..i + d];
    forall j | 0 <= j < |w| ensures w[j] != '\n' {
      assert w[j] == s[i + j];
    }
  }

  /** A match's newlines are exactly its group's. */
  lemma MatchNewlines(s: string, d: nat)
    requires d >= 1 && MatchesAtStart(s, d)
    ensures var k := GroupLen(s, d);
      Count(s, '\n') == Count(s[d..d + k], '\n') + Count(s[d + k + d..], '\n')
  {
    var k := GroupLen(s, d);
    var u := s[d..];
    var w := u[k..];
    CountSplit(s, d, '\n');
    StarsNoNewline(s, 0, d);
    assert s[..d] == s[0..d];
    CountAbsent(s[..d], '\n');
    assert Count(s, '\n') == Count(u, '\n');
    CountSplit(u, k, '\n');
    assert u[..k] == s[d..d + k];
    assert Count(u, '\n') == Count(s[d..d + k], '\n') + Count(w, '\n');
    CountSplit(w, d, '\n');
    assert w[..d] == s[d + k..d + k + d];
    StarsNoNewline(s, d + k, d);
    CountAbsent(w[..d], '\n');
    assert w[d..] == s[d + k + d..];
    assert Count(w, '\n') == Count(s[d + k + d..], '\n');
  }

  /** Tags without newlines add none. */
  lemma WrappedNewlines(open: string, g: string, close: string, e: string)
    requires '\n' !in open && '\n' !in close
    ensures Count(open + g + close + e, '\n') == Count(g, '\n') + Count(e, '\n')
  {
    CountAppend(open + g + close, e, '\n');
    CountAppend(open + g, close, '\n');
    CountAppend(open, g, '\n');
    CountAbsent(open, '\n');
    CountAbsent(close, '\n');
  }

  /** A delimited star-free run at the start is wrapped, and the scan resumes right after the closing stars. */
  lemma EmphasisMatch(x: string, t: string, d: nat, open: string, close: string)
    requires d >= 1 && x != [] && '*' !in x
    ensures Emphasis(Stars(d) + x + Stars(d) + t, d, open, close) == open + x + close + Emphasis(t, d, open, close)
  {
    var s := Stars(d) + x + Stars(d) + t;
    DelimitedMatch(s, x, t, d);
    EmphasisMatchStep(s, d, open, close, |x|, t);
  }

  /** `x` between two runs of `d` stars is a match whose group is `x` and after which `t` follows. */
  lemma DelimitedMatch(s: string, x: string, t: string, d: nat)
    requires d >= 1 && x != [] && '*' !in x
    requires s == Stars(d) + x + Stars(d) + t
    ensures s != [] && MatchesAtStart(s, d) && GroupLen(s, d) == |x|
    ensures s[d..d + |x|] == x && s[d + |x| + d..] == t
  {
    assert s[d..] == x + (Stars(d) + t);
    StarFreePrefixUpTo(x, Stars(d) + t);
    assert GroupLen(s, d) == |x|;
    assert StarsAt(s, 0, d) by {
      forall j | 0 <= j < d ensures s[j] == '*' {
        assert s[j] == Stars(d)[j];
      }
    }
    assert StarsAt(s, d + |x|, d) by {
      forall j | d + |x| <= j < d + |x| + d ensures s[j] == '*' {
        assert s[j] == Stars(d)[j - d - |x|];
      }
    }
    assert s[d..d + |x|] == x;
    assert s[d + |x| + d..] == t;
  }

  /** The scan over a match: the group is wrapped and the scan resumes after the closing stars. */
  lemma EmphasisMatchStep(s: string, d: nat, open: string, close: string, k: nat, rest: string)
    requires d >= 1 && s != [] && MatchesAtStart(s, d)
    requires k == GroupLen(s, d) && rest == s[d + k + d..]
    ensures Emphasis(s, d, open, close) == open + s[d..d + k] + close + Emphasis(rest, d, open, close)
  {
  }

  /** Wrapping never adds or removes a newline when the tags contain none. */
  lemma {:induction false} EmphasisKeepsNewlines(s: string, d: nat, open: string, close: string)
    requires d >= 1 && '\n' !in open && '\n' !in close
    ensures Count(Emphasis(s, d, open, close), '\n') == Count(s, '\n')
    decreases |s|
  {
    if s != [] {
      if MatchesAtStart(s, d) {
        var rest := s[d + GroupLen(s, d) + d..];
        EmphasisKeepsNewlines(rest, d, open, close);
        MatchKeepsNewlines(s, d, open, close);
      } else {
        EmphasisKeepsNewlines(s[1..], d, open, close);
        CopyKeepsNewlines(s, d, open, close);
      }
    }
  }

  /** The step over a match keeps the newline count, given that the rest of the scan does. */
  lemma MatchKeepsNewlines(s: string, d: nat, open: string, close: string)
    requires d >= 1 && '\n' !in open && '\n' !in close && s != [] && MatchesAtStart(s, d)
    requires var rest := s[d + GroupLen(s, d) + d..];
      Count(Emphasis(rest, d, open, close), '\n') == Count(rest, '\n')
    ensures Count(Emphasis(s, d, open, close), '\n') == Count(s, '\n')
  {
    var k := GroupLen(s, d);
    var rest := s[d + k + d..];
    var g := s[d..d + k];
    var e := Emphasis(rest, d, open, close);
    EmphasisMatchStep(s, d, open, close, k, rest);
    WrappedNewlines(open, g, close, e);
    MatchNewlines(s, d);
  }

  /** The step that copies one character keeps the newline count, given that the rest of the scan does. */
  lemma CopyKeepsNewlines(s: string, d: nat, open: string, close: string)
    requires d >= 1 && s != [] && !MatchesAtStart(s, d)
    requires Count(Emphasis(s[1..], d, open, close), '\n') == Count(s[1..], '\n')
    ensures Count(Emphasis(s, d, open, close), '\n') == Count(s, '\n')
  {
    EmphasisUnmatched(s, d, open, close);
    CountAppend([s[0]], Emphasis(s[1..], d, open, close), '\n');
    CountSplit(s, 1, '\n');
    assert s[..1] == [s[0]];
  }

  /** Bold and italic keep every newline, so the final pass turns each one into exactly one `<br>`. */
  lemma FormatNewlineCount(s: string)
    ensures Count(Italic(Bold(s)), '\n') == Count(s, '\n')
  {
    EmphasisKeepsNewlines(s, 2, "<strong>", "</strong>");
    EmphasisKeepsNewlines(Bold(s), 1, "<em>", "</em>");
  }

  /** Text with no star and no newline, math delimiters included, comes out unchanged. */
  lemma FormatPlain(s: string)
    requires '*' !in s && '\n' !in s
    ensures Format(s) == s
  {
    EmphasisStarFree(s, 2, "<strong>", "</strong>");
    EmphasisStarFree(s, 1, "<em>", "</em>");
    ReplaceCharAbsent(s, '\n', "<br>");
  }

  /** `**X**` becomes `<strong>X</strong>`. */
  lemma FormatBold(x: string)
    requires x != [] && '*' !in x && '\n' !in x
    ensures Format("**" + x + "**") == "<strong>" + x + "</strong>"
  {
    FormatBoldAt(x, "**" + x + "**", "<strong>" + x + "</strong>");
  }

  lemma FormatBoldAt(x: string, s: string, b: string)
    requires x != [] && '*' !in x && '\n' !in x
    requires s == "**" + x + "**" && b == "<strong>" + x + "</strong>"
    ensures Format(s) == b
  {
    assert Stars(2) == "**";
    EmphasisMatch(x, [], 2, "<strong>", "</strong>");
    assert s + [] == s;
    assert b + [] == b;
    NotInWrapped('*', "<strong>", x, "</strong>");
    NotInWrapped('\n', "<strong>", x, "</strong>");
    EmphasisStarFree(b, 1, "<em>", "</em>");
    BreaksAbsent(b);
  }

  /** `*Y*` becomes `<em>Y</em>`: the bold pass leaves a single-star pair alone. */
  lemma FormatItalic(y: string)
    requires y != [] && '*' !in y && '\n' !in y
    ensures Format("*" + y + "*") == "<em>" + y + "</em>"
  {
    var s := "*" + y + "*";
    assert s[1] == y[0];
    assert !MatchesAtStart(s, 2);
    assert s[1..] == y + "*";
    EmphasisSkipsStarFree(y, "*", 2, "<strong>", "</strong>");
    assert !MatchesAtStart("*", 2);
    assert "*"[1..] == [];
    assert Bold(s) == s;
    assert Stars(1) == "*";
    EmphasisMatch(y, [], 1, "<em>", "</em>");
    assert "*" + y + "*" + [] == s;
    var e := "<em>" + y + "</em>";
    assert e + [] == e;
    ReplaceCharAbsent(e, '\n', "<br>");
  }

  /** Two adjacent stars start at index `i` of `s`. */
  predicate DoubleStarAt(s: string, i: int) {
    0 <= i && i + 1 < |s| && s[i] == '*' && s[i + 1] == '*'
  }

  /** No two adjacent stars in `s`. */
  predicate NoDoubleStar(s: string) {
    forall i :: 0 <= i < |s| ==> !DoubleStarAt(s, i)
  }

  /** Without two adjacent stars there is nothing for the bold pass to match. */
  lemma {:induction false} BoldNoDoubleStar(s: string)
    requires NoDoubleStar(s)
    ensures Bold(s) == s
  {
    if s != [] {
      assert !MatchesAtStart(s, 2) by {
        if |s| >= 2 { assert !DoubleStarAt(s, 0); }
      }
      assert NoDoubleStar(s[1..]) by {
        forall i | 0 <= i < |s[1..]| ensures !DoubleStarAt(s[1..], i) {
          if i + 1 < |s[1..]| {
            assert s[1..][i] == s[i + 1] && s[1..][i + 1] == s[i + 2];
            assert !DoubleStarAt(s, i + 1);
          }
        }
      }
      BoldNoDoubleStar(s[1..]);
    }
  }

  /** Where no match starts, the first character is copied and the scan moves on by one. */
  lemma EmphasisUnmatched(s: string, d: nat, open: string, close: string)
    requires d >= 1 && s != [] && !MatchesAtStart(s, d)
    ensures Emphasis(s, d, open, close) == [s[0]] + Emphasis(s[1..], d, open, close)
  {
  }

  lemma BreaksAbsent(s: string)
    requires '\n' !in s
    ensures Breaks(s) == s
  {
    ReplaceCharAbsent(s, '\n', "<br>");
  }

  lemma ItalicOfInlineMath(a: string, v: string, tail: string)
    requires '*' !in a && '*' !in v && '*' !in tail && v != []
    ensures Italic(a + "*" + v + "*" + tail) == a + "<em>" + v + "</em>" + tail
  {
    assert a + "*" + v + "*" + tail == a + (Stars(1) + v + Stars(1) + tail);
    EmphasisSkipsStarFree(a, Stars(1) + v + Stars(1) + tail, 1, "<em>", "</em>");
    EmphasisMatch(v, tail, 1, "<em>", "</em>");
    EmphasisStarFree(tail, 1, "<em>", "</em>");
  }

  /**
   * Math spans are not protected: a single-star pair inside `$...$` is turned into
   * italics like any other text.
   */
  lemma MathSpanNotProtected(u: string, v: string, w: string)
    requires '*' !in u && '*' !in v && '*' !in w && v != []
    requires '\n' !in u && '\n' !in v && '\n' !in w
    ensures Format("$" + u + "*" + v + "*" + w + "$") == "$" + u + "<em>" + v + "</em>" + w + "$"
  {
    var a := "$" + u;
    var tail := w + "$";
    var s := a + "*" + v + "*" + tail;
    assert s == "$" + u + "*" + v + "*" + w + "$";
    assert NoDoubleStar(s);
    BoldNoDoubleStar(s);
    ItalicOfInlineMath(a, v, tail);
    var r := a + "<em>" + v + "</em>" + tail;
    assert r == "$" + u + "<em>" + v + "</em>" + w + "$";
    BreaksAbsent(r);
  }

  /** A star right after the opening delimiter leaves the group empty, so no match starts here. */
  lemma StarAfterDelimiter(s: string, d: nat, open: string, close: string)
    requires d >= 1 && d < |s| && s[d] == '*'
    ensures Emphasis(s, d, open, close) == [s[0]] + Emphasis(s[1..], d, open, close)
  {
    assert s[d..][0] == '*';
    assert GroupLen(s, d) == 0;
  }

  /** A single star is left alone. */
  lemma LoneStar(d: nat, open: string, close: string)
    requires d >= 1
    ensures Emphasis("*", d, open, close) == "*"
  {
    assert GroupLen("*", d) == 0 by {
      if d <= 1 { assert "*"[d..] == []; }
    }
    assert "*"[1..] == [];
  }

  lemma BoldOfTripleStars(x: string, s: string)
    requires x != [] && '*' !in x && s == "***" + x + "***"
    ensures Bold(s) == "*" + ("<strong>" + x + "</strong>" + "*")
  {
    var t := Stars(2) + x + Stars(2) + "*";
    assert Stars(2) == "**";
    assert s == "*" + t;
    StarAfterDelimiter(s, 2, "<strong>", "</strong>");
    assert s[1..] == t;
    EmphasisMatch(x, "*", 2, "<strong>", "</strong>");
    LoneStar(2, "<strong>", "</strong>");
  }

  lemma ItalicAround(g: string)
    requires g != [] && '*' !in g
    ensures Italic("*" + g + "*") == "<em>" + g + "</em>"
  {
    assert "*" + g + "*" == Stars(1) + g + Stars(1) + [];
    EmphasisMatch(g, [], 1, "<em>", "</em>");
    assert "<em>" + g + "</em>" + [] == "<em>" + g + "</em>";
  }

  /** Three stars on each side: bold takes the inner pair of each run, italic the outer stars. */
  lemma FormatTripleStars(x: string)
    requires x != [] && '*' !in x && '\n' !in x
    ensures Format("***" + x + "***") == "<em><strong>" + x + "</strong></em>"
  {
    var g := "<strong>" + x + "</strong>";
    FormatTripleStarsAt(x, "***" + x + "***", g);
    assert "<em><strong>" == "<em>" + "<strong>" && "</strong></em>" == "</strong>" + "</em>";
  }

  lemma FormatTripleStarsAt(x: string, s: string, g: string)
    requires x != [] && '*' !in x && '\n' !in x
    requires s == "***" + x + "***" && g == "<strong>" + x + "</strong>"
    ensures Format(s) == "<em>" + g + "</em>"
  {
    BoldOfTripleStars(x, s);
    assert "*" + (g + "*") == "*" + g + "*";
    ItalicAround(g);
    NotInWrapped('\n', "<em>", g, "</em>");
    BreaksAbsent("<em>" + g + "</em>");
  }

  lemma NotInWrapped(c: char, open: string, g: string, close: string)
    requires c !in open && c !in g && c !in close
    ensures c !in open + g + close
  {
  }

  lemma BoldLeavesSplitStars(x: string, y: string)
    requires x != [] && y != [] && '*' !in x && '*' !in y
    ensures Bold("**" + x + "*" + y + "*") == "**" + x + "*" + y + "*"
  {
    var t := "*" + x + "*" + y + "*";
    var s := "*" + t;
    assert s == "**" + x + "*" + y + "*";
    SplitStarsNoDoubleStar(x, y, t);
    BoldNoDoubleStar(t);
    SplitStarsNoBold(x, y, s);
    assert s[1..] == t;
  }

  /** In `*x*y*` no two stars are adjacent. */
  lemma SplitStarsNoDoubleStar(x: string, y: string, t: string)
    requires x != [] && y != [] && '*' !in x && '*' !in y
    requires t == "*" + x + "*" + y + "*"
    ensures NoDoubleStar(t)
  {
    forall i | 0 <= i < |t| - 1 ensures !DoubleStarAt(t, i) {
      if i == 0 {
        assert t[1] == x[0];
      } else if i <= |x| {
        assert t[i] == x[i - 1];
      } else if i == |x| + 1 {
        assert t[i + 1] == y[0];
      } else {
        assert t[i] == y[i - |x| - 2];
      }
    }
  }

  /** `**x*y*` opens no bold match at its start: the group stops at the single star after `x`. */
  lemma SplitStarsNoBold(x: string, y: string, s: string)
    requires x != [] && y != [] && '*' !in x && '*' !in y
    requires s == "**" + x + "*" + y + "*"
    ensures Bold(s) == [s[0]] + Bold(s[1..])
  {
    assert !MatchesAtStart(s, 2) by {
      assert s[2..] == x + ("*" + y + "*");
      StarFreePrefixUpTo(x, "*" + y + "*");
      assert GroupLen(s, 2) == |x| && s[3 + |x|] == y[0];
    }
    EmphasisUnmatched(s, 2, "<strong>", "</strong>");
  }

  lemma ItalicOfTrailingStar(y: string)
    requires '*' !in y
    ensures Italic(y + "*") == y + "*"
  {
    EmphasisSkipsStarFree(y, "*", 1, "<em>", "</em>");
    assert !MatchesAtStart("*", 1) by {
      assert GroupLen("*", 1) == 0;
    }
    EmphasisUnmatched("*", 1, "<em>", "</em>");
    assert "*"[1..] == [];
  }

  lemma ItalicOfSplitStars(x: string, y: string)
    requires x != [] && '*' !in x && '*' !in y
    ensures Italic("**" + x + "*" + y + "*") == "*<em>" + x + "</em>" + y + "*"
  {
    var s := "**" + x + "*" + y + "*";
    assert Stars(1) == "*";
    assert s == "*" + (Stars(1) + x + Stars(1) + (y + "*"));
    ItalicOfSplitStarsAt(x, y, s);
    assert "*" + ("<em>" + x + "</em>" + (y + "*")) == "*<em>" + x + "</em>" + y + "*";
  }

  lemma ItalicOfSplitStarsAt(x: string, y: string, s: string)
    requires x != [] && '*' !in x && '*' !in y
    requires s == "*" + (Stars(1) + x + Stars(1) + (y + "*"))
    ensures Italic(s) == "*" + ("<em>" + x + "</em>" + (y + "*"))
  {
    var t := Stars(1) + x + Stars(1) + (y + "*");
    StarOfUnmatched(t);
    EmphasisMatch(x, y + "*", 1, "<em>", "</em>");
    ItalicOfTrailingStar(y);
  }

  /** A star followed by another star opens no italic match. */
  lemma StarOfUnmatched(t: string)
    requires t != [] && t[0] == '*'
    ensures Italic("*" + t) == "*" + Italic(t)
  {
    var s := "*" + t;
    assert GroupLen(s, 1) == 0 by {
      assert s[1..] == t;
    }
    EmphasisUnmatched(s, 1, "<em>", "</em>");
    assert s[1..] == t;
  }

  lemma FormatOfSplitStars(x: string, y: string)
    requires x != [] && y != [] && '*' !in x && '*' !in y && '\n' !in x && '\n' !in y
    ensures Format("**" + x + "*" + y + "*") == "*<em>" + x + "</em>" + y + "*"
  {
    BoldLeavesSplitStars(x, y);
    ItalicOfSplitStars(x, y);
    BreaksAbsent("*<em>" + x + "</em>" + y + "*");
  }

  lemma FormatOfLeftoverStars(x: string, y: string)
    requires '*' !in x && '*' !in y && '\n' !in x && '\n' !in y
    ensures Format("*<em>" + x + "</em>" + y + "*") == "<em><em>" + x + "</em>" + y + "</em>"
  {
    var g := "<em>" + x + "</em>" + y;
    assert '*' !in g && '\n' !in g;
    assert "*" + g + "*" == "*<em>" + x + "</em>" + y + "*";
    FormatOfStarPair(g);
    assert "<em>" + g + "</em>" == "<em><em>" + x + "</em>" + y + "</em>";
  }

  /** A single-star pair around star-free, newline-free text is only italicised. */
  lemma FormatOfStarPair(g: string)
    requires g != [] && '*' !in g && '\n' !in g
    ensures Format("*" + g + "*") == "<em>" + g + "</em>"
  {
    StarPairNoDoubleStar(g);
    BoldNoDoubleStar("*" + g + "*");
    ItalicAround(g);
    assert '\n' !in "<em>" + g + "</em>";
    BreaksAbsent("<em>" + g + "</em>");
  }

  lemma StarPairNoDoubleStar(g: string)
    requires g != [] && '*' !in g
    ensures NoDoubleStar("*" + g + "*")
  {
    var r := "*" + g + "*";
    forall i | 0 <= i < |r| - 1 ensures !DoubleStarAt(r, i) {
      if i == 0 {
        assert r[1] == g[0];
      } else {
        assert r[i] == g[i - 1];
      }
    }
  }

  /**
   * Formatting is not idempotent: a star the first pass leaves behind pairs up
   * with a later one on a second pass, nesting italics.
   */
  lemma FormatNotIdempotent(x: string, y: string)
    requires x != [] && y != [] && '*' !in x && '*' !in y && '\n' !in x && '\n' !in y
    ensures Format("**" + x + "*" + y + "*") == "*<em>" + x + "</em>" + y + "*"
    ensures Format(Format("**" + x + "*" + y + "*")) == "<em><em>" + x + "</em>" + y + "</em>"
  {
    FormatOfSplitStars(x, y);
    FormatOfLeftoverStars(x, y);
  }

  /** Bold must run first: with italic first, `**x**` would become `*<em>x</em>*`. */
  lemma BoldBeforeItalic(x: string)
    requires x != [] && '*' !in x && '\n' !in x
    ensures Format("**" + x + "**") == "<strong>" + x + "</strong>"
    ensures Bold(Italic("**" + x + "**")) == "*<em>" + x + "</em>*"
  {
    FormatBold(x);
    var g := "<em>" + x + "</em>";
    ItalicFirst(x, "**" + x + "**");
    var i := "*" + g + "*";
    assert "*" + (g + "*") == i;
    NotInWrapped('*', "<em>", x, "</em>");
    StarPairNoDoubleStar(g);
    BoldNoDoubleStar(i);
    assert "*<em>" == "*" + "<em>" && "</em>*" == "</em>" + "*";
  }

  /** Italic on `**x**` pairs the inner stars and leaves the outer ones. */
  lemma ItalicFirst(x: string, s: string)
    requires x != [] && '*' !in x
    requires s == "**" + x + "**"
    ensures Italic(s) == "*" + ("<em>" + x + "</em>" + "*")
  {
    var t := Stars(1) + x + Stars(1) + "*";
    assert Stars(1) == "*";
    assert s == "*" + t;
    StarAfterDelimiter(s, 1, "<em>", "</em>");
    assert s[1..] == t;
    EmphasisMatch(x, "*", 1, "<em>", "</em>");
    LoneStar(1, "<em>", "</em>");
  }
}
