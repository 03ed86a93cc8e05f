/**
 * The escaping `generateHtml` applies before placing content inside the page's
 * hidden `<textarea>`, and the decoding the browser applies when the page script
 * reads that textarea's value back.
 */
module HtmlEscape {
  import opened Text

  /** The four chained global replaces, ampersand first. */
  function Escape(content: string): (r: string)
    ensures '<' !in r && '>' !in r && '"' !in r
    ensures '&' in r <==> '&' in content || '<' in content || '>' in content || '"' in content
  {
    var a := ReplaceChar(content, '&', "&amp;");
    assert '&' in a <==> '&' in content;
    var b := ReplaceChar(a, '<', "&lt;");
    assert '&' in b <==> '&' in a || '<' in a;
    var c := ReplaceChar(b, '>', "&gt;");
    assert '&' in c <==> '&' in b || '>' in b;
    ReplaceChar(c, '"', "&quot;")
  }

  /** The escape of one character, as an independent single-pass definition. */
  function EscapeChar(c: char): string {
    match c
    case '&' => "&amp;"
    case '<' => "&lt;"
    case '>' => "&gt;"
    case '"' => "&quot;"
    case _ => [c]
  }

  /** Escaping character by character, left to right. */
  function EscapeEach(s: string): string {
    if s == [] then [] else EscapeChar(s[0]) + EscapeEach(s[1..])
  }

  /** One of the four entities the escape introduces starts at index `i` of `s`. */
  predicate EntityAt(s: string, i: nat)
    requires i <= |s|
  {
    IsPrefix("&amp;", s[i..]) || IsPrefix("&lt;", s[i..]) || IsPrefix("&gt;", s[i..]) || IsPrefix("&quot;", s[i..])
  }

  /**
   * Character-reference decoding of textarea content, restricted to the four
   * entities above; any other character, including a lone `&`, is kept.
   */
  function Unescape(s: string): string
    decreases |s|
  {
    if s == [] then []
    else if IsPrefix("&amp;", s) then "&" + Unescape(s[5..])
    else if IsPrefix("&lt;", s) then "<" + Unescape(s[4..])
    else if IsPrefix("&gt;", s) then ">" + Unescape(s[4..])
    else if IsPrefix("&quot;", s) then "\"" + Unescape(s[6..])
    else [s[0]] + Unescape(s[1..])
  }

  /** Escaping distributes over concatenation. */
  lemma EscapeAppend(a: string, b: string)
    ensures Escape(a + b) == Escape(a) + Escape(b)
  {
    var s1 := ReplaceChar(a, '&', "&amp;");
    var t1 := ReplaceChar(b, '&', "&amp;");
    ReplaceCharAppend(a, b, '&', "&amp;");
    var s2 := ReplaceChar(s1, '<', "&lt;");
    var t2 := ReplaceChar(t1, '<', "&lt;");
    ReplaceCharAppend(s1, t1, '<', "&lt;");
    var s3 := ReplaceChar(s2, '>', "&gt;");
    var t3 := ReplaceChar(t2, '>', "&gt;");
    ReplaceCharAppend(s2, t2, '>', "&gt;");
    ReplaceCharAppend(s3, t3, '"', "&quot;");
  }

  lemma EscapeSingle(c: char)
    ensures Escape([c]) == EscapeChar(c)
  {
    var a := ReplaceChar([c], '&', "&amp;");
    ReplaceCharSingle(c, '&', "&amp;");
    if c == '&' {
      EscapeEntity("&amp;");
    } else {
      assert a == [c];
      var b := ReplaceChar(a, '<', "&lt;");
      ReplaceCharSingle(c, '<', "&lt;");
      if c == '<' {
        assert b == "&lt;";
        ReplaceCharAbsent("&lt;", '>', "&gt;");
        ReplaceCharAbsent("&lt;", '"', "&quot;");
      } else {
        assert b == [c];
        ReplaceCharSingle(c, '>', "&gt;");
        if c == '>' {
          ReplaceCharAbsent("&gt;", '"', "&quot;");
        } else {
          ReplaceCharSingle(c, '"', "&quot;");
        }
      }
    }
  }

  /** The last three replaces leave an entity free of `<`, `>` and `"` alone. */
  lemma EscapeEntity(e: string)
    requires '<' !in e && '>' !in e && '"' !in e
    ensures ReplaceChar(ReplaceChar(ReplaceChar(e, '<', "&lt;"), '>', "&gt;"), '"', "&quot;") == e
  {
    ReplaceCharAbsent(e, '<', "&lt;");
    ReplaceCharAbsent(e, '>', "&gt;");
    ReplaceCharAbsent(e, '"', "&quot;");
  }

  /** The chain of four replaces equals the single-pass escape: ordering `&` first avoids double escaping. */
  lemma {:induction false} EscapeIsEscapeEach(s: string)
    ensures Escape(s) == EscapeEach(s)
  {
    if s != [] {
      assert s == [s[0]] + s[1..];
      EscapeAppend([s[0]], s[1..]);
      EscapeSingle(s[0]);
      EscapeIsEscapeEach(s[1..]);
    }
  }

  lemma UnescapeEscapeChar(c: char, rest: string)
    ensures Unescape(EscapeChar(c) + rest) == [c] + Unescape(rest)
  {
    var e := EscapeChar(c) + rest;
    PrefixOfAppend(EscapeChar(c), rest);
    if c == '&' {
    } else if c == '<' {
      UnescapeLt(e, rest);
    } else if c == '>' {
      UnescapeGt(e, rest);
    } else if c == '"' {
      UnescapeQuot(e, rest);
    } else {
      UnescapePlain(c, e, rest);
    }
  }

  lemma UnescapeLt(e: string, rest: string)
    requires IsPrefix("&lt;", e) && e[4..] == rest
    ensures Unescape(e) == "<" + Unescape(rest)
  {
    assert e[1] == 'l';
    assert !IsPrefix("&amp;", e);
  }

  lemma UnescapeGt(e: string, rest: string)
    requires IsPrefix("&gt;", e) && e[4..] == rest
    ensures Unescape(e) == ">" + Unescape(rest)
  {
    assert e[1] == 'g';
    assert !IsPrefix("&amp;", e) && !IsPrefix("&lt;", e);
  }

  lemma UnescapeQuot(e: string, rest: string)
    requires IsPrefix("&quot;", e) && e[6..] == rest
    ensures Unescape(e) == "\"" + Unescape(rest)
  {
    assert e[1] == 'q';
    assert !IsPrefix("&amp;", e) && !IsPrefix("&lt;", e) && !IsPrefix("&gt;", e);
  }

  lemma UnescapePlain(c: char, e: string, rest: string)
    requires c != '&' && e == [c] + rest
    ensures Unescape(e) == [c] + Unescape(rest)
  {
    assert e[0] == c;
    assert !IsPrefix("&amp;", e) && !IsPrefix("&lt;", e) && !IsPrefix("&gt;", e) && !IsPrefix("&quot;", e);
    assert e[1..] == rest;
  }

  /** Reading the textarea back gives the original content exactly. */
  lemma {:induction false} UnescapeEscape(s: string)
    ensures Unescape(Escape(s)) == s
  {
    EscapeEachRoundTrip(s);
    EscapeIsEscapeEach(s);
  }

  lemma {:induction false} EscapeEachRoundTrip(s: string)
    ensures Unescape(EscapeEach(s)) == s
  {
    if s != [] {
      UnescapeEscapeChar(s[0], EscapeEach(s[1..]));
      EscapeEachRoundTrip(s[1..]);
    }
  }

  /** Every `&` of escaped text begins one of the four entities, so no other character reference can appear. */
  lemma {:induction false} EscapedAmpersandsAreEntities(s: string, i: nat)
    requires i < |Escape(s)| && Escape(s)[i] == '&'
    ensures EntityAt(Escape(s), i)
  {
    EscapeIsEscapeEach(s);
    EscapeEachEntities(s, i);
  }

  lemma {:induction false} EscapeEachEntities(s: string, i: nat)
    requires i < |EscapeEach(s)| && EscapeEach(s)[i] == '&'
    ensures EntityAt(EscapeEach(s), i)
  {
    var e := EscapeChar(s[0]);
    var rest := EscapeEach(s[1..]);
    assert EscapeEach(s) == e + rest;
    if i < |e| {
      assert s[0] == '&' || s[0] == '<' || s[0] == '>' || s[0] == '"';
      assert i == 0;
      assert EscapeEach(s)[i..] == e + rest;
    } else {
      EscapeEachEntities(s[1..], i - |e|);
      assert EscapeEach(s)[i..] == rest[i - |e|..];
    }
  }
}
