/**
 * The clean-up `generateQuestion` applies to the model's reply before parsing
 * it as JSON: drop every "```json", then every "```", then trim whitespace.
 */
module GeminiService {
  import opened Text

  const Fence: string := "```"
  const JsonFence: string := "```json"

  /** `s.replace(/pat/g, '')` for a literal pattern: leftmost, non-overlapping removal. */
  function RemoveAll(s: string, pat: string): string
    requires pat != []
    decreases |s|
  {
    if s == [] then []
    else if IsPrefix(pat, s) then RemoveAll(s[|pat|..], pat)
    else [s[0]] + RemoveAll(s[1..], pat)
  }

  /**
   * The characters `String.prototype.trim` removes: the ECMAScript white space
   * and line terminator code points.
   */
  predicate IsWhitespace(c: char) {
    c == '\t' || c == '\n' || c == '\U{B}' || c == '\U{C}' || c == '\r' || c == ' '
    || c == '\U{A0}' || c == '\U{1680}' || ('\U{2000}' <= c <= '\U{200A}')
    || c == '\U{2028}' || c == '\U{2029}' || c == '\U{202F}' || c == '\U{205F}'
    || c == '\U{3000}' || c == '\U{FEFF}'
  }

  /** `s.trimStart()`: the input with its leading whitespace dropped. */
  function TrimStart(s: string): (r: string)
    ensures r == [] || !IsWhitespace(r[0])
    ensures |r| <= |s| && r == s[|s| - |r|..]
    ensures forall i :: 0 <= i < |s| - |r| ==> IsWhitespace(s[i])
  {
    if s != [] && IsWhitespace(s[0]) then
      var r := TrimStart(s[1..]);
      assert s[1..][|s[1..]| - |r|..] == s[|s| - |r|..];
      assert forall i :: 1 <= i < |s| - |r| ==> s[i] == s[1..][i - 1];
      r
    else
      assert s == s[0..];
      s
  }

  /** `s.trimEnd()`: the input with its trailing whitespace dropped. */
  function TrimEnd(s: string): (r: string)
    ensures r == [] || !IsWhitespace(r[|r| - 1])
    ensures IsPrefix(r, s)
    ensures r != [] ==> r[0] == s[0]
    ensures forall i :: |r| <= i < |s| ==> IsWhitespace(s[i])
  {
    if s != [] && IsWhitespace(s[|s| - 1]) then
      var r := TrimEnd(s[..|s| - 1]);
      assert s[..|s| - 1][..|r|] == s[..|r|];
      assert forall i :: |r| <= i < |s| - 1 ==> s[i] == s[..|s| - 1][i];
      r
    else s
  }

  /** `s.trim()`: the input with its leading and trailing whitespace dropped. */
  function Trim(s: string): (r: string)
    ensures r == [] || (!IsWhitespace(r[0]) && !IsWhitespace(r[|r| - 1]))
  {
    TrimEnd(TrimStart(s))
  }

  /** The reply clean-up: every "```json" removed, then every "```", then the ends trimmed. */
  function Clean(text: string): string {
    Trim(RemoveAll(RemoveAll(text, JsonFence), Fence))
  }

  /** Three consecutive backticks start at index `i` of `s`. */
  predicate FenceAt(s: string, i: int) {
    0 <= i && i + 3 <= |s| && s[i] == '`' && s[i + 1] == '`' && s[i + 2] == '`'
  }

  /** No three consecutive backticks. */
  predicate NoFence(s: string) {
    forall i :: 0 <= i < |s| ==> !FenceAt(s, i)
  }

  /**
   * After removing every "```", the result has none: a run of n backticks is
   * reduced to n mod 3, and runs stay separated by the characters between them.
   */
  lemma {:induction false} RemoveFenceNoFence(s: string)
    ensures NoFence(RemoveAll(s, Fence))
    ensures s != [] && s[0] != '`' ==> RemoveAll(s, Fence) != [] && RemoveAll(s, Fence)[0] == s[0]
    decreases |s|
  {
    if s == [] {
    } else if IsPrefix(Fence, s) {
      RemoveFenceNoFence(s[3..]);
    } else {
      RemoveFenceNoFence(s[1..]);
      var rest := RemoveAll(s[1..], Fence);
      var r := [s[0]] + rest;
      assert RemoveAll(s, Fence) == r;
      if s[0] == '`' {
        // fewer than three leading backticks: s[1] or s[2] is missing or not a backtick
        assert |s| < 3 || s[1] != '`' || s[2] != '`';
        if |s| >= 2 && s[1] == '`' {
          assert !IsPrefix(Fence, s[1..]) by {
            assert |s| < 3 || s[1..][2 - 1] != '`';
          }
          RemoveFenceNoFence(s[2..]);
          assert rest == [s[1]] + RemoveAll(s[2..], Fence);
        }
      }
      forall i | 0 <= i < |r| ensures !FenceAt(r, i) {
        if 0 < i && i + 3 <= |r| {
          assert r[i] == rest[i - 1] && r[i + 1] == rest[i] && r[i + 2] == rest[i + 1];
          assert !FenceAt(rest, i - 1);
        }
      }
    }
  }

  /** A string without an occurrence of the pattern's first character is left unchanged. */
  lemma {:induction false} RemoveAllAbsent(s: string, pat: string)
    requires pat != [] && pat[0] !in s
    ensures RemoveAll(s, pat) == s
    decreases |s|
  {
    if s != [] {
      assert s[0] != pat[0];
      assert !IsPrefix(pat, s);
      assert pat[0] !in s[1..];
      RemoveAllAbsent(s[1..], pat);
    }
  }

  /** When no occurrence of the pattern starts anywhere, nothing is removed. */
  lemma {:induction false} RemoveAllNoMatch(s: string, pat: string)
    requires pat != []
    requires forall i :: 0 <= i <= |s| ==> !IsPrefix(pat, s[i..])
    ensures RemoveAll(s, pat) == s
    decreases |s|
  {
    if s != [] {
      assert s[0..] == s;
      forall i | 0 <= i <= |s[1..]| ensures !IsPrefix(pat, s[1..][i..]) {
        assert s[1..][i..] == s[i + 1..];
      }
      RemoveAllNoMatch(s[1..], pat);
    }
  }

  lemma NoFenceNoMatch(s: string, pat: string)
    requires NoFence(s) && IsPrefix(Fence, pat)
    ensures forall i :: 0 <= i <= |s| ==> !IsPrefix(pat, s[i..])
  {
    forall i | 0 <= i <= |s| ensures !IsPrefix(pat, s[i..]) {
      if i + 3 <= |s| && i + |pat| <= |s| {
        assert s[i..][..3] == s[i..i + 3];
        assert s[i..][..|pat|][..3] == s[i..][..3];
        assert pat[..3] == Fence;
        assert s[i..i + 3] != Fence by {
          assert !FenceAt(s, i);
        }
      }
    }
  }

  /**
   * Trimming keeps a contiguous piece of its input and drops only whitespace:
   * the input is the leading whitespace, the result, then the trailing whitespace.
   */
  lemma TrimIsSlice(s: string)
    ensures var a := |s| - |TrimStart(s)|; var r := Trim(s);
      a + |r| <= |s| && r == s[a..a + |r|] &&
      (forall i :: 0 <= i < a ==> IsWhitespace(s[i])) &&
      (forall i :: a + |r| <= i < |s| ==> IsWhitespace(s[i]))
  {
    var t := TrimStart(s);
    var a := |s| - |t|;
    var r := TrimEnd(t);
    assert r == t[..|r|];
    PrefixOfSuffix(s, a, t, |r|);
    SuffixWhitespace(s, a, t, |r|);
  }

  lemma SuffixWhitespace(s: string, a: nat, t: string, n: nat)
    requires a <= |s| && t == s[a..] && n <= |t|
    requires forall i :: n <= i < |t| ==> IsWhitespace(t[i])
    ensures forall i :: a + n <= i < |s| ==> IsWhitespace(s[i])
  {
    forall i | a + n <= i < |s| ensures IsWhitespace(s[i]) {
      assert s[i] == t[i - a];
    }
  }

  lemma PrefixOfSuffix(s: string, a: nat, t: string, n: nat)
    requires a <= |s| && t == s[a..] && n <= |t|
    ensures t[..n] == s[a..a + n]
  {
    forall k | 0 <= k < n ensures t[..n][k] == s[a..a + n][k] {
      assert t[k] == s[a + k];
    }
  }

  lemma SliceNoFence(s: string, a: int, b: int)
    requires 0 <= a <= b <= |s| && NoFence(s)
    ensures NoFence(s[a..b])
  {
    var t := s[a..b];
    forall i | 0 <= i < |t| ensures !FenceAt(t, i) {
      if 0 <= i && i + 3 <= |t| {
        assert t[i] == s[a + i] && t[i + 1] == s[a + i + 1] && t[i + 2] == s[a + i + 2];
        assert !FenceAt(s, a + i);
      }
    }
  }

  /** Trimming cannot create a fence. */
  lemma TrimNoFence(s: string)
    requires NoFence(s)
    ensures NoFence(Trim(s))
  {
    var r := Trim(s);
    var a := |s| - |TrimStart(s)|;
    TrimIsSlice(s);
    SliceNoFence(s, a, a + |r|);
  }

  /** The cleaned string contains no three consecutive backticks. */
  lemma CleanNoFence(text: string)
    ensures NoFence(Clean(text))
  {
    RemoveFenceNoFence(RemoveAll(text, JsonFence));
    TrimNoFence(RemoveAll(RemoveAll(text, JsonFence), Fence));
  }

  /** The cleaned string has no leading or trailing whitespace. */
  lemma CleanTrimmed(text: string)
    ensures var r := Clean(text); r == [] || (!IsWhitespace(r[0]) && !IsWhitespace(r[|r| - 1]))
  {
    var r := Trim(RemoveAll(RemoveAll(text, JsonFence), Fence));
    assert Clean(text) == r;
  }

  lemma TrimStartAbsent(s: string)
    requires s == [] || !IsWhitespace(s[0])
    ensures TrimStart(s) == s
  {
  }

  lemma TrimEndAbsent(s: string)
    requires s == [] || !IsWhitespace(s[|s| - 1])
    ensures TrimEnd(s) == s
  {
  }

  /** A string with no fence and no surrounding whitespace passes through unchanged. */
  lemma CleanFixes(s: string)
    requires NoFence(s)
    requires s == [] || (!IsWhitespace(s[0]) && !IsWhitespace(s[|s| - 1]))
    ensures Clean(s) == s
  {
    assert IsPrefix(Fence, JsonFence);
    NoFenceNoMatch(s, JsonFence);
    RemoveAllNoMatch(s, JsonFence);
    assert IsPrefix(Fence, Fence);
    NoFenceNoMatch(s, Fence);
    RemoveAllNoMatch(s, Fence);
    TrimStartAbsent(s);
    TrimEndAbsent(s);
  }

  /** Cleaning twice is the same as cleaning once. */
  lemma CleanIdempotent(text: string)
    ensures Clean(Clean(text)) == Clean(text)
  {
    CleanNoFence(text);
    CleanTrimmed(text);
    CleanFixes(Clean(text));
  }

  /** Text with no backtick and no surrounding whitespace is returned unchanged. */
  lemma CleanPlain(s: string)
    requires '`' !in s
    requires s == [] || (!IsWhitespace(s[0]) && !IsWhitespace(s[|s| - 1]))
    ensures Clean(s) == s
  {
    RemoveAllAbsent(s, JsonFence);
    RemoveAllAbsent(s, Fence);
    TrimStartAbsent(s);
    TrimEndAbsent(s);
  }

  /** A fenced reply "```json\n" + body + "\n```" cleans to its body. */
  lemma CleanFencedJson(body: string)
    requires '`' !in body
    requires body == [] || (!IsWhitespace(body[0]) && !IsWhitespace(body[|body| - 1]))
    ensures Clean(JsonFence + "\n" + body + "\n" + Fence) == body
  {
    var mid := "\n" + body + "\n";
    assert '`' !in mid;
    var text := JsonFence + (mid + Fence);
    assert text == JsonFence + "\n" + body + "\n" + Fence;
    PrefixOfAppend(JsonFence, mid + Fence);
    RemoveAllSkips(mid, Fence, JsonFence);
    assert RemoveAll(Fence, JsonFence) == Fence;
    assert RemoveAll(text, JsonFence) == mid + Fence;
    RemoveAllSkips(mid, Fence, Fence);
    PrefixOfAppend(Fence, []);
    assert Fence + [] == Fence;
    assert RemoveAll(Fence, Fence) == [];
    assert mid + [] == mid;
    assert RemoveAll(mid + Fence, Fence) == mid;
    TrimNewlines(body);
  }

  /** A prefix free of the pattern's first character is copied. */
  lemma {:induction false} RemoveAllSkips(a: string, b: string, pat: string)
    requires pat != [] && pat[0] !in a
    ensures RemoveAll(a + b, pat) == a + RemoveAll(b, pat)
    decreases |a|
  {
    if a == [] {
      assert a + b == b;
    } else {
      assert (a + b)[0] != pat[0];
      assert !IsPrefix(pat, a + b);
      assert (a + b)[1..] == a[1..] + b;
      assert pat[0] !in a[1..];
      RemoveAllSkips(a[1..], b, pat);
    }
  }

  lemma TrimStartStep(s: string)
    requires s != [] && IsWhitespace(s[0])
    ensures TrimStart(s) == TrimStart(s[1..])
  {
  }

  lemma TrimEndStep(s: string)
    requires s != [] && IsWhitespace(s[|s| - 1])
    ensures TrimEnd(s) == TrimEnd(s[..|s| - 1])
  {
  }

  lemma TrimNewlines(body: string)
    requires body == [] || (!IsWhitespace(body[0]) && !IsWhitespace(body[|body| - 1]))
    ensures Trim("\n" + body + "\n") == body
  {
    var s := "\n" + body + "\n";
    var u := body + "\n";
    assert s[0] == '\n' && s[1..] == u;
    TrimStartStep(s);
    if body == [] {
      TrimLoneNewline(u);
    } else {
      TrimBodyNewline(body, u);
    }
  }

  lemma TrimLoneNewline(u: string)
    requires u == "\n"
    ensures TrimEnd(TrimStart(u)) == []
  {
    TrimStartStep(u);
    assert u[1..] == [];
  }

  lemma TrimBodyNewline(body: string, u: string)
    requires body != [] && !IsWhitespace(body[0]) && !IsWhitespace(body[|body| - 1])
    requires u == body + "\n"
    ensures TrimEnd(TrimStart(u)) == body
  {
    assert u[0] == body[0];
    TrimStartAbsent(u);
    assert u[|u| - 1] == '\n';
    TrimEndStep(u);
    assert u[..|u| - 1] == body;
    TrimEndAbsent(body);
  }
}
