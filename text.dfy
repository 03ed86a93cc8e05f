/**
 * String operations shared by the screens: JavaScript's global replace of one
 * literal character, `String.prototype.includes`, and decimal rendering of numbers.
 */
module Text {

  /** `p` is a prefix of `s` (JavaScript: `s.startsWith(p)`). */
  predicate IsPrefix(p: string, s: string) {
    |p| <= |s| && s[..|p|] == p
  }

  /** Number of occurrences of the character `c` in `s`. */
  function Count(s: string, c: char): nat {
    if s == [] then 0 else (if s[0] == c then 1 else 0) + Count(s[1..], c)
  }

  lemma {:induction false} CountAppend(a: string, b: string, c: char)
    ensures Count(a + b, c) == Count(a, c) + Count(b, c)
  {
    if a == [] {
      assert a + b == b;
    } else {
      assert (a + b)[1..] == a[1..] + b;
      CountAppend(a[1..], b, c);
    }
  }

  /** Counting splits at any index. */
  lemma CountSplit(s: string, i: nat, c: char)
    requires i <= |s|
    ensures Count(s, c) == Count(s[..i], c) + Count(s[i..], c)
  {
    assert s == s[..i] + s[i..];
    CountAppend(s[..i], s[i..], c);
  }

  lemma {:induction false} CountAbsent(s: string, c: char)
    requires c !in s
    ensures Count(s, c) == 0
  {
    if s != [] {
      assert c !in s[1..];
      CountAbsent(s[1..], c);
    }
  }

  /**
   * `s.replace(/c/g, rep)` for a single literal character `c`: every occurrence of
   * `c` is replaced by `rep`, every other character is kept in place.
   */
  function ReplaceChar(s: string, c: char, rep: string): (r: string)
    ensures forall x :: x in r <==> (x in s && x != c) || (c in s && x in rep)
  {
    if s == [] then []
    else (if s[0] == c then rep else [s[0]]) + ReplaceChar(s[1..], c, rep)
  }

  lemma ReplaceCharSingle(x: char, c: char, rep: string)
    ensures ReplaceChar([x], c, rep) == if x == c then rep else [x]
  {
    assert [x][1..] == [];
  }

  /** `p` is a prefix of `p + rest`, and what follows it is `rest`. */
  lemma PrefixOfAppend(p: string, rest: string)
    ensures IsPrefix(p, p + rest) && (p + rest)[|p|..] == rest
  {
    assert (p + rest)[..|p|] == p;
  }

  /** Replacing a character distributes over concatenation. */
  lemma {:induction false} ReplaceCharAppend(a: string, b: string, c: char, rep: string)
    ensures ReplaceChar(a + b, c, rep) == ReplaceChar(a, c, rep) + ReplaceChar(b, c, rep)
  {
    if a == [] {
      assert a + b == b;
    } else {
      assert (a + b)[1..] == a[1..] + b;
      ReplaceCharAppend(a[1..], b, c, rep);
    }
  }

  /** A string without `c` is left exactly as it is. */
  lemma {:induction false} ReplaceCharAbsent(s: string, c: char, rep: string)
    requires c !in s
    ensures ReplaceChar(s, c, rep) == s
  {
    if s != [] {
      assert c !in s[1..];
      ReplaceCharAbsent(s[1..], c, rep);
    }
  }

  /** Each occurrence of `c` becomes exactly one copy of `rep`, with both sides replaced independently. */
  lemma ReplaceCharAtOccurrence(a: string, b: string, c: char, rep: string)
    ensures ReplaceChar(a + [c] + b, c, rep) == ReplaceChar(a, c, rep) + rep + ReplaceChar(b, c, rep)
  {
    ReplaceCharAppend(a + [c], b, c, rep);
    ReplaceCharAppend(a, [c], c, rep);
  }

  /** `p` occurs in `s` starting at index `i`. */
  predicate OccursAt(s: string, p: string, i: int) {
    0 <= i && i + |p| <= |s| && s[i..i + |p|] == p
  }

  lemma OccursAtTail(s: string, p: string, i: int)
    requires s != [] && !IsPrefix(p, s)
    ensures OccursAt(s, p, i) <==> i > 0 && OccursAt(s[1..], p, i - 1)
  {
    if 1 <= i && i + |p| <= |s| {
      var u, v := s[i..i + |p|], s[1..][i - 1..i - 1 + |p|];
      forall k | 0 <= k < |p| ensures u[k] == v[k] {
        assert u[k] == s[i + k] && v[k] == s[1..][i - 1 + k];
      }
      assert u == v;
    }
    if i == 0 && i + |p| <= |s| {
      assert s[..|p|] == s[0..|p|];
    }
  }

  lemma OccursInTail(s: string, p: string)
    requires s != [] && !IsPrefix(p, s)
    ensures (exists i :: OccursAt(s, p, i)) <==> (exists j :: OccursAt(s[1..], p, j))
  {
    if i :| OccursAt(s, p, i) {
      OccursAtTail(s, p, i);
      assert OccursAt(s[1..], p, i - 1);
    }
    if j :| OccursAt(s[1..], p, j) {
      OccursAtTail(s, p, j + 1);
      assert OccursAt(s, p, j + 1);
    }
  }

  /** `s.includes(p)`: `p` occurs somewhere in `s`. */
  function Contains(s: string, p: string): (r: bool)
    decreases |s|
    ensures r <==> exists i :: OccursAt(s, p, i)
  {
    if IsPrefix(p, s) then
      assert OccursAt(s, p, 0);
      true
    else if s == [] then false
    else
      var r := Contains(s[1..], p);
      OccursInTail(s, p);
      r
  }

  /** The ASCII digit for a value below ten. */
  function Digit(d: nat): (c: char)
    requires d < 10
    ensures '0' <= c <= '9' && c as int - '0' as int == d
  {
    ('0' as int + d) as char
  }

  predicate IsDigits(s: string) {
    forall i :: 0 <= i < |s| ==> '0' <= s[i] <= '9'
  }

  /** The value of a string of decimal digits (the inverse of NatToString). */
  function DigitsValue(s: string): nat
    requires IsDigits(s)
  {
    if s == [] then 0
    else DigitsValue(s[..|s| - 1]) * 10 + (s[|s| - 1] as int - '0' as int)
  }

  /** `String(n)` for a non-negative integer: its decimal digits without leading zeros. */
  function NatToString(n: nat): (r: string)
    ensures r != [] && IsDigits(r)
    ensures |r| == 1 <==> n < 10
    ensures r[0] == '0' ==> n == 0
  {
    if n < 10 then [Digit(n)] else NatToString(n / 10) + [Digit(n % 10)]
  }

  /** `String(i)` for any integer, with a leading minus sign when negative. */
  function IntToString(i: int): string {
    if i < 0 then "-" + NatToString(-i) else NatToString(i)
  }

  /** Reading back the digits of `String(n)` gives `n`. */
  lemma {:induction false} NatToStringValue(n: nat)
    ensures DigitsValue(NatToString(n)) == n
  {
    if n >= 10 {
      var r := NatToString(n);
      assert r[..|r| - 1] == NatToString(n / 10);
      NatToStringValue(n / 10);
    }
  }
}
