/** The few Python `str` builtins the checker relies on: `strip`, `lower`,
    `split()` (on runs of whitespace), `split('\n')`, `in` on substrings,
    `startswith` and `", ".join`. */
module Strings {

  /** Python's `str.isspace` for one character (the full Unicode list). */
  predicate IsWhitespace(c: char) {
    || ('\t' <= c <= '\r')
    || ('\U{1C}' <= c <= '\U{1F}')
    || c == ' ' || c == '\U{85}' || c == '\U{A0}' || c == '\U{1680}'
    || ('\U{2000}' <= c <= '\U{200A}')
    || c == '\U{2028}' || c == '\U{2029}' || c == '\U{202F}' || c == '\U{205F}' || c == '\U{3000}'
  }

  ghost predicate AllWhitespace(s: string) {
    forall i :: 0 <= i < |s| ==> IsWhitespace(s[i])
  }

  ghost predicate NoWhitespace(s: string) {
    forall i :: 0 <= i < |s| ==> !IsWhitespace(s[i])
  }

  /** A string `strip` leaves alone: empty, or non-blank at both ends. */
  ghost predicate IsStripped(s: string) {
    s != [] ==> !IsWhitespace(s[0]) && !IsWhitespace(s[|s| - 1])
  }

  /** Index of the first non-whitespace character of `s` at or after `i` (or `|s|`). */
  function NextNonBlank(s: string, i: nat): (j: nat)
    requires i <= |s|
    ensures i <= j <= |s|
    ensures forall k :: i <= k < j ==> IsWhitespace(s[k])
    ensures j < |s| ==> !IsWhitespace(s[j])
    decreases |s| - i
  {
    if i == |s| || !IsWhitespace(s[i]) then i else NextNonBlank(s, i + 1)
  }

  /** Index of the first whitespace character of `s` at or after `i` (or `|s|`). */
  function NextBlank(s: string, i: nat): (j: nat)
    requires i <= |s|
    ensures i <= j <= |s|
    ensures forall k :: i <= k < j ==> !IsWhitespace(s[k])
    ensures j < |s| ==> IsWhitespace(s[j])
    decreases |s| - i
  {
    if i == |s| || IsWhitespace(s[i]) then i else NextBlank(s, i + 1)
  }

  /** One past the last non-whitespace character of `s` (0 when there is none). */
  function ContentEnd(s: string): (j: nat)
    ensures j <= |s|
    ensures forall k :: j <= k < |s| ==> IsWhitespace(s[k])
    ensures j > 0 ==> !IsWhitespace(s[j - 1])
  {
    if s == [] || !IsWhitespace(s[|s| - 1]) then |s| else ContentEnd(s[..|s| - 1])
  }

  /** `s.strip()`: the part of `s` between its leading and trailing whitespace. */
  function Strip(s: string): (r: string)
    ensures IsStripped(r)
    ensures r == [] <==> AllWhitespace(s)
  {
    var a := NextNonBlank(s, 0);
    if a == |s| then [] else s[a..ContentEnd(s)]
  }

  /** `strip` removes exactly the blank margins: it is determined by them. */
  lemma StripOfPadded(w1: string, b: string, w2: string)
    requires AllWhitespace(w1) && AllWhitespace(w2) && IsStripped(b)
    ensures Strip(w1 + b + w2) == b
  {
    var s := w1 + b + w2;
    if b == [] {
      assert AllWhitespace(s) by {
        forall k | 0 <= k < |s| ensures IsWhitespace(s[k]) {
          if k < |w1| { assert s[k] == w1[k]; } else { assert s[k] == w2[k - |w1|]; }
        }
      }
    } else {
      assert s[|w1|] == b[0];
      var a := NextNonBlank(s, 0);
      assert a == |w1|;
      var e := ContentEnd(s);
      assert s[|w1| + |b| - 1] == b[|b| - 1];
      assert e == |w1| + |b|;
      assert s[a..e] == b;
    }
  }

  /** Stripping twice is stripping once. */
  lemma StripIdempotent(s: string)
    ensures Strip(Strip(s)) == Strip(s)
  {
    var r := Strip(s);
    assert r == [] + r + [];
    StripOfPadded([], r, []);
  }

  /** One character of `str.lower`, restricted to ASCII. */
  function LowerChar(c: char): char {
    if 'A' <= c <= 'Z' then (c as int + 32) as char else c
  }

  /** `s.lower()`, character by character. */
  function Lower(s: string): (r: string)
    ensures |r| == |s| && forall i :: 0 <= i < |s| ==> r[i] == LowerChar(s[i])
  {
    seq(|s|, i requires 0 <= i < |s| => LowerChar(s[i]))
  }

  /** A string without ASCII capitals is its own lower-case form. */
  lemma LowerOfLowerCase(s: string)
    requires forall i :: 0 <= i < |s| ==> !('A' <= s[i] <= 'Z')
    ensures Lower(s) == s
  {
  }

  /** Lowering never creates or removes whitespace. */
  lemma LowerKeepsWhitespace(c: char)
    ensures IsWhitespace(LowerChar(c)) == IsWhitespace(c)
  {
  }

  /** `s.split()`: the maximal runs of non-whitespace characters, in order. */
  function Words(s: string): (r: seq<string>)
    ensures forall w :: w in r ==> w != [] && NoWhitespace(w)
  {
    WordsFrom(s, 0)
  }

  /** The split tokens of `s` that start at or after index `i`. */
  function WordsFrom(s: string, i: nat): (r: seq<string>)
    requires i <= |s|
    ensures forall w :: w in r ==> w != [] && NoWhitespace(w)
    decreases |s| - i
  {
    var a := NextNonBlank(s, i);
    if a == |s| then []
    else
      var b := NextBlank(s, a);
      assert NoWhitespace(s[a..b]) by {
        forall k | 0 <= k < b - a ensures !IsWhitespace(s[a..b][k]) { assert s[a..b][k] == s[a + k]; }
      }
      [s[a..b]] + WordsFrom(s, b)
  }

  /** `w` occurs in `s` at `i` with whitespace (or an end of `s`) on both sides. */
  ghost predicate StandaloneAt(s: string, w: string, i: int) {
    && 0 <= i && i + |w| <= |s| && s[i..i + |w|] == w
    && (i == 0 || IsWhitespace(s[i - 1]))
    && (i + |w| == |s| || IsWhitespace(s[i + |w|]))
  }

  ghost predicate Standalone(s: string, w: string) {
    exists i :: StandaloneAt(s, w, i)
  }

  /** Where a scan for split tokens may start: the beginning, the end, or a blank. */
  ghost predicate TokenBoundary(s: string, i: nat) {
    i == 0 || i == |s| || (i < |s| && IsWhitespace(s[i]))
  }

  /** Every split token found from a boundary is a whole word of `s` at or after it. */
  lemma {:induction false} SplitTokenIsStandalone(s: string, i: nat, w: string)
    requires i <= |s| && TokenBoundary(s, i) && w in WordsFrom(s, i)
    ensures exists j :: j >= i && StandaloneAt(s, w, j)
    decreases |s| - i
  {
    var a := NextNonBlank(s, i);
    var b := NextBlank(s, a);
    if w == s[a..b] {
      assert a == i ==> i == 0;
      assert StandaloneAt(s, w, a);
    } else {
      SplitTokenIsStandalone(s, b, w);
    }
  }

  /** Every whole word of `s` after a boundary is found by the scan from there. */
  lemma {:induction false} StandaloneIsSplitToken(s: string, i: nat, w: string, j: int)
    requires i <= |s| && TokenBoundary(s, i)
    requires w != [] && NoWhitespace(w) && j >= i && StandaloneAt(s, w, j)
    ensures w in WordsFrom(s, i)
    decreases |s| - i
  {
    assert s[j] == s[j..j + |w|][0] == w[0];
    var a := NextNonBlank(s, i);
    assert j >= a;
    var b := NextBlank(s, a);
    if j == a {
      assert b == a + |w| by {
        forall k | a <= k < a + |w| ensures !IsWhitespace(s[k]) {
          assert s[k] == s[j..j + |w|][k - a] == w[k - a];
        }
      }
    } else {
      assert j - 1 >= b;
      StandaloneIsSplitToken(s, b, w, j);
    }
  }

  /** A split token is exactly a non-empty, blank-free whole word of `s`. */
  lemma WordsAreStandalone(s: string, w: string)
    ensures w in Words(s) <==> w != [] && NoWhitespace(w) && Standalone(s, w)
  {
    if w in Words(s) {
      SplitTokenIsStandalone(s, 0, w);
    }
    if w != [] && NoWhitespace(w) && Standalone(s, w) {
      var j :| StandaloneAt(s, w, j);
      StandaloneIsSplitToken(s, 0, w, j);
    }
  }

  /** `s.split('\n')`: every piece between newlines, empty pieces included. */
  function SplitLines(s: string): (r: seq<string>)
    ensures |r| >= 1
    ensures forall l :: l in r ==> '\n' !in l
    decreases |s|
  {
    if '\n' !in s then [s]
    else
      var k := LineLength(s);
      [s[..k]] + SplitLines(s[k + 1..])
  }

  /** Index of the first newline of `s`. */
  function LineLength(s: string): (k: nat)
    requires '\n' in s
    ensures k < |s| && s[k] == '\n' && '\n' !in s[..k]
  {
    if s[0] == '\n' then 0 else
      assert '\n' in s[1..] by { var i :| 0 <= i < |s| && s[i] == '\n'; assert s[1..][i - 1] == '\n'; }
      var k := 1 + LineLength(s[1..]);
      assert s[..k] == [s[0]] + s[1..][..k - 1];
      k
  }

  /** Splitting at a newline splits the pieces there. */
  lemma {:induction false} SplitLinesJoin(a: string, b: string)
    requires '\n' !in a
    ensures SplitLines(a + "\n" + b) == [a] + SplitLines(b)
  {
    var s := a + "\n" + b;
    assert s[|a|] == '\n';
    var k := LineLength(s);
    assert k == |a|;
    assert s[..k] == a;
    assert s[k + 1..] == b;
  }

  /** `sub in s` for strings. */
  predicate Contains(s: string, sub: string)
    decreases |s|
  {
    StartsWith(s, sub) || (s != [] && Contains(s[1..], sub))
  }

  /** `s.startswith(prefix)` */
  predicate StartsWith(s: string, prefix: string) {
    |prefix| <= |s| && s[..|prefix|] == prefix
  }

  /** `sub` occurs in `s` starting at index `i`. */
  ghost predicate OccursAt(s: string, sub: string, i: int) {
    0 <= i <= |s| - |sub| && s[i..i + |sub|] == sub
  }

  /** An occurrence fixes the characters it covers. */
  lemma OccursAtChars(s: string, sub: string, i: int)
    requires OccursAt(s, sub, i)
    ensures forall k :: 0 <= k < |sub| ==> s[i + k] == sub[k]
  {
    forall k | 0 <= k < |sub| ensures s[i + k] == sub[k] {
      assert s[i + k] == s[i..i + |sub|][k];
    }
  }

  /** `Contains` holds exactly when `sub` occurs at some index. */
  lemma {:induction false} ContainsAt(s: string, sub: string)
    ensures Contains(s, sub) <==> exists i :: OccursAt(s, sub, i)
    decreases |s|
  {
    if StartsWith(s, sub) {
      assert OccursAt(s, sub, 0);
    } else if s != [] {
      ContainsAt(s[1..], sub);
      if Contains(s[1..], sub) {
        var i :| OccursAt(s[1..], sub, i);
        assert s[i + 1..i + 1 + |sub|] == s[1..][i..i + |sub|];
        assert OccursAt(s, sub, i + 1);
      }
      if exists i :: OccursAt(s, sub, i) {
        var i :| OccursAt(s, sub, i);
        assert i != 0;
        assert s[1..][i - 1..i - 1 + |sub|] == s[i..i + |sub|];
        assert OccursAt(s[1..], sub, i - 1);
      }
    }
  }

  /** `sep.join(parts)` */
  function Join(parts: seq<string>, sep: string): (r: string)
    ensures parts == [] ==> r == []
    ensures |parts| == 1 ==> r == parts[0]
  {
    if parts == [] then []
    else if |parts| == 1 then parts[0]
    else parts[0] + sep + Join(parts[1..], sep)
  }

  /** Each further part is appended after one more separator. */
  lemma {:induction false} JoinSnoc(parts: seq<string>, p: string, sep: string)
    requires parts != []
    ensures Join(parts + [p], sep) == Join(parts, sep) + sep + p
    decreases |parts|
  {
    if |parts| > 1 {
      JoinSnoc(parts[1..], p, sep);
      assert (parts + [p])[1..] == parts[1..] + [p];
    }
  }
}
