/**
 * The three methods of the JavaScript String prototype that the client search
 * uses: `trim`, `toLowerCase` and `includes`. A string is a sequence of
 * characters.
 */
module JsString {

  /** ECMAScript WhiteSpace and LineTerminator code points: what `trim` strips. */
  predicate IsWhitespace(c: char) {
    || c == '\t' || c == '\n' || c == '\U{B}' || c == '\U{C}' || c == '\r'
    || c == ' ' || c == '\U{A0}' || c == '\U{1680}'
    || ('\U{2000}' <= c <= '\U{200A}')
    || c == '\U{2028}' || c == '\U{2029}' || c == '\U{202F}' || c == '\U{205F}'
    || c == '\U{3000}' || c == '\U{FEFF}'
  }

  predicate AllWhitespace(s: string) {
    forall i :: 0 <= i < |s| ==> IsWhitespace(s[i])
  }

  /** Neither end of `s` is whitespace: what `trim` leaves behind. */
  predicate Trimmed(s: string) {
    s == [] || (!IsWhitespace(s[0]) && !IsWhitespace(s[|s| - 1]))
  }

  predicate WhitespaceBetween(s: string, lo: nat, hi: nat)
    requires lo <= hi <= |s|
  {
    forall i :: lo <= i < hi ==> IsWhitespace(s[i])
  }

  /** The first index at or after `i` that is not whitespace, or `|s|`. */
  function SkipForward(s: string, i: nat): (a: nat)
    requires i <= |s|
    ensures i <= a <= |s| && WhitespaceBetween(s, i, a)
    ensures a < |s| ==> !IsWhitespace(s[a])
    decreases |s| - i
  {
    if i < |s| && IsWhitespace(s[i]) then SkipForward(s, i + 1) else i
  }

  /** Walking back from `j` but not past `lo`: the end of the text before the trailing whitespace. */
  function SkipBackward(s: string, lo: nat, j: nat): (b: nat)
    requires lo <= j <= |s|
    ensures lo <= b <= j && WhitespaceBetween(s, b, j)
    ensures lo < b ==> !IsWhitespace(s[b - 1])
    decreases j
  {
    if lo < j && IsWhitespace(s[j - 1]) then SkipBackward(s, lo, j - 1) else j
  }

  /**
   * `String.prototype.trim`: the slice of `s` left once the whitespace at
   * both ends is cut away. `TrimSplit` gives the cut pieces and
   * `TrimOfPadded` shows that they determine the result.
   */
  function Trim(s: string): (r: string)
    ensures |r| <= |s|
    ensures Trimmed(r)
  {
    var a := SkipForward(s, 0);
    s[a..SkipBackward(s, a, |s|)]
  }

  /** `SkipForward` stops at the first index that is not whitespace. */
  lemma {:induction false} SkipForwardStops(s: string, i: nat, a: nat)
    requires i <= a <= |s| && WhitespaceBetween(s, i, a)
    requires a < |s| ==> !IsWhitespace(s[a])
    ensures SkipForward(s, i) == a
    decreases a - i
  {
    if i < a {
      SkipForwardStops(s, i + 1, a);
    }
  }

  /** `SkipBackward` stops just after the last index that is not whitespace. */
  lemma {:induction false} SkipBackwardStops(s: string, lo: nat, j: nat, b: nat)
    requires lo <= b <= j <= |s| && WhitespaceBetween(s, b, j)
    requires lo < b ==> !IsWhitespace(s[b - 1])
    ensures SkipBackward(s, lo, j) == b
    decreases j - b
  {
    if b < j {
      SkipBackwardStops(s, lo, j - 1, b);
    }
  }

  /** The padding `trim` cuts away: `s` is the trimmed text between two runs of whitespace. */
  lemma TrimSplit(s: string) returns (w1: string, w2: string)
    ensures AllWhitespace(w1) && AllWhitespace(w2)
    ensures s == w1 + Trim(s) + w2
  {
    var a := SkipForward(s, 0);
    var b := SkipBackward(s, a, |s|);
    w1, w2 := s[..a], s[b..];
    assert s == s[..a] + s[a..b] + s[b..];
  }

  /**
   * Trimming is determined by the text between the padding: whatever
   * whitespace surrounds a trimmed string, `trim` returns that string.
   */
  lemma TrimOfPadded(w1: string, m: string, w2: string)
    requires AllWhitespace(w1) && AllWhitespace(w2) && Trimmed(m)
    ensures Trim(w1 + m + w2) == m
  {
    var s := w1 + m + w2;
    var a, b := |w1|, |w1| + |m|;
    if m == [] {
      SkipForwardStops(s, 0, |s|);
      SkipBackwardStops(s, |s|, |s|, |s|);
    } else {
      assert s[a] == m[0];
      assert s[b - 1] == m[|m| - 1];
      SkipForwardStops(s, 0, a);
      SkipBackwardStops(s, a, |s|, b);
      assert s[a..b] == m;
    }
  }

  /** Extra whitespace around `s` does not change what `trim` returns. */
  lemma TrimIgnoresPadding(w1: string, s: string, w2: string)
    requires AllWhitespace(w1) && AllWhitespace(w2)
    ensures Trim(w1 + s + w2) == Trim(s)
  {
    var u1, u2 := TrimSplit(s);
    var m := Trim(s);
    var left, right := w1 + u1, u2 + w2;
    assert w1 + s + w2 == left + m + right;
    assert AllWhitespace(left) && AllWhitespace(right);
    TrimOfPadded(left, m, right);
  }

  /** A string trims to nothing exactly when it is all whitespace. */
  lemma TrimEmptyIff(s: string)
    ensures Trim(s) == [] <==> AllWhitespace(s)
  {
    var w1, w2 := TrimSplit(s);
    if Trim(s) == [] {
      assert s == w1 + w2;
    }
    if AllWhitespace(s) {
      assert s + [] + [] == s;
      TrimOfPadded(s, [], []);
    }
  }

  /** A letter that `toLowerCase` changes: ASCII A-Z and Latin-1 À-Þ except ×. */
  predicate IsUpper(c: char) {
    ('A' <= c <= 'Z') || ('\U{C0}' <= c <= '\U{DE}' && c != '\U{D7}')
  }

  function ToLowerChar(c: char): (d: char)
    ensures !IsUpper(d)
    ensures !IsUpper(c) ==> d == c
    ensures IsWhitespace(d) == IsWhitespace(c)
  {
    if IsUpper(c) then (c as int + 32) as char else c
  }

  /** `String.prototype.toLowerCase`, character by character. */
  function ToLower(s: string): (r: string)
    ensures |r| == |s|
    ensures forall i :: 0 <= i < |s| ==> r[i] == ToLowerChar(s[i])
  {
    seq(|s|, i requires 0 <= i < |s| => ToLowerChar(s[i]))
  }

  predicate NoUpper(s: string) {
    forall i :: 0 <= i < |s| ==> !IsUpper(s[i])
  }

  lemma ToLowerNoUpper(s: string)
    ensures NoUpper(ToLower(s))
    ensures NoUpper(s) ==> ToLower(s) == s
  {
  }

  lemma ToLowerIdempotent(s: string)
    ensures ToLower(ToLower(s)) == ToLower(s)
  {
    ToLowerNoUpper(s);
    ToLowerNoUpper(ToLower(s));
  }

  lemma ToLowerConcat(a: string, b: string)
    ensures ToLower(a + b) == ToLower(a) + ToLower(b)
  {
    assert forall i :: 0 <= i < |a + b| ==> ToLower(a + b)[i] == (ToLower(a) + ToLower(b))[i];
  }

  lemma ToLowerKeepsWhitespace(s: string)
    ensures AllWhitespace(ToLower(s)) == AllWhitespace(s)
    ensures Trimmed(ToLower(s)) == Trimmed(s)
  {
  }

  /** Lower-casing and trimming commute: `s.trim().toLowerCase() == s.toLowerCase().trim()`. */
  lemma TrimToLowerCommute(s: string)
    ensures ToLower(Trim(s)) == Trim(ToLower(s))
  {
    var r := Trim(s);
    var w1, w2 := TrimSplit(s);
    ToLowerConcat(w1 + r, w2);
    ToLowerConcat(w1, r);
    ToLowerKeepsWhitespace(w1);
    ToLowerKeepsWhitespace(w2);
    ToLowerKeepsWhitespace(r);
    TrimOfPadded(ToLower(w1), ToLower(r), ToLower(w2));
  }

  /** `q` occurs in `s` starting at index `i`. */
  ghost predicate OccursAt(s: string, q: string, i: int) {
    0 <= i && i + |q| <= |s| && s[i..i + |q|] == q
  }

  /** `String.prototype.includes`: whether `q` is a substring of `s`. */
  function Includes(s: string, q: string): (b: bool)
    ensures b ==> |q| <= |s|
    ensures q == [] ==> b
  {
    (|q| <= |s| && s[..|q|] == q) || (s != [] && Includes(s[1..], q))
  }

  lemma OccursAtShift(s: string, q: string, i: nat)
    requires s != []
    ensures OccursAt(s[1..], q, i) <==> OccursAt(s, q, i + 1)
  {
    if i + |q| <= |s| - 1 {
      assert s[1..][i..i + |q|] == s[i + 1..i + 1 + |q|];
    }
  }

  /** `Includes` finds exactly the substrings: there is an index where `q` occurs. */
  lemma {:induction false} IncludesIff(s: string, q: string)
    ensures Includes(s, q) <==> exists i :: OccursAt(s, q, i)
  {
    if |q| <= |s| && s[..|q|] == q {
      assert OccursAt(s, q, 0);
    } else if s != [] {
      IncludesIff(s[1..], q);
      if Includes(s[1..], q) {
        var i :| OccursAt(s[1..], q, i);
        OccursAtShift(s, q, i);
      }
      if exists i :: OccursAt(s, q, i) {
        var i :| OccursAt(s, q, i);
        assert i != 0 by {
          assert s[0..|q|] == s[..|q|];
        }
        OccursAtShift(s, q, i - 1);
      }
    }
  }
}
