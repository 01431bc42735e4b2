/**
 * Python's notion of whitespace and the `str.strip` family, on strings of
 * Unicode scalar values. The display name of a user and the tag list of an
 * item are both built with `strip()`.
 */
module Text {

  /** The characters for which Python's `str.isspace()` holds; `strip()` with no argument removes exactly these. */
  predicate IsSpace(c: char) {
    || ('\t' <= c <= '\r')               // tab, line feed, vertical tab, form feed, carriage return
    || ('\U{001C}' <= c <= '\U{001F}')   // file, group, record and unit separators
    || c == ' '
    || c == '\U{0085}' || c == '\U{00A0}' || c == '\U{1680}'
    || ('\U{2000}' <= c <= '\U{200A}')
    || c == '\U{2028}' || c == '\U{2029}' || c == '\U{202F}' || c == '\U{205F}' || c == '\U{3000}'
  }

  /** Every character of `s` is whitespace (so `s` strips to the empty string). */
  predicate AllSpace(s: string) {
    forall i :: 0 <= i < |s| ==> IsSpace(s[i])
  }

  /** A concatenation is all whitespace exactly when both parts are. */
  lemma AllSpaceConcat(a: string, b: string)
    ensures AllSpace(a + b) <==> AllSpace(a) && AllSpace(b)
  {
    if AllSpace(a + b) {
      assert forall i :: 0 <= i < |a| ==> a[i] == (a + b)[i];
      assert forall i :: 0 <= i < |b| ==> b[i] == (a + b)[|a| + i];
    }
  }

  /** Neither end of `s` is whitespace. */
  predicate Trimmed(s: string) {
    s == [] || (!IsSpace(s[0]) && !IsSpace(s[|s| - 1]))
  }

  /** How many whitespace characters `s` starts with. */
  function LeadingSpace(s: string): (n: nat)
    ensures n <= |s|
    ensures forall k :: 0 <= k < n ==> IsSpace(s[k])
    ensures n < |s| ==> !IsSpace(s[n])
  {
    if s != [] && IsSpace(s[0]) then 1 + LeadingSpace(s[1..]) else 0
  }

  /** How many whitespace characters `s` ends with. */
  function TrailingSpace(s: string): (n: nat)
    ensures n <= |s|
    ensures forall k :: |s| - n <= k < |s| ==> IsSpace(s[k])
    ensures n < |s| ==> !IsSpace(s[|s| - n - 1])
  {
    if s != [] && IsSpace(s[|s| - 1]) then 1 + TrailingSpace(s[..|s| - 1]) else 0
  }

  /** `str.lstrip()`: drops the leading whitespace and keeps the rest as it is. */
  function LStrip(s: string): string {
    s[LeadingSpace(s)..]
  }

  /** `str.rstrip()`: drops the trailing whitespace and keeps the rest as it is. */
  function RStrip(s: string): string {
    s[..|s| - TrailingSpace(s)]
  }

  /**
   * `str.strip()`: the infix of `s` left once the whitespace at both ends is
   * gone; it is empty exactly when `s` is all whitespace.
   */
  function Strip(s: string): (r: string)
    ensures Trimmed(r)
    ensures r == [] <==> AllSpace(s)
  {
    var i := LeadingSpace(s);
    var l := s[i..];
    StripBounds(s, i, l, TrailingSpace(l));
    RStrip(LStrip(s))
  }

  /**
   * Cutting the `i` leading whitespace characters of `s` and then the `t`
   * trailing ones of what is left, where the next characters inward are not
   * whitespace, leaves a trimmed string that is empty exactly when `s` is
   * all whitespace.
   */
  lemma StripBounds(s: string, i: nat, l: string, t: nat)
    requires i <= |s| && l == s[i..]
    requires forall k :: 0 <= k < i ==> IsSpace(s[k])
    requires i < |s| ==> !IsSpace(s[i])
    requires t <= |l| && forall k :: |l| - t <= k < |l| ==> IsSpace(l[k])
    requires t < |l| ==> !IsSpace(l[|l| - t - 1])
    ensures Trimmed(l[..|l| - t])
    ensures l[..|l| - t] == [] <==> AllSpace(s)
  {
    if i < |s| {
      assert l[0] == s[i];
    }
  }

  /** What `strip` keeps is an infix of its input, with only whitespace around it. */
  lemma StripIsInfix(s: string) returns (i: nat, j: nat)
    ensures i <= j <= |s| && Strip(s) == s[i..j]
    ensures AllSpace(s[..i]) && AllSpace(s[j..])
  {
    i := LeadingSpace(s);
    var l := s[i..];
    var t := TrailingSpace(l);
    j := |s| - t;
    assert l[..|l| - t] == s[i..j];
    forall k | j <= k < |s|
      ensures IsSpace(s[k])
    {
      assert s[k] == l[k - i];
    }
  }

  /** Stripping a string that has no surrounding whitespace changes nothing. */
  lemma StripTrimmed(s: string)
    requires Trimmed(s)
    ensures Strip(s) == s
  {
    if s != [] {
      assert LeadingSpace(s) == 0 && s[0..] == s;
      assert TrailingSpace(s) == 0;
    }
  }

  /** Text after the first non-space character of `f` is kept by `lstrip` as it is. */
  lemma LStripAppend(f: string, x: string)
    requires !AllSpace(f)
    ensures LStrip(f + x) == LStrip(f) + x
  {
    var n := LeadingSpaceAppend(f, x);
    assert (f + x)[n..] == f[n..] + x;
  }

  /** Text after the first non-space character does not change how much leading whitespace there is. */
  lemma {:induction false} LeadingSpaceAppend(f: string, x: string) returns (n: nat)
    requires !AllSpace(f)
    ensures n == LeadingSpace(f + x) == LeadingSpace(f) < |f|
  {
    if IsSpace(f[0]) {
      assert (f + x)[1..] == f[1..] + x;
      assert f == [f[0]] + f[1..];
      AllSpaceConcat([f[0]], f[1..]);
      var m := LeadingSpaceAppend(f[1..], x);
      n := m + 1;
    } else {
      n := 0;
    }
  }

  /** Text before the last non-space character of `l` is kept by `rstrip` as it is. */
  lemma RStripPrepend(x: string, l: string)
    requires !AllSpace(l)
    ensures RStrip(x + l) == x + RStrip(l)
  {
    var n := TrailingSpacePrepend(x, l);
    assert (x + l)[..|x + l| - n] == x + l[..|l| - n];
  }

  /** Text before the last non-space character does not change how much trailing whitespace there is. */
  lemma {:induction false} TrailingSpacePrepend(x: string, l: string) returns (n: nat)
    requires !AllSpace(l)
    ensures n == TrailingSpace(x + l) == TrailingSpace(l) < |l|
  {
    if IsSpace(l[|l| - 1]) {
      assert (x + l)[..|x + l| - 1] == x + l[..|l| - 1];
      assert l == l[..|l| - 1] + [l[|l| - 1]];
      AllSpaceConcat(l[..|l| - 1], [l[|l| - 1]]);
      var m := TrailingSpacePrepend(x, l[..|l| - 1]);
      n := m + 1;
    } else {
      n := 0;
    }
  }

  /** Whitespace appended to `s` disappears under `strip`. */
  lemma StripAppendSpace(s: string, x: string)
    requires AllSpace(x)
    ensures Strip(s + x) == Strip(s)
  {
    if AllSpace(s) {
      AllSpaceConcat(s, x);
    } else {
      LStripAppend(s, x);
      var l := LStrip(s);
      RStripSpaceSuffix(l, x);
    }
  }

  /** Whitespace prepended to `s` disappears under `strip`. */
  lemma StripPrependSpace(x: string, s: string)
    requires AllSpace(x)
    ensures Strip(x + s) == Strip(s)
  {
    LStripSpacePrefix(x, s);
  }

  /** Whitespace appended to `s` disappears under `rstrip`. */
  lemma RStripSpaceSuffix(s: string, x: string)
    requires AllSpace(x)
    ensures RStrip(s + x) == RStrip(s)
  {
    TrailingSpaceSuffix(s, x);
    assert (s + x)[..|s + x| - TrailingSpace(s + x)] == s[..|s| - TrailingSpace(s)];
  }

  /** Appending whitespace adds exactly that much trailing whitespace. */
  lemma {:induction false} TrailingSpaceSuffix(s: string, x: string)
    requires AllSpace(x)
    ensures TrailingSpace(s + x) == TrailingSpace(s) + |x|
  {
    if x != [] {
      assert (s + x)[..|s + x| - 1] == s + x[..|x| - 1];
      assert (s + x)[|s + x| - 1] == x[|x| - 1];
      TrailingSpaceSuffix(s, x[..|x| - 1]);
    } else {
      assert s + x == s;
    }
  }

  /** Whitespace prepended to `s` disappears under `lstrip`. */
  lemma LStripSpacePrefix(x: string, s: string)
    requires AllSpace(x)
    ensures LStrip(x + s) == LStrip(s)
  {
    LeadingSpacePrefix(x, s);
    assert (x + s)[|x| + LeadingSpace(s)..] == s[LeadingSpace(s)..];
  }

  /** Prepending whitespace adds exactly that much leading whitespace. */
  lemma {:induction false} LeadingSpacePrefix(x: string, s: string)
    requires AllSpace(x)
    ensures LeadingSpace(x + s) == |x| + LeadingSpace(s)
  {
    if x != [] {
      assert (x + s)[1..] == x[1..] + s;
      assert (x + s)[0] == x[0];
      LeadingSpacePrefix(x[1..], s);
    } else {
      assert x + s == s;
    }
  }
}
