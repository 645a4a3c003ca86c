/**
 * String trimming as done by JavaScript's `String.prototype.trim`, which
 * removes the ECMAScript WhiteSpace and LineTerminator code points from
 * both ends of a string.
 */
module Text {

  /** The ECMAScript WhiteSpace (TAB, VT, FF, ZWNBSP and category Zs) and LineTerminator code points. */
  predicate IsWhitespace(c: char) {
    || c == '\t' || c == '\n' || c == '\U{000B}' || c == '\U{000C}' || c == '\r'
    || c == ' ' || c == '\U{00A0}' || c == '\U{1680}'
    || ('\U{2000}' <= c <= '\U{200A}')
    || c == '\U{2028}' || c == '\U{2029}' || c == '\U{202F}' || c == '\U{205F}'
    || c == '\U{3000}' || c == '\U{FEFF}'
  }

  predicate AllWhitespace(s: string) {
    forall i :: 0 <= i < |s| ==> IsWhitespace(s[i])
  }

  /** Neither end of `s` is whitespace (vacuously true of the empty string). */
  predicate Clean(s: string) {
    s == [] || (!IsWhitespace(s[0]) && !IsWhitespace(s[|s| - 1]))
  }

  /** The length of the longest all-whitespace prefix of `s`. */
  function LeadingWhitespace(s: string): (n: nat)
    ensures n <= |s|
    ensures AllWhitespace(s[..n])
    ensures n < |s| ==> !IsWhitespace(s[n])
  {
    if s == [] || !IsWhitespace(s[0]) then 0
    else
      var m := LeadingWhitespace(s[1..]);
      assert s[..1 + m] == [s[0]] + s[1..][..m];
      1 + m
  }

  /** The length of the longest all-whitespace suffix of `s`. */
  function TrailingWhitespace(s: string): (n: nat)
    ensures n <= |s|
    ensures AllWhitespace(s[|s| - n..])
    ensures n < |s| ==> !IsWhitespace(s[|s| - 1 - n])
  {
    if s == [] || !IsWhitespace(s[|s| - 1]) then 0
    else
      var t := s[..|s| - 1];
      var m := TrailingWhitespace(t);
      assert s[|s| - (1 + m)..] == t[|t| - m..] + [s[|s| - 1]];
      1 + m
  }

  /**
   * `s.trim()`: first the leading whitespace is dropped, then the trailing
   * whitespace of what is left; the result has whitespace at neither end.
   */
  function Trim(s: string): (r: string)
    ensures |r| <= |s|
    ensures Clean(r)
  {
    var a := LeadingWhitespace(s);
    var rest := s[a..];
    var b := TrailingWhitespace(rest);
    var r := rest[..|rest| - b];
    assert r != [] ==> r[0] == s[a] && r[|r| - 1] == rest[|rest| - 1 - b];
    r
  }

  /** Cutting a sequence at two points and joining the pieces gives it back. */
  lemma ThreeWay<T>(s: seq<T>, a: nat, m: nat)
    requires a <= |s| && m <= |s| - a
    ensures s == s[..a] + s[a..][..m] + s[a..][m..]
  {
    assert s[a..] == s[a..][..m] + s[a..][m..];
    assert s == s[..a] + s[a..];
  }

  /** The trimmed string is a piece of `s`, cut out between an all-whitespace prefix and suffix, with no whitespace at either end. */
  lemma TrimShape(s: string)
    ensures Clean(Trim(s))
    ensures exists pre, post :: s == pre + Trim(s) + post && AllWhitespace(pre) && AllWhitespace(post)
  {
    var a := LeadingWhitespace(s);
    var rest := s[a..];
    var b := TrailingWhitespace(rest);
    assert Trim(s) == rest[..|rest| - b];
    ThreeWay(s, a, |rest| - b);
    assert rest[|rest| - b..] == s[a..][|rest| - b..];
    assert AllWhitespace(s[..a]) && AllWhitespace(rest[|rest| - b..]);
  }

  /** The trimmed string is empty exactly when the whole input is whitespace (`!taskText` in the source). */
  lemma TrimEmptyIff(s: string)
    ensures Trim(s) == [] <==> AllWhitespace(s)
  {
    var a := LeadingWhitespace(s);
    var rest := s[a..];
    var b := TrailingWhitespace(rest);
    assert Trim(s) == rest[..|rest| - b];
    if a == |s| {
      assert s[..a] == s;
      assert rest == [];
    } else {
      assert rest[0] == s[a];
      assert !IsWhitespace(s[a]);
      assert !IsWhitespace(rest[0]);
      TrailingStops(rest);
      assert |Trim(s)| > 0;
    }
  }

  /** Trailing whitespace never reaches a non-whitespace first character. */
  lemma {:induction false} TrailingStops(t: string)
    requires t != [] && !IsWhitespace(t[0])
    ensures TrailingWhitespace(t) < |t|
  {
    if IsWhitespace(t[|t| - 1]) {
      var u := t[..|t| - 1];
      assert u != [] && u[0] == t[0];
      TrailingStops(u);
    }
  }

  /** A string with no whitespace at either end is its own trim. */
  lemma {:induction false} TrimOfClean(s: string)
    requires Clean(s)
    ensures Trim(s) == s
  {
    if s != [] {
      assert LeadingWhitespace(s) == 0;
      assert s[0..] == s;
      assert TrailingWhitespace(s) == 0;
    }
  }

  /** Trimming twice is the same as trimming once. */
  lemma TrimIdempotent(s: string)
    ensures Trim(Trim(s)) == Trim(s)
  {
    TrimShape(s);
    TrimOfClean(Trim(s));
  }

  /** Uniqueness: whatever clean piece is surrounded by whitespace only, that piece is the trim. */
  lemma TrimUnique(pre: string, r: string, post: string)
    requires AllWhitespace(pre) && AllWhitespace(post) && Clean(r)
    ensures Trim(pre + r + post) == r
  {
    var s := pre + r + post;
    if r == [] {
      assert AllWhitespace(s) by {
        forall i | 0 <= i < |s| ensures IsWhitespace(s[i]) {
          if i < |pre| { assert s[i] == pre[i]; } else { assert s[i] == post[i - |pre|]; }
        }
      }
      TrimEmptyIff(s);
    } else {
      LeadingCount(pre, r + post);
      assert s == pre + (r + post);
      var rest := s[|pre|..];
      assert rest == r + post;
      TrailingCount(r, post);
      assert rest[..|rest| - |post|] == r;
    }
  }

  lemma {:induction false} LeadingCount(pre: string, t: string)
    requires AllWhitespace(pre) && t != [] && !IsWhitespace(t[0])
    ensures LeadingWhitespace(pre + t) == |pre|
  {
    if pre != [] {
      assert (pre + t)[1..] == pre[1..] + t;
      LeadingCount(pre[1..], t);
    } else {
      assert pre + t == t;
    }
  }

  lemma {:induction false} TrailingCount(t: string, post: string)
    requires AllWhitespace(post) && t != [] && !IsWhitespace(t[|t| - 1])
    ensures TrailingWhitespace(t + post) == |post|
  {
    if post != [] {
      var s := t + post;
      assert s[..|s| - 1] == t + post[..|post| - 1];
      TrailingCount(t, post[..|post| - 1]);
    } else {
      assert t + post == t;
    }
  }
}
