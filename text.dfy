/** The two string operations `validateRegionCode` applies before matching:
    `String.prototype.trim` and `String.prototype.toUpperCase`. */
module Text {

  /** The characters `trim` removes: ECMAScript's WhiteSpace (tab, vertical
      tab, form feed, the byte-order mark and every Unicode space separator)
      and LineTerminator (line feed, carriage return, the line and paragraph
      separators). U+0009 to U+000D are tab, line feed, vertical tab, form
      feed and carriage return. */
  predicate IsWhite(c: char) {
    || ('\t' <= c <= '\r')
    || c == ' ' || c == '\U{A0}' || c == '\U{1680}' || ('\U{2000}' <= c <= '\U{200A}')
    || c == '\U{2028}' || c == '\U{2029}' || c == '\U{202F}' || c == '\U{205F}'
    || c == '\U{3000}' || c == '\U{FEFF}'
  }

  predicate AllWhite(s: string) {
    forall i {:trigger IsWhite(s[i])} :: 0 <= i < |s| ==> IsWhite(s[i])
  }

  /** No white space at either end: what `trim` leaves behind. */
  predicate Trimmed(s: string) {
    s == [] || (!IsWhite(s[0]) && !IsWhite(s[|s| - 1]))
  }

  /** The first position at or after `i` that does not hold white space
      (`|s|` when there is none). */
  function SkipWhite(s: string, i: nat): (a: nat)
    requires i <= |s|
    ensures i <= a <= |s|
    ensures forall k :: i <= k < a ==> IsWhite(s[k])
    ensures a < |s| ==> !IsWhite(s[a])
    decreases |s| - i
  {
    if i < |s| && IsWhite(s[i]) then SkipWhite(s, i + 1) else i
  }

  /** The end of the text before `j`: the least `b >= lo` such that only
      white space lies between `b` and `j`. */
  function SkipWhiteBack(s: string, lo: nat, j: nat): (b: nat)
    requires lo <= j <= |s|
    ensures lo <= b <= j
    ensures forall k :: b <= k < j ==> IsWhite(s[k])
    ensures b > lo ==> !IsWhite(s[b - 1])
    decreases j
  {
    if j > lo && IsWhite(s[j - 1]) then SkipWhiteBack(s, lo, j - 1) else j
  }

  /** `s.trim()`. */
  function Trim(s: string): (r: string)
    ensures Trimmed(r) && |r| <= |s|
  {
    var a := SkipWhite(s, 0);
    s[a..SkipWhiteBack(s, a, |s|)]
  }

  /** What `trim` removed is white space on either side of its result. */
  lemma TrimSplit(s: string) returns (pre: string, post: string)
    ensures AllWhite(pre) && AllWhite(post)
    ensures s == pre + Trim(s) + post
  {
    var a := SkipWhite(s, 0);
    var b := SkipWhiteBack(s, a, |s|);
    pre, post := s[..a], s[b..];
    assert AllWhite(pre) by {
      forall k | 0 <= k < |pre| ensures IsWhite(pre[k]) { assert pre[k] == s[k]; }
    }
    assert AllWhite(post) by {
      forall k | 0 <= k < |post| ensures IsWhite(post[k]) { assert post[k] == s[b + k]; }
    }
    assert s[a..b] == Trim(s);
    assert s == pre + s[a..b] + post;
  }

  /** Trimming strips exactly the white space around a trimmed core: the
      result does not depend on how the padding is chosen. */
  lemma TrimPadded(pre: string, core: string, post: string)
    requires AllWhite(pre) && AllWhite(post) && Trimmed(core)
    ensures Trim(pre + core + post) == core
  {
    var s := pre + core + post;
    var a := SkipWhite(s, 0);
    var m := |pre| + |core|;
    if core == [] {
      assert forall k :: 0 <= k < |s| ==> IsWhite(s[k]) by {
        forall k | 0 <= k < |s| ensures IsWhite(s[k]) {
          if k < |pre| { assert s[k] == pre[k]; } else { assert s[k] == post[k - |pre|]; }
        }
      }
    } else {
      assert s[|pre|] == core[0] && s[m - 1] == core[|core| - 1];
      assert forall k :: 0 <= k < |pre| ==> s[k] == pre[k];
      assert forall k :: m <= k < |s| ==> s[k] == post[k - m];
      assert a == |pre|;
      assert SkipWhiteBack(s, a, |s|) == m;
      assert s[|pre|..m] == core;
    }
  }

  /** Trimming twice is trimming once. */
  lemma TrimIdempotent(s: string)
    ensures Trim(Trim(s)) == Trim(s)
  {
    var t := Trim(s);
    assert t == [] + t + [];
    TrimPadded([], t, []);
  }

  /** White space added around a string never reaches what `trim` returns. */
  lemma TrimIgnoresPadding(pre: string, s: string, post: string)
    requires AllWhite(pre) && AllWhite(post)
    ensures Trim(pre + s + post) == Trim(s)
  {
    var t := Trim(s);
    var p, q := TrimSplit(s);
    assert pre + s + post == (pre + p) + t + (q + post);
    TrimPadded(pre + p, t, q + post);
  }

  /** `c.toUpperCase()` for one character. ASCII letters map to their capitals;
      so do the non-ASCII characters whose capitals are ASCII letters (dotless
      i, long s, sharp s and the Latin ligatures). Every other character is
      kept as it is. */
  function UpperChar(c: char): (u: string)
    ensures |u| >= 1
    ensures IsWhite(c) ==> u == [c]
    ensures !IsWhite(c) ==> forall i :: 0 <= i < |u| ==> !IsWhite(u[i])
    ensures 'A' <= c <= 'Z' || '0' <= c <= '9' || c == '-' ==> u == [c]
    ensures 'a' <= c <= 'z' ==> u == [(c as int - 32) as char]
    ensures forall i :: 0 <= i < |u| ==> !('a' <= u[i] <= 'z')
  {
    if 'a' <= c <= 'z' then [(c as int - 32) as char]
    else if c == '\U{131}' then "I"
    else if c == '\U{17F}' then "S"
    else if c == '\U{DF}' then "SS"
    else if c == '\U{FB00}' then "FF"
    else if c == '\U{FB01}' then "FI"
    else if c == '\U{FB02}' then "FL"
    else if c == '\U{FB03}' then "FFI"
    else if c == '\U{FB04}' then "FFL"
    else if c == '\U{FB05}' || c == '\U{FB06}' then "ST"
    else [c]
  }

  /** Upper-casing a capital, a digit or any other character `UpperChar`
      produces changes nothing. */
  lemma UpperCharIdempotent(c: char)
    ensures forall i :: 0 <= i < |UpperChar(c)| ==> UpperChar(UpperChar(c)[i]) == [UpperChar(c)[i]]
  {
  }

  /** `s.toUpperCase()`: each character mapped on its own. */
  function Upper(s: string): (r: string)
    ensures |r| >= |s|
  {
    if s == [] then [] else UpperChar(s[0]) + Upper(s[1..])
  }

  /** No ASCII lower-case letter survives upper-casing. */
  lemma {:induction false} UpperHasNoLower(s: string)
    ensures forall i :: 0 <= i < |Upper(s)| ==> !('a' <= Upper(s)[i] <= 'z')
  {
    if s != [] {
      UpperHasNoLower(s[1..]);
      var u, r := UpperChar(s[0]), Upper(s[1..]);
      assert Upper(s) == u + r;
      forall i | 0 <= i < |Upper(s)|
        ensures !('a' <= Upper(s)[i] <= 'z')
      {
        if i >= |u| {
          assert Upper(s)[i] == r[i - |u|];
        }
      }
    }
  }

  /** The ASCII capital of a character of a region code: `a`-`z` become
      `A`-`Z`, every other character is kept. */
  function AsciiUpper(c: char): char {
    if 'a' <= c <= 'z' then (c as int - 32) as char else c
  }

  /** On ASCII letters, digits and dashes, upper-casing maps each character to
      its ASCII capital and keeps the length, so `"cm"`, `"Cm"` and `"CM"` all
      become `"CM"`. */
  lemma {:induction false} UpperOfAscii(s: string)
    requires forall i :: 0 <= i < |s| ==> 'a' <= s[i] <= 'z' || 'A' <= s[i] <= 'Z' || '0' <= s[i] <= '9' || s[i] == '-'
    ensures |Upper(s)| == |s|
    ensures forall i :: 0 <= i < |s| ==> Upper(s)[i] == AsciiUpper(s[i])
  {
    if s != [] {
      UpperOfAscii(s[1..]);
      assert Upper(s) == [AsciiUpper(s[0])] + Upper(s[1..]);
    }
  }

  lemma {:induction false} UpperAppend(a: string, b: string)
    ensures Upper(a + b) == Upper(a) + Upper(b)
  {
    if a != [] {
      assert (a + b)[0] == a[0] && (a + b)[1..] == a[1..] + b;
      UpperAppend(a[1..], b);
      assert Upper(a + b) == UpperChar(a[0]) + (Upper(a[1..]) + Upper(b));
    } else {
      assert a + b == b;
    }
  }

  /** White space is left alone by `toUpperCase`. */
  lemma {:induction false} UpperWhite(s: string)
    requires AllWhite(s)
    ensures Upper(s) == s
  {
    if s != [] {
      UpperWhite(s[1..]);
    }
  }

  /** Upper-casing keeps a trimmed string trimmed: it never turns a character
      into white space. */
  lemma {:induction false} UpperTrimmed(s: string)
    requires Trimmed(s)
    ensures Trimmed(Upper(s))
  {
    if s != [] {
      var n := |s|;
      assert s == s[..n - 1] + [s[n - 1]];
      UpperAppend(s[..n - 1], [s[n - 1]]);
      assert Upper([s[n - 1]]) == UpperChar(s[n - 1]);
    }
  }

  /** Upper-casing twice is upper-casing once. */
  lemma {:induction false} UpperIdempotent(s: string)
    ensures Upper(Upper(s)) == Upper(s)
  {
    if s != [] {
      var u := UpperChar(s[0]);
      UpperAppend(u, Upper(s[1..]));
      UpperCharIdempotent(s[0]);
      UpperOfCapitals(u);
      UpperIdempotent(s[1..]);
    }
  }

  lemma {:induction false} UpperOfCapitals(u: string)
    requires forall i :: 0 <= i < |u| ==> UpperChar(u[i]) == [u[i]]
    ensures Upper(u) == u
  {
    if u != [] {
      UpperOfCapitals(u[1..]);
    }
  }

  /** A trimmed string of capitals, digits and dashes is its own normal form. */
  lemma NormalOfCapitals(s: string)
    requires Trimmed(s)
    requires forall i :: 0 <= i < |s| ==> 'A' <= s[i] <= 'Z' || '0' <= s[i] <= '9' || s[i] == '-'
    ensures Normalize(s) == s
  {
    assert s == [] + s + [];
    TrimPadded([], s, []);
    UpperOfCapitals(s);
  }

  /** Trimming and upper-casing commute. */
  lemma UpperTrimCommute(s: string)
    ensures Upper(Trim(s)) == Trim(Upper(s))
  {
    var t := Trim(s);
    var p, q := TrimSplit(s);
    UpperAppend(p + t, q);
    UpperAppend(p, t);
    UpperWhite(p);
    UpperWhite(q);
    UpperTrimmed(t);
    TrimPadded(p, Upper(t), q);
  }

  /** The normal form `validateRegionCode` matches: `value.trim().toUpperCase()`. */
  function Normalize(s: string): (r: string)
    ensures Trimmed(r)
  {
    UpperTrimmed(Trim(s));
    Upper(Trim(s))
  }

  /** Normalizing a normal form changes nothing. */
  lemma NormalizeIdempotent(s: string)
    ensures Normalize(Normalize(s)) == Normalize(s)
  {
    var u := Normalize(s);
    assert u == [] + u + [];
    TrimPadded([], u, []);
    UpperIdempotent(Trim(s));
  }

  /** Two strings that agree once upper-cased, and once trimmed, have the same
      normal form: letter case and surrounding white space never matter. */
  lemma NormalizeIgnoresCaseAndPadding(s: string, t: string, pre: string, post: string)
    requires Upper(s) == Upper(t)
    requires AllWhite(pre) && AllWhite(post)
    ensures Normalize(pre + s + post) == Normalize(t)
  {
    TrimIgnoresPadding(pre, s, post);
    UpperTrimCommute(s);
    UpperTrimCommute(t);
  }
}
