/** Python string operations the detector relies on: `str.split()` without an
    argument, `str.strip()` and `str.strip(chars)`, `str.split(sep)` with a
    one-character separator, `sep.join(...)` and `str.startswith`. */
module Strings {

  /** The characters for which Python's `str.isspace()` holds; `str.split()`
      and `str.strip()` without arguments treat exactly these as whitespace. */
  const Whitespace: set<char> := {
    '\t', '\n', '\U{B}', '\U{C}', '\r',
    '\U{1C}', '\U{1D}', '\U{1E}', '\U{1F}', ' ',
    '\U{85}', '\U{A0}', '\U{1680}',
    '\U{2000}', '\U{2001}', '\U{2002}', '\U{2003}', '\U{2004}', '\U{2005}',
    '\U{2006}', '\U{2007}', '\U{2008}', '\U{2009}', '\U{200A}',
    '\U{2028}', '\U{2029}', '\U{202F}', '\U{205F}', '\U{3000}'
  }

  predicate IsSpace(c: char) {
    c in Whitespace
  }

  /** A field produced by `str.split()`: non-empty and free of whitespace. */
  predicate IsWord(w: string) {
    |w| > 0 && forall i :: 0 <= i < |w| ==> !IsSpace(w[i])
  }

  predicate StartsWith(s: string, prefix: string) {
    |prefix| <= |s| && s[..|prefix|] == prefix
  }

  /** Length of the longest whitespace-free prefix of `s`. */
  function WordLength(s: string): (n: nat)
    ensures n <= |s|
    ensures forall i :: 0 <= i < n ==> !IsSpace(s[i])
    ensures n == |s| || IsSpace(s[n])
  {
    if s == [] || IsSpace(s[0]) then 0 else 1 + WordLength(s[1..])
  }

  /** `s.split()`: the maximal runs of non-whitespace characters, in order. */
  function Split(s: string): (r: seq<string>)
    decreases |s|
    ensures forall i :: 0 <= i < |r| ==> IsWord(r[i])
  {
    if s == [] then []
    else if IsSpace(s[0]) then Split(s[1..])
    else
      var n := WordLength(s);
      [s[..n]] + Split(s[n..])
  }

  /** `sep.join(parts)`. */
  function JoinWith(parts: seq<string>, sep: string): (r: string)
    ensures |parts| == 1 ==> r == parts[0]
  {
    if parts == [] then ""
    else if |parts| == 1 then parts[0]
    else parts[0] + sep + JoinWith(parts[1..], sep)
  }

  /** `s.split(sep)` for a one-character separator: the pieces between
      consecutive separators, always at least one (`"".split("\n") == [""]`). */
  function SplitOn(s: string, sep: char): (r: seq<string>)
    ensures |r| >= 1
    ensures forall i :: 0 <= i < |r| ==> sep !in r[i]
  {
    if s == [] then [""]
    else
      var rest := SplitOn(s[1..], sep);
      if s[0] == sep then [""] + rest
      else [[s[0]] + rest[0]] + rest[1..]
  }

  /** Number of leading characters of `s` that belong to `cs`. */
  function LeadingIn(s: string, cs: set<char>): (n: nat)
    ensures n <= |s|
    ensures forall i :: 0 <= i < n ==> s[i] in cs
    ensures n == |s| || s[n] !in cs
  {
    if s == [] || s[0] !in cs then 0 else 1 + LeadingIn(s[1..], cs)
  }

  /** Number of trailing characters of `s` that belong to `cs`. */
  function TrailingIn(s: string, cs: set<char>): (n: nat)
    ensures n <= |s|
    ensures forall i :: |s| - n <= i < |s| ==> s[i] in cs
    ensures n == |s| || s[|s| - 1 - n] !in cs
  {
    if s == [] || s[|s| - 1] !in cs then 0 else 1 + TrailingIn(s[..|s| - 1], cs)
  }

  /** `s.strip(chars)`: `s` without its leading and trailing characters from
      `cs`. The result is an infix of `s` that neither starts nor ends with a
      character of `cs`, and everything cut off belongs to `cs`. */
  function StripChars(s: string, cs: set<char>): (r: string)
    ensures exists i, j :: 0 <= i <= j <= |s| && r == s[i..j]
                         && (forall k :: 0 <= k < i ==> s[k] in cs)
                         && (forall k :: j <= k < |s| ==> s[k] in cs)
    ensures r != [] ==> r[0] !in cs && r[|r| - 1] !in cs
  {
    var i := LeadingIn(s, cs);
    var j := |s| - TrailingIn(s[i..], cs);
    StripBounds(s, cs);
    s[i..j]
  }

  /** Where `StripChars` cuts: after the leading and before the trailing
      characters from `cs`. */
  lemma StripBounds(s: string, cs: set<char>)
    ensures var i := LeadingIn(s, cs);
      var j := |s| - TrailingIn(s[i..], cs);
      && i <= j <= |s|
      && (forall k :: 0 <= k < i ==> s[k] in cs)
      && (forall k :: j <= k < |s| ==> s[k] in cs)
      && (i < j ==> s[i] !in cs && s[j - 1] !in cs)
  {
    var i := LeadingIn(s, cs);
    var t := s[i..];
    var n := TrailingIn(t, cs);
    var j := |s| - n;
    forall k | j <= k < |s| ensures s[k] in cs {
      assert s[k] == t[k - i];
    }
    if i < j {
      assert s[j - 1] == t[|t| - 1 - n];
    }
  }

  /** `s.strip()`. */
  function Strip(s: string): string {
    StripChars(s, Whitespace)
  }

  // ---------------------------------------------------------------------------
  // Lemmas

  lemma {:induction false} WordLengthOfWord(w: string, rest: string)
    requires IsWord(w)
    requires rest == [] || IsSpace(rest[0])
    ensures WordLength(w + rest) == |w|
  {
    if |w| > 1 {
      assert (w + rest)[1..] == w[1..] + rest;
      WordLengthOfWord(w[1..], rest);
    } else {
      assert (w + rest)[1..] == rest;
    }
  }

  /** Splitting a space-joined list of fields gives back the fields. */
  lemma {:induction false} SplitJoinSpace(ws: seq<string>)
    requires forall i :: 0 <= i < |ws| ==> IsWord(ws[i])
    ensures Split(JoinWith(ws, " ")) == ws
  {
    if ws == [] {
    } else if |ws| == 1 {
      WordLengthOfWord(ws[0], "");
      assert ws[0][..|ws[0]|] == ws[0];
      assert ws[0][|ws[0]|..] == [];
    } else {
      var w := ws[0];
      var rest := " " + JoinWith(ws[1..], " ");
      var s := JoinWith(ws, " ");
      assert s == w + rest;
      WordLengthOfWord(w, rest);
      assert s[..|w|] == w;
      assert s[|w|..] == rest;
      assert rest[1..] == JoinWith(ws[1..], " ");
      SplitJoinSpace(ws[1..]);
      assert Split(s) == [w] + Split(rest);
      assert Split(rest) == Split(rest[1..]);
    }
  }

  lemma {:induction false} SplitOnCons(c: char, s: string, sep: char)
    requires c != sep
    ensures SplitOn([c] + s, sep)[0] == [c] + SplitOn(s, sep)[0]
    ensures SplitOn([c] + s, sep)[1..] == SplitOn(s, sep)[1..]
  {
    assert ([c] + s)[1..] == s;
  }

  lemma {:induction false} SplitOnPrefix(w: string, s: string, sep: char)
    requires sep !in w
    ensures SplitOn(w + s, sep)[0] == w + SplitOn(s, sep)[0]
    ensures SplitOn(w + s, sep)[1..] == SplitOn(s, sep)[1..]
  {
    if w == [] {
      assert w + s == s;
    } else {
      assert w + s == [w[0]] + (w[1..] + s);
      SplitOnPrefix(w[1..], s, sep);
      SplitOnCons(w[0], w[1..] + s, sep);
      assert w == [w[0]] + w[1..];
    }
  }

  /** Splitting a `sep`-joined list of separator-free pieces gives back the
      pieces. */
  lemma {:induction false} SplitOnJoin(parts: seq<string>, sep: char)
    requires |parts| >= 1
    requires forall i :: 0 <= i < |parts| ==> sep !in parts[i]
    ensures SplitOn(JoinWith(parts, [sep]), sep) == parts
  {
    if |parts| == 1 {
      SplitOnPrefix(parts[0], "", sep);
      assert parts[0] + "" == parts[0];
    } else {
      var tail := JoinWith(parts[1..], [sep]);
      assert JoinWith(parts, [sep]) == parts[0] + ([sep] + tail);
      SplitOnPrefix(parts[0], [sep] + tail, sep);
      assert ([sep] + tail)[1..] == tail;
      SplitOnJoin(parts[1..], sep);
      assert SplitOn([sep] + tail, sep) == [""] + parts[1..];
      assert parts[0] + "" == parts[0];
      assert parts == [parts[0]] + parts[1..];
    }
  }

  /** Joining the pieces of a split with the separator gives back the text. */
  lemma {:induction false} JoinSplitOn(s: string, sep: char)
    ensures JoinWith(SplitOn(s, sep), [sep]) == s
  {
    if s != [] {
      var rest := SplitOn(s[1..], sep);
      JoinSplitOn(s[1..], sep);
      if s[0] == sep {
        assert SplitOn(s, sep) == [""] + rest;
        JoinCons("", rest, [sep]);
      } else {
        var r := [[s[0]] + rest[0]] + rest[1..];
        assert SplitOn(s, sep) == r;
        assert rest == [rest[0]] + rest[1..];
        JoinHead(rest, [sep]);
        JoinHead(r, [sep]);
        assert r[1..] == rest[1..];
        assert s == [s[0]] + s[1..];
      }
    }
  }

  lemma JoinCons(p: string, ps: seq<string>, sep: string)
    requires |ps| >= 1
    ensures JoinWith([p] + ps, sep) == p + sep + JoinWith(ps, sep)
  {
    assert ([p] + ps)[1..] == ps;
  }

  /** The join is the first piece followed by the join of the rest. */
  lemma JoinHead(ps: seq<string>, sep: string)
    requires |ps| >= 1
    ensures JoinWith(ps, sep) == ps[0] + (if |ps| == 1 then "" else sep + JoinWith(ps[1..], sep))
  {
  }

  /** Whitespace in front does not change `str.split()`. */
  lemma {:induction false} SplitLeading(s: string, i: nat)
    requires i <= |s| && forall k :: 0 <= k < i ==> IsSpace(s[k])
    ensures Split(s[i..]) == Split(s)
  {
    if i > 0 {
      assert s[1..][i - 1..] == s[i..];
      SplitLeading(s[1..], i - 1);
    }
  }

  /** A string of whitespace splits into nothing. */
  lemma {:induction false} SplitAllSpace(s: string)
    requires forall k :: 0 <= k < |s| ==> IsSpace(s[k])
    ensures Split(s) == []
  {
    if s != [] {
      SplitAllSpace(s[1..]);
    }
  }

  /** Whitespace at the end does not change `str.split()`. */
  lemma {:induction false} SplitTrailing(t: string, m: nat)
    requires m <= |t| && forall k :: m <= k < |t| ==> IsSpace(t[k])
    ensures Split(t[..m]) == Split(t)
    decreases |t|
  {
    if m == 0 {
      SplitAllSpace(t);
    } else if IsSpace(t[0]) {
      assert t[..m][1..] == t[1..][..m - 1];
      SplitTrailing(t[1..], m - 1);
    } else {
      var n := WordLength(t);
      if m < |t| {
        assert IsSpace(t[m]);
      }
      assert n <= m;
      assert WordLength(t[..m]) == n;
      assert t[..m][..n] == t[..n];
      assert t[..m][n..] == t[n..][..m - n];
      SplitTrailing(t[n..], m - n);
    }
  }

  /** `s.strip().split() == s.split()`. */
  lemma SplitStrip(s: string)
    ensures Split(Strip(s)) == Split(s)
  {
    var i := LeadingIn(s, Whitespace);
    var t := s[i..];
    var m := |t| - TrailingIn(t, Whitespace);
    assert Strip(s) == t[..m];
    SplitLeading(s, i);
    SplitTrailing(t, m);
  }

  /** A string that neither starts nor ends with whitespace is its own strip. */
  lemma StripNoEnds(s: string)
    requires s != [] && !IsSpace(s[0]) && !IsSpace(s[|s| - 1])
    ensures Strip(s) == s
  {
    assert LeadingIn(s, Whitespace) == 0;
    assert s[0..] == s;
  }

  /** Printable ASCII other than the space is not whitespace. */
  lemma VisibleNotSpace(c: char)
    requires ' ' < c <= '~'
    ensures !IsSpace(c)
  {
  }

  /** `s.split(sep)` has a second piece exactly when `sep` occurs in `s`. */
  lemma {:induction false} SplitOnMany(s: string, sep: char)
    ensures |SplitOn(s, sep)| >= 2 <==> sep in s
  {
    if s != [] {
      SplitOnMany(s[1..], sep);
      assert s == [s[0]] + s[1..];
    }
  }

  lemma StartsWithPrefix(p: string, rest: string)
    ensures StartsWith(p + rest, p)
  {
    assert (p + rest)[..|p|] == p;
  }
}
