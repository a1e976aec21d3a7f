/** The part of Python's `json` module the detector uses: `json.dumps` with
    its default settings (`ensure_ascii=True`, separators `", "` and `": "`)
    and `json.loads` as the C scanner of CPython reads strings, integers and
    arrays. */
module Json {
  import opened Wrappers
  import opened Strings
  import opened Digits

  datatype Value =
    | Str(s: string)
    | Int(i: int)
    | Arr(items: seq<Value>)
    | Obj(fields: seq<(string, Value)>)   // a `dict`, in insertion order

  datatype DecodeError =
    | ExpectingValue
    | ExpectingDelimiter
    | UnterminatedString
    | InvalidControlCharacter
    | InvalidEscape
    | InvalidUnicodeEscape
    | ExtraData
    | Unsupported      // an object, a float, a literal or a lone surrogate: not modelled

  // ---------------------------------------------------------------------------
  // Hexadecimal digits of `\uXXXX` escapes

  predicate IsHex(c: char) {
    ('0' <= c <= '9') || ('a' <= c <= 'f') || ('A' <= c <= 'F')
  }

  /** The lower-case digit `'{0:x}'.format(d)` writes. */
  function HexDigit(d: nat): (c: char)
    requires d < 16
    ensures IsHex(c)
  {
    if d < 10 then (('0' as int) + d) as char else (('a' as int) + d - 10) as char
  }

  function HexValue(c: char): (d: nat)
    requires IsHex(c)
    ensures d < 16
  {
    if '0' <= c <= '9' then (c as int) - ('0' as int)
    else if 'a' <= c <= 'f' then (c as int) - ('a' as int) + 10
    else (c as int) - ('A' as int) + 10
  }

  /** `'{0:04x}'.format(n)`. */
  function Hex4(n: nat): (h: string)
    requires n < 0x10000
    ensures |h| == 4 && forall i :: 0 <= i < 4 ==> IsHex(h[i])
  {
    [HexDigit(n / 16 / 16 / 16), HexDigit(n / 16 / 16 % 16), HexDigit(n / 16 % 16), HexDigit(n % 16)]
  }

  /** Four hexadecimal digits start at position `i` of `u`. */
  predicate Hex4At(u: string, i: nat) {
    i + 4 <= |u| && IsHex(u[i]) && IsHex(u[i + 1]) && IsHex(u[i + 2]) && IsHex(u[i + 3])
  }

  function Hex4Value(u: string, i: nat): (n: nat)
    requires Hex4At(u, i)
    ensures n < 0x10000
  {
    HexValue(u[i]) * 0x1000 + HexValue(u[i + 1]) * 0x100 + HexValue(u[i + 2]) * 16 + HexValue(u[i + 3])
  }

  lemma HexDigitValue(d: nat)
    requires d < 16
    ensures HexValue(HexDigit(d)) == d
  {
  }

  /** Reading back the four digits `Hex4` writes gives the number. */
  lemma Hex4RoundTrip(n: nat, u: string, i: nat)
    requires n < 0x10000 && i + 4 <= |u| && u[i..i + 4] == Hex4(n)
    ensures Hex4At(u, i) && Hex4Value(u, i) == n
  {
    var h := Hex4(n);
    assert u[i] == h[0] && u[i + 1] == h[1] && u[i + 2] == h[2] && u[i + 3] == h[3];
    var q1 := n / 16;
    var q2 := q1 / 16;
    var q3 := q2 / 16;
    HexDigitValue(q3);
    HexDigitValue(q2 % 16);
    HexDigitValue(q1 % 16);
    HexDigitValue(n % 16);
    assert n == q1 * 16 + n % 16;
    assert q1 == q2 * 16 + q1 % 16;
    assert q2 == q3 * 16 + q2 % 16;
  }

  // ---------------------------------------------------------------------------
  // Strings

  const Backspace: char := '\U{8}'
  const FormFeed: char := '\U{C}'

  /** What `ensure_ascii` writes for one character: a two-character escape for
      the quote, the backslash and five control characters, the character
      itself when it is printable ASCII, `\uXXXX` for the rest of the Basic
      Multilingual Plane and a surrogate pair of escapes above it. */
  function Escape(c: char): (e: string)
    ensures |e| >= 1
  {
    if c == '"' then ['\\', '"']
    else if c == '\\' then ['\\', '\\']
    else if c == '\n' then ['\\', 'n']
    else if c == '\r' then ['\\', 'r']
    else if c == '\t' then ['\\', 't']
    else if c == Backspace then ['\\', 'b']
    else if c == FormFeed then ['\\', 'f']
    else if ' ' <= c <= '~' then [c]
    else if (c as int) < 0x10000 then ['\\', 'u'] + Hex4(c as int)
    else
      var n := (c as int) - 0x10000;
      ['\\', 'u'] + Hex4(0xD800 + n / 0x400) + ['\\', 'u'] + Hex4(0xDC00 + n % 0x400)
  }

  /** The escaped body of a string, without the quotes. */
  function EscapeAll(s: string): (e: string)
    ensures forall i :: 0 <= i < |e| ==> ' ' <= e[i] <= '~'
  {
    if s == [] then [] else Escape(s[0]) + EscapeAll(s[1..])
  }

  /** `json.dumps` of a string. */
  function Quote(s: string): string {
    "\"" + EscapeAll(s) + "\""
  }

  /** The escape after a backslash (`u` is what follows the backslash): the
      character it stands for and the text after it. */
  function ParseEscape(u: string): (r: Result<(char, string), DecodeError>)
    requires |u| >= 1
    ensures r.Ok? ==> |r.value.1| < |u|
  {
    var e := u[0];
    if e == '"' then Ok(('"', u[1..]))
    else if e == '\\' then Ok(('\\', u[1..]))
    else if e == '/' then Ok(('/', u[1..]))
    else if e == 'b' then Ok((Backspace, u[1..]))
    else if e == 'f' then Ok((FormFeed, u[1..]))
    else if e == 'n' then Ok(('\n', u[1..]))
    else if e == 'r' then Ok(('\r', u[1..]))
    else if e == 't' then Ok(('\t', u[1..]))
    else if e != 'u' then Err(InvalidEscape)
    else if !Hex4At(u, 1) then Err(InvalidUnicodeEscape)
    else
      var x := Hex4Value(u, 1);
      if 0xD800 <= x <= 0xDBFF && 7 <= |u| && u[5] == '\\' && u[6] == 'u' then
        if !Hex4At(u, 7) then Err(InvalidUnicodeEscape)
        else
          var y := Hex4Value(u, 7);
          if 0xDC00 <= y <= 0xDFFF then Ok(((0x10000 + (x - 0xD800) * 0x400 + (y - 0xDC00)) as char, u[11..]))
          else Err(Unsupported)
      else if 0xD800 <= x <= 0xDFFF then Err(Unsupported)
      else Ok((x as char, u[5..]))
  }

  /** The body of a string after its opening quote: the characters up to the
      closing quote and the text after it. */
  function ParseStringBody(t: string): (r: Result<(string, string), DecodeError>)
    ensures r.Ok? ==> |r.value.1| < |t|
    decreases |t|
  {
    if t == [] then Err(UnterminatedString)
    else if t[0] == '"' then Ok(([], t[1..]))
    else if t[0] == '\\' then
      if |t| < 2 then Err(UnterminatedString)
      else match ParseEscape(t[1..])
        case Err(e) => Err(e)
        case Ok((c, more)) =>
          match ParseStringBody(more)
          case Err(e) => Err(e)
          case Ok((s, rest)) => Ok(([c] + s, rest))
    else if (t[0] as int) < 0x20 then Err(InvalidControlCharacter)
    else match ParseStringBody(t[1..])
      case Err(e) => Err(e)
      case Ok((s, rest)) => Ok(([t[0]] + s, rest))
  }

  /** A character above the Basic Multilingual Plane: its surrogate pair of
      escapes reads back as the character. */
  lemma PairRoundTrip(c: char, more: string)
    requires (c as int) >= 0x10000
    ensures var e := Escape(c); |e| >= 2 && ParseEscape(e[1..] + more) == Ok((c, more))
  {
    var e := Escape(c);
    var n := (c as int) - 0x10000;
    var hi := 0xD800 + n / 0x400;
    var lo := 0xDC00 + n % 0x400;
    var h, l := Hex4(hi), Hex4(lo);
    assert e == ['\\', 'u'] + h + ['\\', 'u'] + l;
    assert e[1..] == ['u'] + h + ['\\', 'u'] + l;
    var u := e[1..] + more;
    PairSlices(h, l, more, u);
    Hex4RoundTrip(hi, u, 1);
    Hex4RoundTrip(lo, u, 7);
    SurrogateSplit(c as int);
    ParsePair(u, hi, lo);
  }

  /** Where the parts of `u` followed by a surrogate pair's escapes lie. */
  lemma PairSlices(h: string, l: string, more: string, u: string)
    requires |h| == 4 && |l| == 4
    requires u == ['u'] + h + ['\\', 'u'] + l + more
    ensures |u| >= 11 && u[0] == 'u' && u[5] == '\\' && u[6] == 'u'
    ensures u[1..5] == h && u[7..11] == l && u[11..] == more
  {
  }

  /** Splitting a code point above the Basic Multilingual Plane into its high
      and low surrogates, and putting them back together. */
  lemma SurrogateSplit(p: int)
    requires 0x10000 <= p < 0x110000
    ensures var n := p - 0x10000;
      && 0xD800 <= 0xD800 + n / 0x400 <= 0xDBFF
      && 0xDC00 <= 0xDC00 + n % 0x400 <= 0xDFFF
      && 0x10000 + n / 0x400 * 0x400 + n % 0x400 == p
  {
  }

  /** `\uD8xx\uDCxx` after the backslash: the character of the pair. */
  lemma ParsePair(u: string, hi: nat, lo: nat)
    requires |u| >= 11 && u[0] == 'u' && u[5] == '\\' && u[6] == 'u'
    requires Hex4At(u, 1) && Hex4Value(u, 1) == hi && 0xD800 <= hi <= 0xDBFF
    requires Hex4At(u, 7) && Hex4Value(u, 7) == lo && 0xDC00 <= lo <= 0xDFFF
    ensures ParseEscape(u) == Ok(((0x10000 + (hi - 0xD800) * 0x400 + (lo - 0xDC00)) as char, u[11..]))
  {
  }

  /** A character of the Basic Multilingual Plane escaped as `\uXXXX` reads
      back as the character. */
  lemma BmpRoundTrip(c: char, more: string)
    requires (c as int) < 0x10000 && !(' ' <= c <= '~')
    requires c !in {'\n', '\r', '\t', Backspace, FormFeed}
    ensures var e := Escape(c); |e| >= 2 && ParseEscape(e[1..] + more) == Ok((c, more))
  {
    var e := Escape(c);
    var u := e[1..] + more;
    assert e == ['\\', 'u'] + Hex4(c as int);
    assert u[1..5] == Hex4(c as int);
    Hex4RoundTrip(c as int, u, 1);
    assert u[5..] == more;
  }

  /** The escape of one character reads back as that character. */
  lemma EscapeRoundTrip(c: char, more: string)
    requires Escape(c)[0] == '\\'
    ensures var e := Escape(c); |e| >= 2 && ParseEscape(e[1..] + more) == Ok((c, more))
  {
    if (c as int) >= 0x10000 {
      PairRoundTrip(c, more);
    } else if !(' ' <= c <= '~') && c !in {'\n', '\r', '\t', Backspace, FormFeed} {
      BmpRoundTrip(c, more);
    }
  }

  /** Escaping a string and closing the quote reads back as the string. */
  lemma {:induction false} StringRoundTrip(s: string, rest: string)
    ensures ParseStringBody(EscapeAll(s) + "\"" + rest) == Ok((s, rest))
  {
    if s == [] {
      assert EscapeAll(s) + "\"" + rest == "\"" + rest;
    } else {
      var more := EscapeAll(s[1..]) + "\"" + rest;
      StringRoundTrip(s[1..], rest);
      EscapeAllCons(s, rest);
      BodyStep(s[0], more, s[1..], rest);
      ConsSlice(s, 0);
    }
  }

  lemma EscapeAllCons(s: string, rest: string)
    requires s != []
    ensures EscapeAll(s) + "\"" + rest == Escape(s[0]) + (EscapeAll(s[1..]) + "\"" + rest)
  {
  }

  /** The string body over the escape of one character. */
  lemma BodyStep(c: char, more: string, s: string, rest: string)
    requires ParseStringBody(more) == Ok((s, rest))
    ensures ParseStringBody(Escape(c) + more) == Ok(([c] + s, rest))
  {
    if Escape(c)[0] == '\\' {
      BodyStepEscaped(c, more, s, rest);
    } else {
      BodyStepPlain(c, more, s, rest);
    }
  }

  lemma BodyStepEscaped(c: char, more: string, s: string, rest: string)
    requires Escape(c)[0] == '\\'
    requires ParseStringBody(more) == Ok((s, rest))
    ensures ParseStringBody(Escape(c) + more) == Ok(([c] + s, rest))
  {
    var t := Escape(c) + more;
    EscapeRoundTrip(c, more);
    DropFirst(Escape(c), more);
    BodyEscaped(t, c, more, s, rest);
  }

  lemma DropFirst(e: string, more: string)
    requires |e| >= 2
    ensures |e + more| >= 2 && (e + more)[0] == e[0] && (e + more)[1..] == e[1..] + more
  {
  }

  lemma BodyStepPlain(c: char, more: string, s: string, rest: string)
    requires Escape(c)[0] != '\\'
    requires ParseStringBody(more) == Ok((s, rest))
    ensures ParseStringBody(Escape(c) + more) == Ok(([c] + s, rest))
  {
    EscapePlain(c);
    var t := Escape(c) + more;
    assert t == [c] + more;
    BodyPlain(t, s, rest);
  }

  /** A character escaped without a backslash is itself, printable and
      neither a quote nor a backslash. */
  lemma EscapePlain(c: char)
    requires Escape(c)[0] != '\\'
    ensures Escape(c) == [c] && ' ' <= c <= '~' && c != '"' && c != '\\'
  {
  }

  /** One step of the string body over an escape. */
  lemma BodyEscaped(t: string, c: char, more: string, s: string, rest: string)
    requires |t| >= 2 && t[0] == '\\' && ParseEscape(t[1..]) == Ok((c, more))
    requires ParseStringBody(more) == Ok((s, rest))
    ensures ParseStringBody(t) == Ok(([c] + s, rest))
  {
  }

  /** One step of the string body over a plain character. */
  lemma BodyPlain(t: string, s: string, rest: string)
    requires t != [] && t[0] != '"' && t[0] != '\\' && (t[0] as int) >= 0x20
    requires ParseStringBody(t[1..]) == Ok((s, rest))
    ensures ParseStringBody(t) == Ok(([t[0]] + s, rest))
  {
  }

  // ---------------------------------------------------------------------------
  // Numbers

  /** Length of the run of ASCII digits at the start of `s`. */
  function DigitRun(s: string): (n: nat)
    ensures n <= |s|
    ensures forall i :: 0 <= i < n ==> IsDigit(s[i])
    ensures n == |s| || !IsDigit(s[n])
  {
    if s == [] || !IsDigit(s[0]) then 0 else 1 + DigitRun(s[1..])
  }

  /** A fraction `.d` or an exponent `e[+-]d` follows the integer part: the
      scanner reads a float. */
  predicate FloatTail(a: string) {
    || (|a| >= 2 && a[0] == '.' && IsDigit(a[1]))
    || (|a| >= 2 && (a[0] == 'e' || a[0] == 'E') && IsDigit(a[1]))
    || (|a| >= 3 && (a[0] == 'e' || a[0] == 'E') && (a[1] == '+' || a[1] == '-') && IsDigit(a[2]))
  }

  /** A number `-?(0|[1-9][0-9]*)` at the start of `t`; a float is not
      modelled. */
  function ParseNumber(t: string): (r: Result<(Value, string), DecodeError>)
    requires t != []
    ensures r.Ok? ==> |r.value.1| < |t|
  {
    if t[0] == '-' then
      match ParseUnsigned(t[1..])
      case Err(e) => Err(e)
      case Ok((m, after)) => Ok((Int(-(m as int)), after))
    else
      match ParseUnsigned(t)
      case Err(e) => Err(e)
      case Ok((m, after)) => Ok((Int(m), after))
  }

  /** The digits `0|[1-9][0-9]*` of a number and the text after them. */
  function ParseUnsigned(u: string): (r: Result<(nat, string), DecodeError>)
    ensures r.Ok? ==> |r.value.1| < |u|
  {
    if u == [] || !IsDigit(u[0]) then Err(ExpectingValue)
    else
      var n := if u[0] == '0' then 1 else 1 + DigitRun(u[1..]);
      var after := u[n..];
      if FloatTail(after) then Err(Unsupported)
      else Ok((Digits.Value(u[..n]), after))
  }

  /** `json.dumps` of an integer: `str(i)`. */
  function IntText(i: int): string {
    if i < 0 then "-" + NatToString(-i) else NatToString(i)
  }

  // ---------------------------------------------------------------------------
  // Values

  /** What the scanner skips between tokens. */
  const JsonWhitespace: set<char> := {' ', '\t', '\n', '\r'}

  function SkipWs(t: string): (r: string)
    ensures |r| <= |t|
    ensures r == [] || r[0] !in JsonWhitespace
  {
    t[LeadingIn(t, JsonWhitespace)..]
  }

  /** `json.dumps(v)`. */
  function Dumps(v: Value): string
    decreases v
  {
    match v
    case Str(s) => Quote(s)
    case Int(i) => IntText(i)
    case Arr(items) =>
      "[" + JoinWith(seq(|items|, k requires 0 <= k < |items| => Dumps(items[k])), ", ") + "]"
    case Obj(fields) =>
      "{" + JoinWith(seq(|fields|, k requires 0 <= k < |fields| => Quote(fields[k].0) + ": " + Dumps(fields[k].1)), ", ") + "}"
  }

  /** The value at the start of `t` and the text after it. */
  function ParseValue(t: string): (r: Result<(Value, string), DecodeError>)
    ensures r.Ok? ==> |r.value.1| < |t|
    decreases |t|, 1
  {
    if t == [] then Err(ExpectingValue)
    else if t[0] == '"' then
      match ParseStringBody(t[1..])
      case Err(e) => Err(e)
      case Ok((s, rest)) => Ok((Str(s), rest))
    else if t[0] == '[' then ParseArray(t[1..])
    else if t[0] == '-' || IsDigit(t[0]) then ParseNumber(t)
    else if t[0] == '{' || StartsWith(t, "null") || StartsWith(t, "true") || StartsWith(t, "false")
         || StartsWith(t, "NaN") || StartsWith(t, "Infinity") then Err(Unsupported)
    else Err(ExpectingValue)
  }

  /** An array after its opening bracket. */
  function ParseArray(t: string): (r: Result<(Value, string), DecodeError>)
    ensures r.Ok? ==> |r.value.1| < |t|
    decreases |t|, 3
  {
    var u := SkipWs(t);
    if u != [] && u[0] == ']' then Ok((Arr([]), u[1..]))
    else match ParseElements(u)
      case Err(e) => Err(e)
      case Ok((items, rest)) => Ok((Arr(items), rest))
  }

  /** The elements of a non-empty array and the text after its closing
      bracket. */
  function ParseElements(t: string): (r: Result<(seq<Value>, string), DecodeError>)
    ensures r.Ok? ==> |r.value.1| < |t|
    decreases |t|, 2
  {
    match ParseValue(t)
    case Err(e) => Err(e)
    case Ok((v, after)) =>
      var a := SkipWs(after);
      if a == [] then Err(ExpectingDelimiter)
      else if a[0] == ']' then Ok(([v], a[1..]))
      else if a[0] != ',' then Err(ExpectingDelimiter)
      else
        var b := SkipWs(a[1..]);
        if b != [] && b[0] == ']' then Err(ExpectingValue)    // a trailing comma
        else match ParseElements(b)
          case Err(e) => Err(e)
          case Ok((vs, rest)) => Ok(([v] + vs, rest))
  }

  /** `json.loads(text)`: one value, with whitespace around it and nothing else. */
  function Loads(text: string): Result<Value, DecodeError> {
    match ParseValue(SkipWs(text))
    case Err(e) => Err(e)
    case Ok((v, rest)) => if SkipWs(rest) != [] then Err(ExtraData) else Ok(v)
  }

  // ---------------------------------------------------------------------------
  // Properties

  /** The values `Loads` reads back: strings, integers and arrays of them. */
  predicate Loadable(v: Value)
    decreases v
  {
    match v
    case Str(_) => true
    case Int(_) => true
    case Arr(items) => forall k :: 0 <= k < |items| ==> Loadable(items[k])
    case Obj(_) => false
  }

  /** What may follow an integer without extending it. */
  predicate EndsNumber(rest: string) {
    rest == [] || (!IsDigit(rest[0]) && rest[0] != '.' && rest[0] != 'e' && rest[0] != 'E')
  }

  lemma SkipNoWs(t: string)
    requires t == [] || t[0] !in JsonWhitespace
    ensures SkipWs(t) == t
  {
  }

  lemma SkipOneSpace(t: string)
    requires t == [] || t[0] !in JsonWhitespace
    ensures SkipWs(" " + t) == t
  {
    assert (" " + t)[1..] == t;
  }

  lemma {:induction false} DigitRunAll(d: string, rest: string)
    requires forall i :: 0 <= i < |d| ==> IsDigit(d[i])
    requires rest == [] || !IsDigit(rest[0])
    ensures DigitRun(d + rest) == |d|
  {
    if d != [] {
      assert (d + rest)[1..] == d[1..] + rest;
      DigitRunAll(d[1..], rest);
    } else {
      assert d + rest == rest;
    }
  }

  /** `str(n)` followed by a non-digit reads back as `n`. */
  lemma NatRoundTrip(n: nat, rest: string)
    requires EndsNumber(rest)
    ensures ParseUnsigned(NatToString(n) + rest) == Ok((n, rest))
  {
    var d := NatToString(n);
    var t := d + rest;
    assert t[0] == d[0];
    ValueOfNatToString(n);
    if d[0] == '0' {
      assert |d| == 1;
      assert t[..1] == d && t[1..] == rest;
    } else {
      assert t[1..] == d[1..] + rest;
      DigitRunAll(d[1..], rest);
      assert t[..|d|] == d && t[|d|..] == rest;
    }
  }

  /** `str(i)` followed by a non-digit reads back as `i`. */
  lemma IntRoundTrip(i: int, rest: string)
    requires EndsNumber(rest)
    ensures ParseNumber(IntText(i) + rest) == Ok((Int(i), rest))
  {
    var n: nat := if i < 0 then -i else i;
    NatRoundTrip(n, rest);
    var d := NatToString(n);
    assert IsDigits(d);
    if i < 0 {
      var t := "-" + d + rest;
      assert t[1..] == d + rest;
    } else {
      assert (d + rest)[0] == d[0];
    }
  }

  /** `Dumps` starts with a quote, a bracket, a brace, a minus or a digit. */
  lemma DumpsStart(v: Value)
    ensures |Dumps(v)| >= 1
    ensures Dumps(v)[0] in {'"', '[', '{', '-'} || IsDigit(Dumps(v)[0])
    ensures Dumps(v)[0] !in JsonWhitespace && Dumps(v)[0] != ']'
  {
    if v.Int? && v.i >= 0 {
      assert IsDigits(NatToString(v.i));
    }
  }

  /** `Dumps` ends with a quote, a bracket, a brace or a digit. */
  lemma DumpsEnd(v: Value)
    ensures |Dumps(v)| >= 1
    ensures Dumps(v)[|Dumps(v)| - 1] in {'"', ']', '}'} || IsDigit(Dumps(v)[|Dumps(v)| - 1])
  {
    if v.Int? {
      var d := NatToString(if v.i < 0 then -v.i else v.i);
      assert IsDigits(d) && d[|d| - 1] == Dumps(v)[|Dumps(v)| - 1];
    }
  }

  // One step of the scanner at a time

  lemma ParseValueNumber(t: string)
    requires t != [] && (t[0] == '-' || IsDigit(t[0]))
    ensures ParseValue(t) == ParseNumber(t)
  {
  }

  lemma ParseValueString(t: string)
    requires t != [] && t[0] == '"'
    ensures ParseValue(t) == match ParseStringBody(t[1..])
                             case Err(e) => Err(e)
                             case Ok((s, rest)) => Ok((Str(s), rest))
  {
  }

  lemma ParseValueArray(t: string)
    requires t != [] && t[0] == '['
    ensures ParseValue(t) == ParseArray(t[1..])
  {
  }

  lemma ParseArrayEmpty(rest: string)
    ensures ParseArray("]" + rest) == Ok((Arr([]), rest))
  {
    SkipNoWs("]" + rest);
    assert ("]" + rest)[1..] == rest;
  }

  lemma ParseArrayElements(t: string)
    requires t != [] && t[0] !in JsonWhitespace && t[0] != ']'
    ensures ParseArray(t) == match ParseElements(t)
                             case Err(e) => Err(e)
                             case Ok((items, rest)) => Ok((Arr(items), rest))
  {
    SkipNoWs(t);
  }

  lemma ParseElementsLast(t: string, v: Value, rest: string)
    requires ParseValue(t) == Ok((v, "]" + rest))
    ensures ParseElements(t) == Ok(([v], rest))
  {
    SkipNoWs("]" + rest);
    assert ("]" + rest)[1..] == rest;
  }

  lemma ParseElementsCons(t: string, v: Value, tail: string, vs: seq<Value>, rest: string)
    requires tail != [] && tail[0] !in JsonWhitespace && tail[0] != ']'
    requires ParseValue(t) == Ok((v, ", " + tail))
    requires ParseElements(tail) == Ok((vs, rest))
    ensures ParseElements(t) == Ok(([v] + vs, rest))
  {
    SkipNoWs(", " + tail);
    assert (", " + tail)[1..] == " " + tail;
    SkipOneSpace(tail);
  }

  function DumpsAll(items: seq<Value>): (ds: seq<string>)
    ensures |ds| == |items| && forall k :: 0 <= k < |items| ==> ds[k] == Dumps(items[k])
  {
    seq(|items|, k requires 0 <= k < |items| => Dumps(items[k]))
  }

  /** A loadable value followed by text that cannot extend it reads back as
      the value. */
  lemma {:induction false} ValueRoundTrip(v: Value, rest: string)
    requires Loadable(v) && EndsNumber(rest)
    ensures ParseValue(Dumps(v)+ rest) == Ok((v, rest))
    decreases v, if v.Arr? then |v.items| + 2 else 0, 0
  {
    match v
    case Str(s) =>
      StrValueRoundTrip(s, rest);
    case Int(i) =>
      IntValueRoundTrip(i, rest);
    case Arr(items) =>
      ArrayRoundTrip(v, rest);
  }

  lemma StrValueRoundTrip(s: string, rest: string)
    requires EndsNumber(rest)
    ensures ParseValue(Dumps(Str(s)) + rest) == Ok((Str(s), rest))
  {
    QuoteSplit(s, rest);
    StringRoundTrip(s, rest);
    ParseValueString(Dumps(Str(s)) + rest);
  }

  /** The text of a string value: a quote, then the body the string parser reads. */
  lemma QuoteSplit(s: string, rest: string)
    ensures var t := Dumps(Str(s)) + rest;
      t != [] && t[0] == '"' && t[1..] == EscapeAll(s) + "\"" + rest
  {
    var body := EscapeAll(s) + "\"" + rest;
    assert Dumps(Str(s)) + rest == "\"" + body;
  }

  lemma IntValueRoundTrip(i: int, rest: string)
    requires EndsNumber(rest)
    ensures ParseValue(Dumps(Int(i)) + rest) == Ok((Int(i), rest))
  {
    DumpsStart(Int(i));
    IntRoundTrip(i, rest);
    ParseValueNumber(Dumps(Int(i)) + rest);
  }

  lemma {:induction false} ArrayRoundTrip(v: Value, rest: string)
    requires v.Arr? && Loadable(v)
    ensures ParseValue(Dumps(v) + rest) == Ok((v, rest))
    decreases v, |v.items| + 1, 0
  {
    var ds := DumpsAll(v.items);
    var body := JoinWith(ds, ", ") + ("]" + rest);
    var t := Dumps(v) + rest;
    assert Dumps(v) == "[" + JoinWith(ds, ", ") + "]";
    assert t == "[" + body;
    ParseValueArray(t);
    assert t[1..] == body;
    if v.items == [] {
      assert body == "]" + rest;
      ParseArrayEmpty(rest);
    } else {
      ElementsRoundTrip(v, 0, rest);
      NonEmptyArray(v, rest);
    }
  }

  lemma NonEmptyArray(v: Value, rest: string)
    requires v.Arr? && v.items != []
    requires ParseElements(JoinWith(DumpsAll(v.items)[0..], ", ") + ("]" + rest)) == Ok((v.items[0..], rest))
    ensures ParseArray(JoinWith(DumpsAll(v.items), ", ") + ("]" + rest)) == Ok((v, rest))
  {
    var ds := DumpsAll(v.items);
    var more := "]" + rest;
    DumpsStart(v.items[0]);
    JoinStart(ds, ", ", more);
    assert ds[0..] == ds;
    ParseArrayElements(JoinWith(ds, ", ") + more);
    assert v.items[0..] == v.items;
  }

  /** A join followed by more text starts with its first piece's first character. */
  lemma JoinStart(ds: seq<string>, sep: string, more: string)
    requires |ds| >= 1 && |ds[0]| >= 1
    ensures |JoinWith(ds, sep) + more| >= 1 && (JoinWith(ds, sep) + more)[0] == ds[0][0]
  {
    JoinHead(ds, sep);
  }

  /** The elements of a dumped array from position `k` on read back. */
  lemma {:induction false} ElementsRoundTrip(parent: Value, k: nat, rest: string)
    requires parent.Arr? && Loadable(parent) && k < |parent.items|
    ensures ParseElements(JoinWith(DumpsAll(parent.items)[k..], ", ") + ("]" + rest)) == Ok((parent.items[k..], rest))
    decreases parent, |parent.items| - k, 1
  {
    var items := parent.items;
    var ds := DumpsAll(items);
    if k == |items| - 1 {
      LastElementRoundTrip(parent, k, rest);
    } else {
      ElementsRoundTrip(parent, k + 1, rest);
      var tail := JoinWith(ds[k + 1..], ", ") + ("]" + rest);
      ValueRoundTrip(items[k], ", " + tail);
      DumpsStart(items[k + 1]);
      ElementsStep(ds, items, k, rest);
    }
  }

  lemma LastElementRoundTrip(parent: Value, k: nat, rest: string)
    requires parent.Arr? && Loadable(parent) && k == |parent.items| - 1
    ensures ParseElements(JoinWith(DumpsAll(parent.items)[k..], ", ") + ("]" + rest)) == Ok((parent.items[k..], rest))
    decreases parent, 0, 0
  {
    var items := parent.items;
    var ds := DumpsAll(items);
    var t := JoinWith(ds[k..], ", ") + ("]" + rest);
    assert ds[k..] == [Dumps(items[k])];
    assert t == Dumps(items[k]) + ("]" + rest);
    ValueRoundTrip(items[k], "]" + rest);
    ParseElementsLast(t, items[k], rest);
    assert items[k..] == [items[k]];
  }

  /** One more element in front of elements that read back. */
  lemma ElementsStep(ds: seq<string>, items: seq<Value>, k: nat, rest: string)
    requires |ds| == |items| && k + 1 < |ds|
    requires ds[k + 1] != [] && ds[k + 1][0] !in JsonWhitespace && ds[k + 1][0] != ']'
    requires ParseValue(ds[k] + (", " + (JoinWith(ds[k + 1..], ", ") + ("]" + rest)))) ==
             Ok((items[k], ", " + (JoinWith(ds[k + 1..], ", ") + ("]" + rest))))
    requires ParseElements(JoinWith(ds[k + 1..], ", ") + ("]" + rest)) == Ok((items[k + 1..], rest))
    ensures ParseElements(JoinWith(ds[k..], ", ") + ("]" + rest)) == Ok((items[k..], rest))
  {
    var more := "]" + rest;
    var tail := JoinWith(ds[k + 1..], ", ") + more;
    var t := JoinWith(ds[k..], ", ") + more;
    assert t == ds[k] + (", " + tail) && tail != [] && tail[0] == ds[k + 1][0] by {
      JoinStep(ds, k, more);
    }
    ParseElementsCons(t, items[k], tail, items[k + 1..], rest);
    ConsSlice(items, k);
  }

  lemma ConsSlice<T>(s: seq<T>, k: nat)
    requires k < |s|
    ensures s[k..] == [s[k]] + s[k + 1..]
  {
  }

  /** Cutting the first piece off a join followed by more text. */
  lemma JoinStep(ds: seq<string>, k: nat, more: string)
    requires k + 1 < |ds| && |ds[k + 1]| >= 1
    ensures JoinWith(ds[k..], ", ") + more == ds[k] + (", " + (JoinWith(ds[k + 1..], ", ") + more))
    ensures |JoinWith(ds[k + 1..], ", ") + more| >= 1
    ensures (JoinWith(ds[k + 1..], ", ") + more)[0] == ds[k + 1][0]
  {
    JoinHead(ds[k..], ", ");
    assert ds[k..][1..] == ds[k + 1..];
    JoinHead(ds[k + 1..], ", ");
  }

  lemma LoadsOf(t: string, v: Value)
    requires t == [] || t[0] !in JsonWhitespace
    requires ParseValue(t) == Ok((v, ""))
    ensures Loads(t) == Ok(v)
  {
    SkipNoWs(t);
  }

  /** `json.loads(json.dumps(v)) == v` for strings, integers and arrays. */
  lemma LoadsDumps(v: Value)
    requires Loadable(v)
    ensures Loads(Dumps(v)) == Ok(v)
  {
    var t := Dumps(v);
    DumpsStart(v);
    ValueRoundTrip(v, "");
    assert t + "" == t;
    LoadsOf(t, v);
  }

  // ---------------------------------------------------------------------------
  // The dumped text is one line of printable ASCII

  predicate Printable(s: string) {
    forall i :: 0 <= i < |s| ==> ' ' <= s[i] <= '~'
  }

  lemma {:induction false} JoinPrintable(ps: seq<string>, sep: string)
    requires Printable(sep) && forall k :: 0 <= k < |ps| ==> Printable(ps[k])
    ensures Printable(JoinWith(ps, sep))
  {
    if |ps| > 1 {
      JoinPrintable(ps[1..], sep);
    }
  }

  /** With `ensure_ascii` every character `json.dumps` writes is printable
      ASCII, so the text holds no line break. */
  lemma {:induction false} DumpsPrintable(v: Value)
    ensures Printable(Dumps(v))
    decreases v
  {
    match v
    case Str(s) =>
      Wrapped("\"", EscapeAll(s), "\"");
    case Int(i) =>
      var d := NatToString(if i < 0 then -i else i);
      assert IsDigits(d);
      Wrapped(if i < 0 then "-" else "", d, "");
      assert IntText(i) == (if i < 0 then "-" else "") + d + "";
    case Arr(items) =>
      var ds := seq(|items|, k requires 0 <= k < |items| => Dumps(items[k]));
      forall k | 0 <= k < |items| ensures Printable(ds[k]) {
        DumpsPrintable(items[k]);
      }
      JoinPrintable(ds, ", ");
      Wrapped("[", JoinWith(ds, ", "), "]");
    case Obj(fields) =>
      var ds := seq(|fields|, k requires 0 <= k < |fields| => Quote(fields[k].0) + ": " + Dumps(fields[k].1));
      forall k | 0 <= k < |fields| ensures Printable(ds[k]) {
        DumpsPrintable(fields[k].1);
        Wrapped("\"", EscapeAll(fields[k].0), "\"");
        Wrapped(Quote(fields[k].0), ": ", Dumps(fields[k].1));
      }
      JoinPrintable(ds, ", ");
      Wrapped("{", JoinWith(ds, ", "), "}");
  }

  lemma Wrapped(a: string, b: string, c: string)
    requires Printable(a) && Printable(b) && Printable(c)
    ensures Printable(a + b + c)
  {
    var s := a + b + c;
    forall i | 0 <= i < |s| ensures ' ' <= s[i] <= '~' {
      if i < |a| {
        assert s[i] == a[i];
      } else if i < |a| + |b| {
        assert s[i] == b[i - |a|];
      } else {
        assert s[i] == c[i - |a| - |b|];
      }
    }
  }

  /** `f.readline().strip()` of a file that holds `json.dumps(v)` and nothing
      else is `json.dumps(v)` again. */
  lemma DumpsIsOneStrippedLine(v: Value)
    ensures '\n' !in Dumps(v)
    ensures Strip(Dumps(v)) == Dumps(v)
  {
    var d := Dumps(v);
    DumpsPrintable(v);
    assert '\n' !in d by {
      forall i | 0 <= i < |d| ensures d[i] != '\n' {
        assert ' ' <= d[i];
      }
    }
    DumpsStart(v);
    DumpsEnd(v);
    VisibleNotSpace(d[0]);
    VisibleNotSpace(d[|d| - 1]);
    StripNoEnds(d);
  }
}
