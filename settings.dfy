/** The `settings` namespace of `main.py`: every value of the `[settings]`
    section arrives as text and is coerced to an `int`, a `float` or left a
    string. Floats are kept as exact decimal reals. */
module Settings {
  import opened Digits

  datatype Setting =
    | IntValue(i: nat)
    | FloatValue(f: real)
    | StrValue(s: string)

  /** The position of the first `c` in `s`, or `|s|` when there is none. */
  function FirstAt(s: string, c: char): (k: nat)
    ensures k <= |s|
    ensures k < |s| ==> s[k] == c
    ensures forall j :: 0 <= j < k ==> s[j] != c
  {
    if s == [] then 0
    else if s[0] == c then 0
    else 1 + FirstAt(s[1..], c)
  }

  /** `s.replace(c, "", 1)`: the first `c` dropped, the rest unchanged. */
  function ReplaceFirst(s: string, c: char): (r: string)
    ensures c !in s ==> r == s
    ensures c in s ==> |r| == |s| - 1
  {
    var k := FirstAt(s, c);
    if k == |s| then s else s[..k] + s[k + 1..]
  }

  /** Text made of ASCII digits only, possibly empty. */
  predicate DigitText(s: string) {
    forall i :: 0 <= i < |s| ==> IsDigit(s[i])
  }

  /** `value.replace(".", "", 1).isdigit()`. */
  predicate IsDecimal(v: string) {
    IsDigits(ReplaceFirst(v, '.'))
  }

  /** `float(value)` for a text that is a decimal but not a digit string:
      the digits with the dot taken out, scaled down by the number of digits
      after the dot. */
  function DecimalValue(v: string): (f: real)
    requires IsDecimal(v) && !IsDigits(v)
    ensures f >= 0.0
  {
    var k := FirstAt(v, '.');
    var scale := if k < |v| then |v| - 1 - k else 0;
    (Value(ReplaceFirst(v, '.')) as real) / (Pow10(scale) as real)
  }

  /** A decimal text that is not a digit string holds a dot, and the text
      either side of the first dot is made of digits. */
  lemma DotSplit(v: string)
    requires IsDecimal(v) && !IsDigits(v)
    ensures var k := FirstAt(v, '.');
      && k < |v|
      && (forall i :: 0 <= i < k ==> IsDigit(v[i]))
      && (forall i :: k + 1 <= i < |v| ==> IsDigit(v[i]))
  {
    var k := FirstAt(v, '.');
    if k == |v| {
      assert false;
    }
    DigitsAround(v, k);
  }

  /** The digits of `s` with the character at `k` dropped are the digits of
      `s` either side of `k`. */
  lemma DigitsAround(s: string, k: nat)
    requires k < |s| && IsDigits(s[..k] + s[k + 1..])
    ensures forall i :: 0 <= i < |s| && i != k ==> IsDigit(s[i])
  {
    forall i | 0 <= i < |s| && i != k ensures IsDigit(s[i]) {
      DropAt(s, k, i);
    }
  }

  /** Where the characters of `s` land once the one at `k` is dropped. */
  lemma DropAt(s: string, k: nat, i: nat)
    requires k < |s| && i < |s| && i != k
    ensures var r := s[..k] + s[k + 1..];
      if i < k then r[i] == s[i] else r[i - 1] == s[i]
  {
  }

  /** The conditional expression of the comprehension, for one value. */
  function Coerce(v: string): Setting {
    if IsDigits(v) then IntValue(Value(v))
    else if IsDecimal(v) then FloatValue(DecimalValue(v))
    else StrValue(v)
  }

  // ---------------------------------------------------------------------------
  // What the coercion does, in terms of the shape of the text

  /** `int(str(n)) == n`: a printed natural number comes back as that int. */
  lemma CoerceNat(n: nat)
    ensures Coerce(NatToString(n)) == IntValue(n)
  {
    ValueOfNatToString(n);
  }

  /** Digits, a dot and digits, with at least one digit in all, become the
      float with that decimal value; the empty halves read as zero. */
  lemma {:induction false} CoerceDecimal(whole: string, frac: string)
    requires DigitText(whole) && DigitText(frac)
    requires |whole| + |frac| > 0
    ensures Coerce(whole + "." + frac) ==
      FloatValue((Value(whole) as real) + (Value(frac) as real) / (Pow10(|frac|) as real))
  {
    var v := whole + "." + frac;
    assert v[|whole|] == '.';
    assert !IsDigits(v);
    var k := FirstAt(v, '.');
    assert k == |whole|;
    assert v[..k] == whole;
    assert v[k + 1..] == frac;
    assert ReplaceFirst(v, '.') == whole + frac;
    ValueConcat(whole, frac);
    Scale(Value(whole), Value(frac), Pow10(|frac|));
  }

  lemma Scale(w: nat, f: nat, p: nat)
    requires p >= 1
    ensures ((w * p + f) as real) / (p as real) == (w as real) + (f as real) / (p as real)
  {
  }

  /** Every float comes from such a text: conversely, a text that becomes a
      float is digits, one dot and digits. */
  lemma FloatShape(v: string)
    requires Coerce(v).FloatValue?
    ensures exists whole: string, frac: string ::
      v == whole + "." + frac && DigitText(whole) && DigitText(frac)
  {
    assert !IsDigits(v) && IsDecimal(v);
    DotSplit(v);
    var k := FirstAt(v, '.');
    var whole, frac := v[..k], v[k + 1..];
    SplitAtDot(v, k);
    assert DigitText(whole) by {
      forall i | 0 <= i < |whole| ensures IsDigit(whole[i]) {
        assert whole[i] == v[i];
      }
    }
    assert DigitText(frac) by {
      forall i | 0 <= i < |frac| ensures IsDigit(frac[i]) {
        assert frac[i] == v[k + 1 + i];
      }
    }
  }

  lemma SplitAtDot(v: string, k: nat)
    requires k < |v| && v[k] == '.'
    ensures v == v[..k] + "." + v[k + 1..]
  {
  }

  /** A text with a character that is neither a digit nor a dot, or with two
      dots, stays the string it was. */
  lemma StaysString(v: string, i: nat, j: nat)
    requires i < |v| && j < |v|
    requires (!IsDigit(v[i]) && v[i] != '.') || (i < j && v[i] == '.' && v[j] == '.')
    ensures Coerce(v) == StrValue(v)
  {
    var k := FirstAt(v, '.');
    var r := ReplaceFirst(v, '.');
    if k < |v| {
      if i != k {
        DropAt(v, k, i);
      } else {
        DropAt(v, k, j);
      }
    }
  }

  /** `"7"` is an int. */
  lemma SevenIsInt()
    ensures Coerce("7") == IntValue(7)
  {
    assert Value("7") == 7 by { assert "7"[..0] == []; }
  }

  /** `"0.8"` is a float. */
  lemma PointEightIsFloat(v: string)
    requires v == "0.8"
    ensures Coerce(v) == FloatValue(0.8)
  {
    var whole, frac := v[..1], v[2..];
    assert v == whole + "." + frac;
    assert Value(whole) == 0 by { assert whole[..0] == []; }
    assert Value(frac) == 8 by { assert frac[..0] == []; }
    CoerceDecimal(whole, frac);
  }

  /** `"5."` is a float: the fraction may be empty. */
  lemma FiveDotIsFloat(v: string)
    requires v == "5."
    ensures Coerce(v) == FloatValue(5.0)
  {
    var whole, frac := v[..1], v[2..];
    assert v == whole + "." + frac;
    assert Value(whole) == 5 by { assert whole[..0] == []; }
    CoerceDecimal(whole, frac);
  }

  /** The rule on the texts it documents as staying strings. */
  lemma StringExamples()
    ensures Coerce("1.2.3") == StrValue("1.2.3")
    ensures Coerce("-1") == StrValue("-1")
    ensures Coerce("") == StrValue("")
    ensures Coerce(".") == StrValue(".")
  {
    StaysString("1.2.3", 1, 3);
    StaysString("-1", 0, 0);
    assert ReplaceFirst(".", '.') == "";
  }

  // ---------------------------------------------------------------------------
  // The namespace

  /** The keys of a list of pairs. */
  function KeysOf<V(==)>(pairs: seq<(string, V)>): set<string> {
    set p | p in pairs :: p.0
  }

  /** No pair after the `i`-th has the same key. */
  predicate LastFor<V>(pairs: seq<(string, V)>, i: nat)
    requires i < |pairs|
  {
    forall j :: i < j < |pairs| ==> pairs[j].0 != pairs[i].0
  }

  /** A dict built from pairs in order: a later pair for a key replaces an
      earlier one. */
  function LastWins<V(==)>(pairs: seq<(string, V)>): (d: map<string, V>)
    ensures d.Keys == KeysOf(pairs)
    ensures forall i :: 0 <= i < |pairs| && LastFor(pairs, i) ==> d[pairs[i].0] == pairs[i].1
  {
    if pairs == [] then map[]
    else
      var init := pairs[..|pairs| - 1];
      var last := pairs[|pairs| - 1];
      assert pairs == init + [last];
      KeysSnoc(init, last);
      assert forall i :: 0 <= i < |init| ==> init[i] == pairs[i];
      assert forall i :: 0 <= i < |pairs| - 1 && LastFor(pairs, i) ==> LastFor(init, i);
      LastWins(init)[last.0 := last.1]
  }

  lemma KeysSnoc<V>(init: seq<(string, V)>, last: (string, V))
    ensures KeysOf(init + [last]) == KeysOf(init) + {last.0}
  {
    forall key | key in KeysOf(init + [last]) ensures key in KeysOf(init) + {last.0} {
      var p :| p in init + [last] && p.0 == key;
      if p != last {
        assert p in init;
      }
    }
  }

  /** The comprehension over the `(key, value)` pairs of the section, in
      order: every key is present, and holds the coercion of its last value. */
  function Namespace(items: seq<(string, string)>): (ns: map<string, Setting>)
    ensures ns.Keys == KeysOf(items)
    ensures forall i :: 0 <= i < |items| && LastFor(items, i) ==> ns[items[i].0] == Coerce(items[i].1)
  {
    var coerced := seq(|items|, i requires 0 <= i < |items| => (items[i].0, Coerce(items[i].1)));
    assert forall i :: 0 <= i < |items| && LastFor(items, i) ==> LastFor(coerced, i);
    assert KeysOf(coerced) == KeysOf(items) by {
      forall key | key in KeysOf(items) ensures key in KeysOf(coerced) {
        var i :| 0 <= i < |items| && items[i].0 == key;
        assert coerced[i].0 == key;
      }
      forall key | key in KeysOf(coerced) ensures key in KeysOf(items) {
        var i :| 0 <= i < |coerced| && coerced[i].0 == key;
        assert items[i].0 == key;
      }
    }
    LastWins(coerced)
  }
}
