/** `main.get_most_frequent_sender(pcap_file, sender_count)`, the variant the
    HTTP endpoint serves: the `int(sender_count)` most frequent non-local
    senders of a capture, as a JSON list of objects. */
module DetectApi {
  import opened Wrappers
  import opened Seqs
  import opened Counting
  import opened Analyzer
  import opened Strings
  import opened Digits
  import Json

  /** Why the endpoint fails: the parse of the capture raised, the form had
      no `senderCount` (`int(None)` raises `TypeError`), or its text is not
      an integer (`int(...)` raises `ValueError`). */
  datatype ApiError =
    | Analyze(cause: AnalyzeError)
    | TypeError
    | ValueError(text: string)

  /** The list comprehension `senders` of the capture, or the error it
      raises, as in `Analyzer`: the address command, then `tshark`, then the
      third fields. */
  function CaptureSenders(platform: Platform, host: Run, tshark: Run)
    : Result<seq<string>, AnalyzeError>
  {
    match LocalIps(platform, host)
    case Err(e) => Err(e)
    case Ok(local) =>
      match CheckOutput(tshark, Tshark)
      case Err(e) => Err(e)
      case Ok(output) => Senders(TsharkLines(output), local)
  }

  /** `Counter(senders).most_common(n)` over the senders of the capture; no
      sender at all gives an empty list rather than an error. */
  function TopSenders(platform: Platform, host: Run, tshark: Run, n: int)
    : Result<seq<Entry>, AnalyzeError>
  {
    match CaptureSenders(platform, host, tshark)
    case Err(e) => Err(e)
    case Ok(senders) => Ok(MostCommon(senders, n))
  }

  // ---------------------------------------------------------------------------
  // `int(sender_count)` on the text of the form field

  /** Digits as `int()` reads them: ASCII digits, with single underscores
      allowed between two digits. */
  predicate DigitGroups(s: string) {
    && s != [] && IsDigit(s[0]) && IsDigit(s[|s| - 1])
    && (forall i :: 0 <= i < |s| ==> IsDigit(s[i]) || s[i] == '_')
    && (forall i :: 0 <= i < |s| - 1 && s[i] == '_' ==> s[i + 1] != '_')
  }

  /** `s` with its underscores taken out. */
  function DropUnderscores(s: string): (r: string)
    ensures '_' !in s ==> r == s
    ensures (forall i :: 0 <= i < |s| ==> IsDigit(s[i]) || s[i] == '_') ==>
              forall i :: 0 <= i < |r| ==> IsDigit(r[i])
  {
    if s == [] then []
    else (if s[0] == '_' then [] else [s[0]]) + DropUnderscores(s[1..])
  }

  /** What `int()` accepts once the text is stripped: a sign or none, then
      digits. */
  predicate IntegerText(s: string) {
    DigitGroups(s) || (s != [] && (s[0] == '+' || s[0] == '-') && DigitGroups(s[1..]))
  }

  /** The value of a stripped text `int()` accepts, with its sign. */
  function SignedValue(s: string): Option<int> {
    if DigitGroups(s) then Some(Value(DropUnderscores(s)))
    else if s != [] && (s[0] == '+' || s[0] == '-') && DigitGroups(s[1..]) then
      var v: int := Value(DropUnderscores(s[1..]));
      Some(if s[0] == '-' then -v else v)
    else None
  }

  /** `int(text)` of a `str` in base 10: surrounding whitespace is ignored,
      and `None` stands where Python raises `ValueError`. */
  function IntOf(text: string): Option<int> {
    SignedValue(Strip(text))
  }

  // ---------------------------------------------------------------------------
  // The endpoint

  /** `{"IpAddress": sender[0], "RequestCount": sender[1]}`. */
  function SenderObject(e: Entry): (v: Json.Value)
    ensures v.Obj? && |v.fields| == 2
    ensures v.fields[0] == ("IpAddress", Json.Str(e.0)) && v.fields[1] == ("RequestCount", Json.Int(e.1))
  {
    Json.Obj([("IpAddress", Json.Str(e.0)), ("RequestCount", Json.Int(e.1))])
  }

  /** The objects of a list of entries, in order. */
  function SenderObjects(top: seq<Entry>): (vs: seq<Json.Value>)
    ensures |vs| == |top| && forall i :: 0 <= i < |top| ==> vs[i] == SenderObject(top[i])
  {
    seq(|top|, i requires 0 <= i < |top| => SenderObject(top[i]))
  }

  /** `get_most_frequent_sender(pcap_file, sender_count)` with `senderCount`
      the form field (`None` when it is missing): the address command and
      `tshark` run, raising on a non-zero status, the senders are parsed,
      then `int(sender_count)` is taken, then one object per entry of the
      top list is appended and the list is dumped. */
  method MostFrequentSenders(platform: Platform, host: Run, tshark: Run,
                             senderCount: Option<string>)
    returns (r: Result<string, ApiError>)
    ensures host.exitCode != 0 ==> r == Err(Analyze(CalledProcessError(host.exitCode, AddressCommand)))
    ensures LocalIps(platform, host).Ok? && tshark.exitCode != 0 ==>
              r == Err(Analyze(CalledProcessError(tshark.exitCode, Tshark)))
    ensures var senders := CaptureSenders(platform, host, tshark);
      && (senders.Err? ==> r == Err(Analyze(senders.error)))
      && (senders.Ok? && senderCount.None? ==> r == Err(TypeError))
      && (senders.Ok? && senderCount.Some? && IntOf(senderCount.value).None? ==>
            r == Err(ValueError(senderCount.value)))
      && (senders.Ok? && senderCount.Some? && IntOf(senderCount.value).Some? ==>
            var top := TopSenders(platform, host, tshark, IntOf(senderCount.value).value);
            top.Ok? && r == Ok(Json.Dumps(Json.Arr(SenderObjects(top.value)))))
  {
    var senders := CaptureSenders(platform, host, tshark);
    if senders.Err? {
      return Err(Analyze(senders.error));
    }
    if senderCount.None? {
      return Err(TypeError);
    }
    var count := IntOf(senderCount.value);
    if count.None? {
      return Err(ValueError(senderCount.value));
    }
    var top := MostCommon(senders.value, count.value);
    var mostFrequentSenders: seq<Json.Value> := [];
    var i := 0;
    while i < |top|
      invariant 0 <= i <= |top|
      invariant mostFrequentSenders == SenderObjects(top[..i])
    {
      var sender := top[i];
      SenderObjectsSnoc(top, i);
      mostFrequentSenders := mostFrequentSenders + [SenderObject(sender)];
      i := i + 1;
    }
    assert top[..|top|] == top;
    r := Ok(Json.Dumps(Json.Arr(mostFrequentSenders)));
  }

  lemma SenderObjectsSnoc(top: seq<Entry>, i: nat)
    requires i < |top|
    ensures SenderObjects(top[..i + 1]) == SenderObjects(top[..i]) + [SenderObject(top[i])]
  {
  }

  /** The top list: a non-zero status of the address command, or of
      `tshark` once the addresses are known, raises `CalledProcessError` with
      that status; the parse succeeds exactly when the address command
      yields addresses, `tshark` exits with 0 and every line has a third
      field. The list then has
      `min(n, distinct senders)` entries (none for `n <= 0`); every address
      is a non-local sender, listed once, with its number of occurrences
      among the senders; counts do not increase along the list; and a sender
      left out has no higher count than any listed one. */
  lemma TopSendersSpec(platform: Platform, host: Run, tshark: Run, n: int)
    ensures var r := TopSenders(platform, host, tshark, n);
      var lines := TsharkLines(tshark.stdout);
      && (host.exitCode != 0 ==> r == Err(CalledProcessError(host.exitCode, AddressCommand)))
      && (LocalIps(platform, host).Ok? && tshark.exitCode != 0 ==> r == Err(CalledProcessError(tshark.exitCode, Tshark)))
      && (r.Ok? <==> LocalIps(platform, host).Ok? && tshark.exitCode == 0 && AllHaveSender(lines))
      && (r.Ok? ==>
            var local := LocalIps(platform, host).value;
            var senders := Minus(SenderFields(lines), local);
            var top := r.value;
            && |top| == (if n <= 0 then 0 else if n < |Keys(senders)| then n else |Keys(senders)|)
            && (forall i :: 0 <= i < |top| ==>
                  top[i].0 in senders && top[i].0 !in local && top[i].1 == Count(senders, top[i].0))
            && (forall i, j :: 0 <= i < j < |top| ==> top[i].1 >= top[j].1 && top[i].0 != top[j].0)
            && (forall x, i :: x in senders && 0 <= i < |top| && Omits(top, x) ==> Count(senders, x) <= top[i].1))
  {
    var lines := TsharkLines(tshark.stdout);
    var ips := LocalIps(platform, host);
    if ips.Ok? && tshark.exitCode == 0 {
      SendersFilter(lines, ips.value);
      if AllHaveSender(lines) {
        var senders := Minus(SenderFields(lines), ips.value);
        assert TopSenders(platform, host, tshark, n) == Ok(MostCommon(senders, n));
        TopOfFiltered(SenderFields(lines), ips.value, n);
      } else {
        assert TopSenders(platform, host, tshark, n).Err?;
      }
    } else {
      assert TopSenders(platform, host, tshark, n).Err?;
    }
  }

  /** `TopSendersSpec` for the senders once the local addresses are out. */
  lemma TopOfFiltered(fields: seq<string>, local: seq<string>, n: int)
    ensures var senders := Minus(fields, local);
      var top := MostCommon(senders, n);
      && |top| == (if n <= 0 then 0 else if n < |Keys(senders)| then n else |Keys(senders)|)
      && (forall i :: 0 <= i < |top| ==>
            top[i].0 in senders && top[i].0 !in local && top[i].1 == Count(senders, top[i].0))
      && (forall i, j :: 0 <= i < j < |top| ==> top[i].1 >= top[j].1 && top[i].0 != top[j].0)
      && (forall x, i :: x in senders && 0 <= i < |top| && Omits(top, x) ==> Count(senders, x) <= top[i].1)
  {
    var senders := Minus(fields, local);
    var top := MostCommon(senders, n);
    MostCommonRanked(senders, n);
    forall i | 0 <= i < |top| ensures top[i].0 in senders && top[i].0 !in local && top[i].1 == Count(senders, top[i].0) {
      MinusMember(fields, local, top[i].0);
    }
    forall i, j | 0 <= i < j < |top| ensures top[i].1 >= top[j].1 && top[i].0 != top[j].0 {
      RankedDistinct(senders, top, i, j);
    }
    forall x, i | x in senders && 0 <= i < |top| && Omits(top, x) ensures Count(senders, x) <= top[i].1 {
      assert Precedes(senders, top[i], EntryOf(senders, x));
    }
  }

  /** `most_common(n)` for `n >= 1` starts with the entry `Analyzer` saves:
      the two variants agree on the top suspect. */
  lemma FirstIsMostFrequent(platform: Platform, host: Run, tshark: Run, n: int)
    requires n >= 1
    ensures var top := TopSenders(platform, host, tshark, n);
      var one := MostFrequentSender(platform, host, tshark);
      && (one.Ok? <==> top.Ok? && top.value != [])
      && (one.Ok? ==> top.value[0] == one.value)
  {
    var lines := TsharkLines(tshark.stdout);
    var ips := LocalIps(platform, host);
    if ips.Ok? && tshark.exitCode == 0 {
      SendersFilter(lines, ips.value);
      if AllHaveSender(lines) {
        var senders := Minus(SenderFields(lines), ips.value);
        MostCommonOneEmpty(senders);
        MostCommonRanked(senders, n);
        if senders != [] {
          MostCommonPrefix(senders, n);
        }
      }
    }
  }

  /** The first entry of `most_common(n)` is the entry of `most_common(1)`. */
  lemma MostCommonPrefix(s: seq<string>, n: int)
    requires n >= 1 && s != []
    ensures |MostCommon(s, n)| >= 1 && MostCommon(s, n)[0] == MostCommon(s, 1)[0]
  {
    var keys := Keys(s);
    assert forall j :: 0 <= j < |keys| ==> keys[j] in s;
    assert s[0] in keys;
    TopUnfold(keys, s, n);
    TopUnfold(keys, s, 1);
  }

  // ---------------------------------------------------------------------------
  // What `int(sender_count)` accepts

  /** A digit string is read by `int()` as its value. */
  lemma IntOfDigits(s: string)
    requires IsDigits(s)
    ensures IntOf(s) == Some(Value(s))
  {
    StripNoEnds(s);
    DigitsAreGroups(s);
  }

  /** A digit string is one group without underscores. */
  lemma DigitsAreGroups(s: string)
    requires IsDigits(s)
    ensures DigitGroups(s) && DropUnderscores(s) == s
  {
    assert forall i :: 0 <= i < |s| ==> s[i] != '_';
  }

  /** A text that neither starts nor ends with whitespace is read as it
      stands. */
  lemma IntOfNoEnds(t: string)
    requires t != [] && !IsSpace(t[0]) && !IsSpace(t[|t| - 1])
    ensures IntOf(t) == SignedValue(t)
  {
    StripNoEnds(t);
  }

  /** `int(str(n)) == n`: a printed count comes back as that count. */
  lemma IntOfNatToString(n: nat)
    ensures IntOf(NatToString(n)) == Some(n)
  {
    ValueOfNatToString(n);
    IntOfDigits(NatToString(n));
  }

  /** A sign before a digit string: the digits after the sign are read, and
      a minus negates them (`int("-" + str(n)) == -n`). */
  lemma SignedDigits(sign: char, s: string)
    requires IsDigits(s) && (sign == '-' || sign == '+')
    ensures IntOf([sign] + s) == Some(if sign == '-' then -(Value(s) as int) else Value(s))
  {
    SignedIsStripped(sign, s);
    SignedValueOfDigits(sign, s);
  }

  lemma SignedIsStripped(sign: char, s: string)
    requires IsDigits(s) && (sign == '-' || sign == '+')
    ensures IntOf([sign] + s) == SignedValue([sign] + s)
  {
    var t := [sign] + s;
    assert t[|t| - 1] == s[|s| - 1];
    IntOfNoEnds(t);
  }

  lemma SignedValueOfDigits(sign: char, s: string)
    requires IsDigits(s) && (sign == '-' || sign == '+')
    ensures SignedValue([sign] + s) == Some(if sign == '-' then -(Value(s) as int) else Value(s))
  {
    var t := [sign] + s;
    assert t[1..] == s;
    DigitsAreGroups(s);
    assert !DigitGroups(t) by {
      assert !IsDigit(t[0]);
    }
  }

  /** Whitespace around the number is ignored: `int(" 7\n") == 7`. */
  lemma IntOfPadded()
    ensures IntOf(" 7\n") == Some(7)
  {
    StripSeven();
    IntOfDigits("7");
    assert Value("7") == 7 by { assert "7"[..0] == []; }
  }

  lemma StripSeven()
    ensures Strip(" 7\n") == "7"
  {
    var s := " 7\n";
    assert s == [' '] + "7\n" && "7\n" == "7" + ['\n'];
    LeadingOne(' ', "7\n", Whitespace);
    assert s[1..] == "7\n";
    TrailingOne("7", '\n', Whitespace);
  }

  /** One character of `cs` before a text that does not start with one. */
  lemma LeadingOne(c: char, t: string, cs: set<char>)
    requires c in cs && t != [] && t[0] !in cs
    ensures LeadingIn([c] + t, cs) == 1
  {
    assert ([c] + t)[1..] == t;
  }

  /** One character of `cs` after a text that does not end with one. */
  lemma TrailingOne(t: string, c: char, cs: set<char>)
    requires c in cs && t != [] && t[|t| - 1] !in cs
    ensures TrailingIn(t + [c], cs) == 1
  {
    assert (t + [c])[..|t|] == t;
  }

  /** Single underscores between digits are accepted and do not count:
      `int("1_000") == 1000`. */
  lemma IntOfUnderscores()
    ensures IntOf("1_000") == Some(1000)
  {
    IntOfNoEnds("1_000");
    GroupedValue();
  }

  lemma GroupedValue()
    ensures SignedValue("1_000") == Some(1000)
  {
    assert DigitGroups("1_000");
    assert DropUnderscores("1_000") == "1000";
    assert Value("1000") == 1000 by {
      assert "1000"[..3] == "100" && "100"[..2] == "10" && "10"[..1] == "1" && "1"[..0] == [];
    }
  }

  /** The empty text, or whitespace alone, is refused. */
  lemma IntOfBlank()
    ensures IntOf("") == None
    ensures IntOf(" ") == None
  {
    assert Strip("") == "";
    assert LeadingIn(" ", Whitespace) == 1 by {
      assert " "[1..] == "";
    }
    assert " "[1..] == "";
    assert Strip(" ") == "";
  }

  /** Texts `int()` refuses: a decimal point, a doubled or leading
      underscore and a word. */
  lemma IntOfRejects(t: string)
    requires t == "7.0" || t == "1__0" || t == "_1" || t == "ten"
    ensures IntOf(t) == None
  {
    NotIntegers();
    Refused(t);
  }

  lemma NotIntegers()
    ensures !IntegerText("7.0") && !IntegerText("1__0") && !IntegerText("_1") && !IntegerText("ten")
  {
    assert "7.0"[1] == '.' && "7.0"[1..][0] == '.';
    assert "1__0"[1] == '_' && "1__0"[2] == '_';
    assert "1__0"[1..][0] == '_';
    assert "_1"[1..][0] == '1';
    assert "ten"[1..][0] == 'e';
  }

  /** A text without surrounding whitespace that is not an integer. */
  lemma Refused(t: string)
    requires t != [] && !IsSpace(t[0]) && !IsSpace(t[|t| - 1]) && !IntegerText(t)
    ensures IntOf(t) == None
  {
    IntOfNoEnds(t);
  }
}
