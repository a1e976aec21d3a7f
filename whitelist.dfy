/** `ip.whitelist`: the allow-list file, one address per line, with `add`,
    `remove` and `check`. The file is whether it exists and its text as a
    text-mode `open` delivers it, with universal newlines: a `"\r\n"` or
    `"\r"` on disk arrives as `"\n"`. `readlines` splits the text after
    every line break. */
module Whitelist {
  import opened Wrappers
  import opened Strings

  const LineBreak: set<char> := {'\n'}

  /** Length of the first line of `text`, its line break included. */
  function FirstLineLength(text: string): (n: nat)
    ensures text != [] ==> 1 <= n <= |text|
    ensures text == [] ==> n == 0
    ensures forall k :: 0 <= k < n - 1 ==> text[k] != '\n'
    ensures n < |text| ==> text[n - 1] == '\n'
  {
    if text == [] then 0
    else if text[0] == '\n' then 1
    else 1 + FirstLineLength(text[1..])
  }

  /** `f.readlines()`. */
  function Lines(text: string): seq<string>
    decreases |text|
  {
    if text == [] then []
    else
      var n := FirstLineLength(text);
      [text[..n]] + Lines(text[n..])
  }

  /** The text of a sequence of lines, as `f.write` puts them one after
      another. */
  function Concat(lines: seq<string>): string {
    if lines == [] then "" else lines[0] + Concat(lines[1..])
  }

  /** What `readlines` produces: non-empty lines, a line break only at the end
      of a line, and at the end of every line but the last. */
  predicate WellFormed(lines: seq<string>) {
    forall i :: 0 <= i < |lines| ==>
      && lines[i] != []
      && (forall k :: 0 <= k < |lines[i]| - 1 ==> lines[i][k] != '\n')
      && (i < |lines| - 1 ==> lines[i][|lines[i]| - 1] == '\n')
  }

  /** `line.strip("\n")`. */
  function Stripped(line: string): string {
    StripChars(line, LineBreak)
  }

  /** `[line for line in lines if line.strip("\n") != ip]`. */
  function Without(lines: seq<string>, ip: string): (r: seq<string>)
    ensures |r| <= |lines|
  {
    if lines == [] then []
    else (if Stripped(lines[0]) != ip then [lines[0]] else []) + Without(lines[1..], ip)
  }

  /** Some line, with its line breaks stripped, is `ip`. */
  predicate Listed(lines: seq<string>, ip: string) {
    exists i :: 0 <= i < |lines| && Stripped(lines[i]) == ip
  }

  /** What `check(ip)` answers on the file `text`. */
  predicate Allowed(text: string, ip: string) {
    ip != "" && Listed(Lines(text), ip)
  }

  /** `open(settings.whitelist_path, "r")` of a file that is not there. */
  datatype Error = FileNotFound

  class WhitelistFile {
    /** Whether the file exists. */
    var present: bool
    /** Its text as text mode reads it, line breaks turned into `'\n'`;
        empty while the file is absent. */
    var text: string

    ghost predicate Valid()
      reads this
    {
      !present ==> text == ""
    }

    constructor (present: bool, text: string)
      requires !present ==> text == ""
      ensures Valid() && this.present == present && this.text == text
    {
      this.present := present;
      this.text := text;
    }

    /** `add(ip)`: open for appending, which creates a missing file, and
        append `ip` and a line break; an empty `ip` is ignored. */
    method Add(ip: string)
      requires Valid()
      modifies this
      ensures Valid()
      ensures ip != "" ==> present && text == old(text) + ip + "\n"
      ensures ip == "" ==> present == old(present) && text == old(text)
    {
      if ip != "" {
        present := true;
        text := text + ip + "\n";
      }
    }

    /** `remove(ip)`: read the lines, then rewrite the file with those that
        are not `ip`, in order; an empty `ip` is ignored, and reading a
        missing file raises. */
    method Remove(ip: string) returns (r: Result<(), Error>)
      requires Valid()
      modifies this
      ensures Valid() && present == old(present)
      ensures ip == "" ==> r == Ok(()) && text == old(text)
      ensures ip != "" && !old(present) ==> r == Err(FileNotFound) && text == old(text)
      ensures ip != "" && old(present) ==> r == Ok(()) && text == Concat(Without(Lines(old(text)), ip))
    {
      if ip == "" {
        r := Ok(());
      } else if !present {
        r := Err(FileNotFound);
      } else {
        var lines := Lines(text);
        text := "";
        Rewrite(lines, ip);
        r := Ok(());
      }
    }

    /** The writing half of `remove(ip)`, on the file just opened for
        writing: each line that is not `ip` is written, in order. */
    method Rewrite(lines: seq<string>, ip: string)
      requires present && text == ""
      modifies this
      ensures present && text == Concat(Without(lines, ip))
    {
      var i := 0;
      while i < |lines|
        invariant 0 <= i <= |lines|
        invariant present
        invariant text == Concat(Without(lines[..i], ip))
      {
        var line := lines[i];
        var keep := Stripped(line) != ip;
        RemoveStep(lines, i, ip);
        if keep {
          text := text + line;
        }
        i := i + 1;
      }
      assert lines[..|lines|] == lines;
    }

    /** `check(ip)`: read the lines and stop at the first that is `ip`; an
        empty `ip` is not allowed, and reading a missing file raises. */
    method Check(ip: string) returns (r: Result<bool, Error>)
      requires Valid()
      ensures ip == "" ==> r == Ok(false)
      ensures ip != "" && !present ==> r == Err(FileNotFound)
      ensures ip != "" && present ==> r == Ok(Allowed(text, ip))
    {
      if ip == "" {
        return Ok(false);
      }
      if !present {
        return Err(FileNotFound);
      }
      var lines := Lines(text);
      var i := 0;
      while i < |lines|
        invariant 0 <= i <= |lines|
        invariant forall j :: 0 <= j < i ==> Stripped(lines[j]) != ip
      {
        if Stripped(lines[i]) == ip {
          return Ok(true);
        }
        i := i + 1;
      }
      return Ok(false);
    }
  }

  // ---------------------------------------------------------------------------
  // Lemmas

  /** One turn of the loop of `remove`. */
  lemma RemoveStep(lines: seq<string>, i: nat, ip: string)
    requires i < |lines|
    ensures Concat(Without(lines[..i + 1], ip))
            == Concat(Without(lines[..i], ip)) + (if Stripped(lines[i]) != ip then lines[i] else "")
  {
    assert lines[..i + 1] == lines[..i] + [lines[i]];
    WithoutSnoc(lines[..i], lines[i], ip);
    if Stripped(lines[i]) != ip {
      ConcatSnoc(Without(lines[..i], ip), lines[i]);
    } else {
      assert Without(lines[..i + 1], ip) == Without(lines[..i], ip);
    }
  }

  lemma {:induction false} ConcatSnoc(lines: seq<string>, line: string)
    ensures Concat(lines + [line]) == Concat(lines) + line
  {
    if lines != [] {
      assert (lines + [line])[1..] == lines[1..] + [line];
      ConcatSnoc(lines[1..], line);
    }
  }

  lemma {:induction false} WithoutSnoc(lines: seq<string>, line: string, ip: string)
    ensures Without(lines + [line], ip) == Without(lines, ip) + (if Stripped(line) != ip then [line] else [])
  {
    if lines != [] {
      var all := lines + [line];
      assert all[0] == lines[0] && all[1..] == lines[1..] + [line];
      WithoutSnoc(lines[1..], line, ip);
      var h := if Stripped(lines[0]) != ip then [lines[0]] else [];
      var x := if Stripped(line) != ip then [line] else [];
      var w := Without(lines[1..], ip);
      assert Without(all, ip) == h + (w + x);
      assert Without(lines, ip) == h + w;
      AppendAssoc(h, w, x);
    }
  }

  lemma AppendAssoc(a: seq<string>, b: seq<string>, c: seq<string>)
    ensures a + (b + c) == (a + b) + c
  {
  }

  /** `readlines` loses nothing: its lines put together are the text. */
  lemma {:induction false} LinesRoundTrip(text: string)
    ensures Concat(Lines(text)) == text
    ensures WellFormed(Lines(text))
    decreases |text|
  {
    if text != [] {
      var n := FirstLineLength(text);
      var first, rest := text[..n], text[n..];
      LinesRoundTrip(rest);
      var ls := Lines(rest);
      assert text == first + rest;
      assert Lines(text) == [first] + ls;
      assert ([first] + ls)[0] == first && ([first] + ls)[1..] == ls;
      assert Concat(Lines(text)) == first + Concat(ls);
      assert ls != [] ==> rest != [];
      ConsWellFormed(first, ls);
    }
  }

  /** A line in front of well-formed lines: well-formed when it is not
      empty, has no line break before its end, and ends with one when lines
      follow. */
  lemma ConsWellFormed(l: string, rest: seq<string>)
    requires l != [] && (forall k :: 0 <= k < |l| - 1 ==> l[k] != '\n')
    requires rest != [] ==> l[|l| - 1] == '\n'
    requires WellFormed(rest)
    ensures WellFormed([l] + rest)
  {
    var ls := [l] + rest;
    forall i | 0 <= i < |ls|
      ensures ls[i] != []
      ensures forall k :: 0 <= k < |ls[i]| - 1 ==> ls[i][k] != '\n'
      ensures i < |ls| - 1 ==> ls[i][|ls[i]| - 1] == '\n'
    {
      if i > 0 {
        assert ls[i] == rest[i - 1];
      }
    }
  }

  /** Well-formed lines put together split back into the same lines. */
  lemma {:induction false} LinesOfConcat(lines: seq<string>)
    requires WellFormed(lines)
    ensures Lines(Concat(lines)) == lines
  {
    if lines != [] {
      var l := lines[0];
      var rest := Concat(lines[1..]);
      assert WellFormed(lines[1..]) by {
        forall i | 0 <= i < |lines| - 1 ensures lines[1..][i] == lines[i + 1] { }
      }
      LinesOfConcat(lines[1..]);
      FirstLineOf(l, rest, |lines| == 1);
      assert (l + rest)[..|l|] == l && (l + rest)[|l|..] == rest;
    }
  }

  /** The first line of `l + rest` is `l` when `l` is a line that ends with a
      line break or is all there is. */
  lemma {:induction false} FirstLineOf(l: string, rest: string, last: bool)
    requires l != [] && forall k :: 0 <= k < |l| - 1 ==> l[k] != '\n'
    requires last ==> rest == []
    requires !last ==> l[|l| - 1] == '\n'
    ensures FirstLineLength(l + rest) == |l|
    decreases |l|
  {
    if |l| > 1 {
      assert (l + rest)[1..] == l[1..] + rest;
      FirstLineOf(l[1..], rest, last);
    }
  }

  /** Filtering keeps the shape of what `readlines` produces: a last line
      without a line break stays last. */
  lemma {:induction false} WithoutWellFormed(lines: seq<string>, ip: string)
    requires WellFormed(lines)
    ensures WellFormed(Without(lines, ip))
  {
    if lines != [] {
      assert WellFormed(lines[1..]) by {
        forall i | 0 <= i < |lines| - 1 ensures lines[1..][i] == lines[i + 1] { }
      }
      WithoutWellFormed(lines[1..], ip);
      var tail := Without(lines[1..], ip);
      if Stripped(lines[0]) != ip {
        assert Without(lines, ip) == [lines[0]] + tail;
        assert tail != [] ==> |lines| > 1;
        ConsWellFormed(lines[0], tail);
      } else {
        assert Without(lines, ip) == tail;
      }
    }
  }

  /** The lines `Without` keeps are the lines that are not `ip`. */
  lemma {:induction false} ListedWithout(lines: seq<string>, ip: string, other: string)
    ensures Listed(Without(lines, ip), other) <==> other != ip && Listed(lines, other)
  {
    if lines != [] {
      var r, tail := Without(lines, ip), Without(lines[1..], ip);
      ListedWithout(lines[1..], ip, other);
      ListedFirst(lines, other);
      if Stripped(lines[0]) != ip {
        assert r == [lines[0]] + tail;
        assert r[0] == lines[0] && r[1..] == tail;
        ListedFirst(r, other);
      } else {
        assert r == tail;
      }
    }
  }

  /** `ip` is listed in non-empty lines when it is the first or listed in
      the others. */
  lemma ListedFirst(lines: seq<string>, ip: string)
    requires lines != []
    ensures Listed(lines, ip) <==> Stripped(lines[0]) == ip || Listed(lines[1..], ip)
  {
    var rest := lines[1..];
    if Listed(rest, ip) {
      var i :| 0 <= i < |rest| && Stripped(rest[i]) == ip;
      assert lines[i + 1] == rest[i];
    }
    if Listed(lines, ip) && Stripped(lines[0]) != ip {
      var i :| 0 <= i < |lines| && Stripped(lines[i]) == ip;
      assert rest[i - 1] == lines[i];
    }
  }

  /** `ip` is listed in lines with one more at the end when it is listed in
      the first ones or is the last. */
  lemma ListedLast(lines: seq<string>, l: string, ip: string)
    ensures Listed(lines + [l], ip) <==> Listed(lines, ip) || Stripped(l) == ip
  {
    var ls := lines + [l];
    assert ls[|lines|] == l;
    if Listed(lines, ip) {
      var i :| 0 <= i < |lines| && Stripped(lines[i]) == ip;
      assert ls[i] == lines[i];
    }
    if Listed(ls, ip) && Stripped(l) != ip {
      var i :| 0 <= i < |ls| && Stripped(ls[i]) == ip;
      assert lines[i] == ls[i];
    }
  }

  /** After `remove(ip)`, `check(ip)` is false, and `check(other)` for any
      other address answers as before. */
  lemma RemoveThenCheck(text: string, ip: string, other: string)
    requires ip != ""
    ensures !Allowed(Concat(Without(Lines(text), ip)), ip)
    ensures other != ip ==> (Allowed(Concat(Without(Lines(text), ip)), other) <==> Allowed(text, other))
  {
    LinesRoundTrip(text);
    WithoutWellFormed(Lines(text), ip);
    LinesOfConcat(Without(Lines(text), ip));
    ListedWithout(Lines(text), ip, ip);
    ListedWithout(Lines(text), ip, other);
  }

  /** `readlines` of a text that ends with a line break (or is empty) and
      more text: the lines of the first, then those of the second. */
  lemma {:induction false} LinesAppend(a: string, b: string)
    requires a == [] || a[|a| - 1] == '\n'
    ensures Lines(a + b) == Lines(a) + Lines(b)
    decreases |a|
  {
    if a != [] {
      var n := FirstLineLength(a);
      assert FirstLineLength(a + b) == n by {
        FirstLinePrefix(a, b);
      }
      assert (a + b)[..n] == a[..n] && (a + b)[n..] == a[n..] + b;
      assert Lines(a[n..] + b) == Lines(a[n..]) + Lines(b) by {
        LinesAppend(a[n..], b);
      }
    } else {
      assert a + b == b;
    }
  }

  lemma {:induction false} FirstLinePrefix(a: string, b: string)
    requires a != [] && a[|a| - 1] == '\n'
    ensures FirstLineLength(a + b) == FirstLineLength(a)
    decreases |a|
  {
    if a[0] != '\n' {
      assert (a + b)[1..] == a[1..] + b;
      FirstLinePrefix(a[1..], b);
    }
  }

  /** The line `ip` followed by a line break strips back to `ip`. */
  lemma StripLine(ip: string)
    requires ip != [] && '\n' !in ip
    ensures Stripped(ip + "\n") == ip
  {
    var s := ip + "\n";
    assert LeadingIn(s, LineBreak) == 0;
    assert s[0..] == s;
    assert TrailingIn(s[..|s| - 1], LineBreak) == 0;
    assert TrailingIn(s, LineBreak) == 1;
    assert s[..|s| - 1] == ip;
  }

  /** After `add(ip)` on a file that is empty or ends with a line break,
      `check(ip)` is true, and every address allowed before still is. */
  lemma AddThenCheck(text: string, ip: string, other: string)
    requires ip != "" && '\n' !in ip
    requires text == [] || text[|text| - 1] == '\n'
    ensures Allowed(text + ip + "\n", ip)
    ensures Allowed(text, other) ==> Allowed(text + ip + "\n", other)
  {
    var added := ip + "\n";
    assert text + ip + "\n" == text + added;
    AddedLine(ip);
    LinesAppend(text, added);
    ListedLast(Lines(text), added, ip);
    ListedLast(Lines(text), added, other);
  }

  /** The text `ip` and a line break is the one line `ip`. */
  lemma AddedLine(ip: string)
    requires ip != "" && '\n' !in ip
    ensures Lines(ip + "\n") == [ip + "\n"] && Stripped(ip + "\n") == ip
  {
    var added := ip + "\n";
    assert FirstLineLength(added) == |added| by {
      FirstLineOf(added, [], true);
      assert added + [] == added;
    }
    assert added[..|added|] == added && added[|added|..] == [];
    StripLine(ip);
  }
}
