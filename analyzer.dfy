/** `get_most_frequent_sender` and `save_most_frequent_sender`: the suspect
    of a snapshot is the sender that occurs most often among the packet lines
    `tshark -r` prints for it, leaving out the host's own addresses; it is
    saved as the JSON pair `[ip, count]`. The exit statuses and outputs of
    `hostname -I` (or of `ipconfig | findstr IPv4`) and of `tshark` are
    parameters. */
module Analyzer {
  import opened Wrappers
  import opened Seqs
  import opened Strings
  import opened Counting
  import Json

  /** `os.name == "posix"` or not. */
  datatype Platform = Posix | Windows

  /** What `subprocess.check_output` sees of one command: its exit status
      and its standard output, decoded. */
  datatype Run = Run(exitCode: int, stdout: string)

  /** The two commands the look-up runs: the address command (`hostname -I`,
      or the pipeline `ipconfig | findstr IPv4`, whose status is that of
      `findstr`: 1 when no line matches) and `tshark -r`. */
  datatype Tool = AddressCommand | Tshark

  datatype AnalyzeError =
    | CalledProcessError(returnCode: int, tool: Tool)  // a command exited with a non-zero status
    | IndexError                                       // a list index out of range, uncaught

  /** `subprocess.check_output`: the output of a command that exits with 0;
      any other status raises. */
  function CheckOutput(run: Run, tool: Tool): Result<string, AnalyzeError> {
    if run.exitCode != 0 then Err(CalledProcessError(run.exitCode, tool)) else Ok(run.stdout)
  }

  /** `current_local_ips` from the address command: its status is checked
      first; then the whitespace-separated words of its output on POSIX, of
      the second ':'-separated piece of it elsewhere. */
  function LocalIps(platform: Platform, host: Run): (r: Result<seq<string>, AnalyzeError>)
    ensures host.exitCode != 0 ==> r == Err(CalledProcessError(host.exitCode, AddressCommand))
    ensures host.exitCode == 0 && platform == Posix ==> r == Ok(Split(host.stdout))
    ensures host.exitCode == 0 && platform == Windows ==> (r.Ok? <==> ':' in host.stdout)
    ensures host.exitCode == 0 && platform == Windows && |SplitOn(host.stdout, ':')| >= 2 ==>
              r == Ok(Split(SplitOn(host.stdout, ':')[1]))
  {
    match CheckOutput(host, AddressCommand)
    case Err(e) => Err(e)
    case Ok(output) =>
      match platform
      case Posix =>
        SplitStrip(output);
        Ok(Split(Strip(output)))
      case Windows =>
        var pieces := SplitOn(output, ':');
        SplitOnMany(output, ':');
        if |pieces| < 2 then Err(IndexError)
        else
          SplitStrip(pieces[1]);
          Ok(Split(Strip(pieces[1])))
  }

  /** `tshark_output.strip().split("\n")`. */
  function TsharkLines(output: string): seq<string> {
    SplitOn(Strip(output), '\n')
  }

  /** Every line has a third field. */
  predicate AllHaveSender(lines: seq<string>) {
    forall i :: 0 <= i < |lines| ==> |Split(lines[i])| >= 3
  }

  /** The third whitespace-separated field of every line. */
  function SenderFields(lines: seq<string>): (r: seq<string>)
    requires AllHaveSender(lines)
    ensures |r| == |lines|
  {
    seq(|lines|, i requires 0 <= i < |lines| => Split(lines[i])[2])
  }

  /** The list comprehension `senders`: `line.split()[2]` of every line that
      is not a local address, in line order; the first line without a third
      field raises. */
  function Senders(lines: seq<string>, local: seq<string>): (r: Result<seq<string>, AnalyzeError>)
  {
    if lines == [] then Ok([])
    else
      var fields := Split(lines[0]);
      if |fields| < 3 then Err(IndexError)
      else match Senders(lines[1..], local)
        case Err(e) => Err(e)
        case Ok(rest) => Ok((if fields[2] in local then [] else [fields[2]]) + rest)
  }

  /** `get_most_frequent_sender(pcap_file)`: `Counter(senders).most_common(1)[0]`,
      which raises when no sender is left. The address command runs first,
      then `tshark`; either raises on a non-zero status. */
  function MostFrequentSender(platform: Platform, host: Run, tshark: Run): (r: Result<Entry, AnalyzeError>)
  {
    match LocalIps(platform, host)
    case Err(e) => Err(e)
    case Ok(local) =>
      match CheckOutput(tshark, Tshark)
      case Err(e) => Err(e)
      case Ok(output) =>
        match Senders(TsharkLines(output), local)
        case Err(e) => Err(e)
        case Ok(senders) =>
          var top := MostCommon(senders, 1);
          if top == [] then Err(IndexError) else Ok(top[0])
  }

  /** What `json.dumps` is given: the tuple `(ip, count)`, which it writes as
      a list. */
  function Payload(e: Entry): Json.Value {
    Json.Arr([Json.Str(e.0), Json.Int(e.1)])
  }

  /** The file `save_most_frequent_sender` writes. */
  class SenderFile {
    var text: string

    constructor ()
      ensures text == ""
    {
      text := "";
    }

    /** `save_most_frequent_sender(pcap_file_path)`: the file is opened for
        writing, which empties it, before the sender is looked up, so a
        failed look-up leaves it empty. */
    method Save(platform: Platform, host: Run, tshark: Run)
      returns (r: Result<(), AnalyzeError>)
      modifies this
      ensures MostFrequentSender(platform, host, tshark).Err? ==>
        text == "" && r == Err(MostFrequentSender(platform, host, tshark).error)
      ensures MostFrequentSender(platform, host, tshark).Ok? ==>
        text == Json.Dumps(Payload(MostFrequentSender(platform, host, tshark).value)) && r == Ok(())
    {
      text := "";
      var sender := MostFrequentSender(platform, host, tshark);
      if sender.Err? {
        return Err(sender.error);
      }
      text := Json.Dumps(Payload(sender.value));
      r := Ok(());
    }
  }

  // ---------------------------------------------------------------------------
  // Properties

  /** The comprehension fails exactly when some line has no third field, and
      otherwise keeps the third fields that are not local, in order. */
  lemma {:induction false} SendersFilter(lines: seq<string>, local: seq<string>)
    ensures Senders(lines, local).Ok? <==> AllHaveSender(lines)
    ensures AllHaveSender(lines) ==> Senders(lines, local) == Ok(Minus(SenderFields(lines), local))
  {
    if lines != [] {
      SendersFilter(lines[1..], local);
      if AllHaveSender(lines) {
        assert AllHaveSender(lines[1..]);
        assert SenderFields(lines) == [Split(lines[0])[2]] + SenderFields(lines[1..]);
      } else if |Split(lines[0])| >= 3 {
        assert !AllHaveSender(lines[1..]) by {
          var i :| 0 <= i < |lines| && |Split(lines[i])| < 3;
          assert lines[1..][i - 1] == lines[i];
        }
      }
    }
  }

  /** `most_common(1)` is empty exactly for an empty list. */
  lemma MostCommonOneEmpty(s: seq<string>)
    ensures MostCommon(s, 1) == [] <==> s == []
  {
    MostCommonRanked(s, 1);
    if s != [] {
      assert s[0] in Keys(s);
    }
  }

  /** The suspect and its count. A non-zero status of the address command,
      or of `tshark` once the addresses are known, raises
      `CalledProcessError` with that status. With `local` the host's
      addresses and `senders` the third fields of the lines that are not
      among them, the look-up succeeds exactly when the address command
      yields addresses, `tshark` exits with 0, every line has a third field
      and some sender is left. The suspect is
      then one of `senders`, so never local; its count is its number of
      occurrences there; no sender occurs more often, and one that occurs as
      often first appears no earlier. */
  lemma MostFrequentSenderSpec(platform: Platform, host: Run, tshark: Run)
    ensures var r := MostFrequentSender(platform, host, tshark);
      var lines := TsharkLines(tshark.stdout);
      && (host.exitCode != 0 ==> r == Err(CalledProcessError(host.exitCode, AddressCommand)))
      && (LocalIps(platform, host).Ok? && tshark.exitCode != 0 ==> r == Err(CalledProcessError(tshark.exitCode, Tshark)))
      && (r.Ok? <==> LocalIps(platform, host).Ok? && tshark.exitCode == 0 && AllHaveSender(lines)
                     && Minus(SenderFields(lines), LocalIps(platform, host).value) != [])
      && (r.Ok? ==>
            var local := LocalIps(platform, host).value;
            var senders := Minus(SenderFields(lines), local);
            var ip := r.value.0;
            && ip in senders && ip !in local
            && r.value.1 == Count(senders, ip)
            && (forall y :: y in senders ==> Count(senders, y) <= r.value.1)
            && (forall y :: y in senders && Count(senders, y) == r.value.1 ==> FirstIndex(senders, ip) <= FirstIndex(senders, y)))
  {
    var lines := TsharkLines(tshark.stdout);
    var ips := LocalIps(platform, host);
    if ips.Ok? && tshark.exitCode == 0 {
      SendersFilter(lines, ips.value);
      if AllHaveSender(lines) {
        var senders := Minus(SenderFields(lines), ips.value);
        MostCommonOneEmpty(senders);
        if senders != [] {
          MostCommonFirst(senders);
          MinusMember(SenderFields(lines), ips.value, MostCommon(senders, 1)[0].0);
        }
      }
    }
  }

  /** An empty (or blank) output of a `tshark` that exits with 0 splits into
      the single line `""`, which has no third field, so the look-up raises
      `IndexError` once the address command has exited with 0. */
  lemma BlankCaptureFails(platform: Platform, host: Run, tshark: Run)
    requires host.exitCode == 0 && tshark.exitCode == 0
    requires forall i :: 0 <= i < |tshark.stdout| ==> IsSpace(tshark.stdout[i])
    ensures MostFrequentSender(platform, host, tshark) == Err(IndexError)
  {
    SplitAllSpace(tshark.stdout);
    SplitStrip(tshark.stdout);
    assert TsharkLines(tshark.stdout) == [""];
  }

  /** When every sender is a local address nothing is left to count. */
  lemma AllLocalFails(platform: Platform, host: Run, tshark: Run)
    requires LocalIps(platform, host).Ok? && tshark.exitCode == 0
    requires AllHaveSender(TsharkLines(tshark.stdout))
    requires forall i :: 0 <= i < |TsharkLines(tshark.stdout)| ==>
               Split(TsharkLines(tshark.stdout)[i])[2] in LocalIps(platform, host).value
    ensures MostFrequentSender(platform, host, tshark) == Err(IndexError)
  {
    var lines := TsharkLines(tshark.stdout);
    var local := LocalIps(platform, host).value;
    SendersFilter(lines, local);
    MinusAllOut(SenderFields(lines), local);
    MostCommonOneEmpty([]);
  }

  /** The saved text is one line that `json.loads(f.readline().strip())`
      reads back as the list `[ip, count]`. */
  lemma PayloadReadsBack(e: Entry)
    ensures '\n' !in Json.Dumps(Payload(e))
    ensures Json.Loads(Strip(Json.Dumps(Payload(e)))) == Ok(Payload(e))
  {
    Json.DumpsIsOneStrippedLine(Payload(e));
    Json.LoadsDumps(Payload(e));
  }
}
