/** `pcap.aio.loop`: capture one packet per segment file, purge the old
    segments when the previous snapshot was acted on, merge, ask the
    classifier, and, when the verdict rests on enough packets, look up the
    suspect, log it and notify about it. The capture, the clock, the merge
    tool, the classifier and the address and packet tools are inputs of each
    step. */
module Aio {
  import opened Wrappers
  import opened Seqs
  import opened Strings
  import opened Digits
  import opened Sorting
  import Paths
  import Remover
  import Merger
  import Neural
  import Analyzer
  import Json
  import Counting

  // ---------------------------------------------------------------------------
  // Segment names

  /** `datetime.now()`. */
  datatype DateTime = DateTime(year: nat, month: nat, day: nat, hour: nat, minute: nat, second: nat, micro: nat)

  predicate ValidTime(t: DateTime) {
    && 1 <= t.year <= 9999 && 1 <= t.month <= 12 && 1 <= t.day <= 31
    && t.hour < 24 && t.minute < 60 && t.second < 60 && t.micro < 1000000
  }

  /** `a` is earlier than `b`. */
  predicate Before(a: DateTime, b: DateTime) {
    || a.year < b.year
    || (a.year == b.year && a.month < b.month)
    || (a.year == b.year && a.month == b.month && a.day < b.day)
    || (a.year == b.year && a.month == b.month && a.day == b.day && a.hour < b.hour)
    || (a.year == b.year && a.month == b.month && a.day == b.day && a.hour == b.hour && a.minute < b.minute)
    || (a.year == b.year && a.month == b.month && a.day == b.day && a.hour == b.hour && a.minute == b.minute
        && a.second < b.second)
    || (a.year == b.year && a.month == b.month && a.day == b.day && a.hour == b.hour && a.minute == b.minute
        && a.second == b.second && a.micro < b.micro)
  }

  /** The `strftime` directives the segment names use. */
  datatype Directive = Text(s: string) | Day | Month | Year | Hour | Minute | Second | Micro

  /** A piece of formatted text: literal text, or a number in a fixed number
      of zero-padded digits. */
  datatype Piece = Lit(s: string) | Num(n: nat, w: nat)

  function PieceOf(d: Directive, t: DateTime): Piece {
    match d
    case Text(s) => Lit(s)
    case Day => Num(t.day, 2)
    case Month => Num(t.month, 2)
    case Year => Num(t.year, 4)
    case Hour => Num(t.hour, 2)
    case Minute => Num(t.minute, 2)
    case Second => Num(t.second, 2)
    case Micro => Num(t.micro, 6)
  }

  function Pieces(fmt: seq<Directive>, t: DateTime): (ps: seq<Piece>)
    ensures |ps| == |fmt| && forall i :: 0 <= i < |fmt| ==> ps[i] == PieceOf(fmt[i], t)
  {
    seq(|fmt|, i requires 0 <= i < |fmt| => PieceOf(fmt[i], t))
  }

  function RenderPiece(p: Piece): string {
    match p
    case Lit(s) => s
    case Num(n, w) => Pad(n, w)
  }

  function Render(ps: seq<Piece>): string {
    if ps == [] then "" else RenderPiece(ps[0]) + Render(ps[1..])
  }

  /** `t.strftime(fmt)`. */
  function Strftime(fmt: seq<Directive>, t: DateTime): string {
    Render(Pieces(fmt, t))
  }

  /** `'%d%m%Y_%H%M%S_%f'`, the format the capture loop uses. */
  const DayFirstFormat: seq<Directive> :=
    [Day, Month, Year, Text("_"), Hour, Minute, Second, Text("_"), Micro]

  /** `'%Y%m%d_%H%M%S_%f'`: the same fields, the year first. */
  const YearFirstFormat: seq<Directive> :=
    [Year, Month, Day, Text("_"), Hour, Minute, Second, Text("_"), Micro]

  /** `f"{PCAP_FILENAME}_{datetime.now().strftime(fmt)}.pcap"`. */
  function SegmentName(fmt: seq<Directive>, t: DateTime): string {
    Merger.CaptureName + "_" + Strftime(fmt, t) + ".pcap"
  }

  // Order of formatted text

  lemma DigitCharOrder(a: nat, b: nat)
    requires a < b < 10
    ensures DigitChar(a) < DigitChar(b)
  {
  }

  /** Zero-padded numbers of the same width sort like the numbers. */
  lemma {:induction false} PadLess(a: nat, b: nat, w: nat)
    requires a < b < Pow10(w)
    ensures Less(Pad(a, w), Pad(b, w))
  {
    var pa := Pad(a / 10, w - 1);
    var pb := Pad(b / 10, w - 1);
    assert Pad(a, w) == pa + [DigitChar(a % 10)];
    assert Pad(b, w) == pb + [DigitChar(b % 10)];
    if a / 10 < b / 10 {
      PadLess(a / 10, b / 10, w - 1);
      LessSameLength(pa, pb, [DigitChar(a % 10)], [DigitChar(b % 10)]);
    } else {
      DigitCharOrder(a % 10, b % 10);
      LessAppendSame(pa, [DigitChar(a % 10)], [DigitChar(b % 10)]);
    }
  }

  /** Every number fits its width. */
  predicate Fits(ps: seq<Piece>) {
    forall i :: 0 <= i < |ps| && ps[i].Num? ==> ps[i].n < Pow10(ps[i].w)
  }

  /** Two piece lists of the same shape: the same literals, numbers of the
      same widths. */
  predicate Aligned(ps: seq<Piece>, qs: seq<Piece>) {
    && |ps| == |qs|
    && forall i :: 0 <= i < |ps| ==>
         (ps[i].Lit? ==> qs[i] == ps[i]) && (ps[i].Num? ==> qs[i].Num? && qs[i].w == ps[i].w)
  }

  lemma {:induction false} RenderLength(ps: seq<Piece>, qs: seq<Piece>)
    requires Aligned(ps, qs)
    ensures |Render(ps)| == |Render(qs)|
  {
    if ps != [] {
      assert Aligned(ps[1..], qs[1..]);
      RenderLength(ps[1..], qs[1..]);
    }
  }

  /** Aligned pieces that agree before position `i` and hold a smaller
      number at `i` render to a smaller string. */
  lemma {:induction false} RenderMonotone(ps: seq<Piece>, qs: seq<Piece>, i: nat)
    requires Aligned(ps, qs) && Fits(ps) && Fits(qs) && i < |ps|
    requires forall j :: 0 <= j < i ==> ps[j] == qs[j]
    requires ps[i].Num? && qs[i].Num? && ps[i].n < qs[i].n
    ensures Less(Render(ps), Render(qs))
  {
    if i == 0 {
      assert RenderPiece(ps[0]) == Pad(ps[0].n, ps[0].w);
      assert RenderPiece(qs[0]) == Pad(qs[0].n, ps[0].w);
      PadLess(ps[0].n, qs[0].n, ps[0].w);
      LessSameLength(RenderPiece(ps[0]), RenderPiece(qs[0]), Render(ps[1..]), Render(qs[1..]));
    } else {
      assert Aligned(ps[1..], qs[1..]) && Fits(ps[1..]) && Fits(qs[1..]);
      RenderMonotone(ps[1..], qs[1..], i - 1);
      LessAppendSame(RenderPiece(ps[0]), Render(ps[1..]), Render(qs[1..]));
    }
  }

  predicate Sortable(fmt: seq<Directive>) {
    fmt == DayFirstFormat || fmt == YearFirstFormat
  }

  lemma FormatShape(fmt: seq<Directive>, a: DateTime, b: DateTime)
    requires Sortable(fmt) && ValidTime(a) && ValidTime(b)
    ensures Aligned(Pieces(fmt, a), Pieces(fmt, b)) && Fits(Pieces(fmt, a)) && Fits(Pieces(fmt, b))
  {
    assert Pow10(2) == 100 && Pow10(4) == 10000 && Pow10(6) == 1000000;
  }

  /** Names built from the same format compare like their stamps. */
  lemma NameMonotone(fmt: seq<Directive>, a: DateTime, b: DateTime, i: nat)
    requires Sortable(fmt) && ValidTime(a) && ValidTime(b) && i < |fmt|
    requires forall j :: 0 <= j < i ==> PieceOf(fmt[j], a) == PieceOf(fmt[j], b)
    requires PieceOf(fmt[i], a).Num? && PieceOf(fmt[i], a).n < PieceOf(fmt[i], b).n
    ensures Less(SegmentName(fmt, a), SegmentName(fmt, b))
  {
    var pa := Pieces(fmt, a);
    var pb := Pieces(fmt, b);
    FormatShape(fmt, a, b);
    RenderMonotone(pa, pb, i);
    RenderLength(pa, pb);
    LessInContext(Merger.CaptureName + "_", Strftime(fmt, a), Strftime(fmt, b), ".pcap");
  }

  /** With the year first, names sort in time order. */
  lemma YearFirstNamesFollowTime(a: DateTime, b: DateTime)
    requires ValidTime(a) && ValidTime(b) && Before(a, b)
    ensures Less(SegmentName(YearFirstFormat, a), SegmentName(YearFirstFormat, b))
  {
    var f := YearFirstFormat;
    if a.year < b.year {
      NameMonotone(f, a, b, 0);
    } else if a.month < b.month {
      NameMonotone(f, a, b, 1);
    } else if a.day < b.day {
      NameMonotone(f, a, b, 2);
    } else if a.hour < b.hour {
      NameMonotone(f, a, b, 4);
    } else if a.minute < b.minute {
      NameMonotone(f, a, b, 5);
    } else if a.second < b.second {
      NameMonotone(f, a, b, 6);
    } else {
      NameMonotone(f, a, b, 8);
    }
  }

  /** The day-first names the loop writes sort in time order among
      segments of one date. */
  lemma SameDateNamesFollowTime(a: DateTime, b: DateTime)
    requires ValidTime(a) && ValidTime(b) && Before(a, b)
    requires a.year == b.year && a.month == b.month && a.day == b.day
    ensures Less(SegmentName(DayFirstFormat, a), SegmentName(DayFirstFormat, b))
  {
    var f := DayFirstFormat;
    if a.hour < b.hour {
      NameMonotone(f, a, b, 4);
    } else if a.minute < b.minute {
      NameMonotone(f, a, b, 5);
    } else if a.second < b.second {
      NameMonotone(f, a, b, 6);
    } else {
      NameMonotone(f, a, b, 8);
    }
  }

  /** Across a month boundary the day-first names sort the wrong way: the
      segment of 1 February 2024 sorts before that of 31 January 2024, so the
      trim keeps the older one. */
  lemma DayFirstMisorders()
    ensures var jan31 := DateTime(2024, 1, 31, 0, 0, 0, 0);
            var feb1 := DateTime(2024, 2, 1, 0, 0, 0, 0);
      && ValidTime(jan31) && ValidTime(feb1) && Before(jan31, feb1)
      && Less(SegmentName(DayFirstFormat, feb1), SegmentName(DayFirstFormat, jan31))
  {
    var jan31 := DateTime(2024, 1, 31, 0, 0, 0, 0);
    var feb1 := DateTime(2024, 2, 1, 0, 0, 0, 0);
    NameMonotone(DayFirstFormat, feb1, jan31, 0);
  }

  /** Every segment name carries the prefix the merger selects, and holds no
      '/', so it is a plain directory entry. */
  lemma SegmentNameShape(fmt: seq<Directive>, t: DateTime)
    requires Sortable(fmt)
    ensures StartsWith(SegmentName(fmt, t), Merger.CaptureName)
    ensures Remover.IsEntryName(SegmentName(fmt, t))
  {
    FormatNoSlash(fmt);
    PiecesNoSlash(fmt, t);
    RenderNoSlash(Pieces(fmt, t));
    assert '/' !in Merger.CaptureName && Merger.CaptureName != [];
    NameShape(Merger.CaptureName, Strftime(fmt, t));
  }

  /** The literal text of both formats holds no '/'. */
  lemma FormatNoSlash(fmt: seq<Directive>)
    requires Sortable(fmt)
    ensures forall i :: 0 <= i < |fmt| && fmt[i].Text? ==> fmt[i].s == "_"
  {
  }

  lemma PiecesNoSlash(fmt: seq<Directive>, t: DateTime)
    requires forall i :: 0 <= i < |fmt| && fmt[i].Text? ==> fmt[i].s == "_"
    ensures forall i :: 0 <= i < |Pieces(fmt, t)| && Pieces(fmt, t)[i].Lit? ==> '/' !in Pieces(fmt, t)[i].s
  {
  }

  /** `f"{prefix}_{s}.pcap"` starts with the prefix and, when neither part
      holds a '/', is a plain directory entry. */
  lemma NameShape(prefix: string, s: string)
    requires '/' !in prefix && prefix != [] && '/' !in s
    ensures StartsWith(prefix + "_" + s + ".pcap", prefix)
    ensures Remover.IsEntryName(prefix + "_" + s + ".pcap")
  {
    StartsWithPrefix(prefix, "_" + s + ".pcap");
    assert prefix + "_" + s + ".pcap" == prefix + ("_" + s + ".pcap");
    NoSlashConcat(prefix + "_", s, ".pcap");
  }

  lemma NoSlashConcat(a: string, b: string, c: string)
    requires '/' !in a && '/' !in b && '/' !in c && a != []
    ensures '/' !in a + b + c && a + b + c != []
  {
    assert forall k :: 0 <= k < |a + b + c| ==> (a + b + c)[k] in a || (a + b + c)[k] in b || (a + b + c)[k] in c;
  }

  lemma {:induction false} RenderNoSlash(ps: seq<Piece>)
    requires forall i :: 0 <= i < |ps| && ps[i].Lit? ==> '/' !in ps[i].s
    ensures '/' !in Render(ps)
  {
    if ps != [] {
      RenderNoSlash(ps[1..]);
      if ps[0].Num? {
        var p := Pad(ps[0].n, ps[0].w);
        assert forall k :: 0 <= k < |p| ==> p[k] != '/';
      }
    }
  }

  // ---------------------------------------------------------------------------
  // The loop

  /** The settings the loop reads: `max_pcaps_to_merge`, `min_packets_count`,
      `ip_block_threshold`, `lucid_analyze_timeout` and the merge tool, and
      the `strftime` format of the segment names (`DayFirstFormat` as the
      capture loop writes it, or the corrected `YearFirstFormat`). */
  datatype Settings = Settings(maxPcaps: int, minPackets: int, threshold: real, timeout: int, mergecap: string,
                               nameFormat: seq<Directive>)

  /** What `neural.ask` meets on one turn (see `Neural.AskSpec`), or a
      `KeyboardInterrupt` while it runs. */
  datatype Classifier =
    | Asked(initial: seq<string>, listings: seq<seq<string>>, seenAt: int, polls: seq<Neural.Poll>, rows: seq<Neural.Row>)
    | Interrupted

  /** How the address command and the packet dump exit, and what they print,
      on one turn. */
  datatype Lookup = Lookup(platform: Analyzer.Platform, host: Analyzer.Run, tshark: Analyzer.Run)

  /** The inputs of one turn: the clock that names the segment, the exit code
      of the merge tool and whether it wrote the snapshot, the classifier and
      the tools of the sender look-up. */
  datatype Tick = Tick(now: DateTime, mergeExit: int, mergeWrote: bool, classifier: Classifier, lookup: Lookup)

  /** A captured packet, or a `KeyboardInterrupt`, `EOFError` or `SystemExit`
      between packets. */
  datatype Event = Packet(tick: Tick) | Stop

  /** The body of a `POST /api/logs/`. */
  datatype LogEntry = LogEntry(ip: string, ddosProbability: real, requestCount: int)

  /** An exception the loop does not catch. */
  datatype Failure =
    | MergeFailed(mergeError: Merger.MergeError)
    | AskFailed(askError: Neural.AskError)
    | LookupFailed(lookupError: Analyzer.AnalyzeError)

  /** How one turn ends: on to the next packet, inside an `ask` that never
      returns, or with an exception that ends `loop`. */
  datatype Outcome = Continue | Hang | Crash(failure: Failure)

  /** How `loop` ends on a sequence of events: by a stop, hung, by an
      exception, or still running when the events run out. */
  datatype Ending = Stopped | Hung | Crashed(failure: Failure) | Running

  /** What the loop changes: the capture directory, `should_remove`,
      `cnn_result`, the logs posted, the notifications sent and the sender
      file. */
  datatype LoopState = LoopState(files: seq<string>, shouldRemove: bool, cnnResult: Option<seq<Neural.Row>>,
                                 logs: seq<LogEntry>, notifications: seq<string>, senderText: string)

  /** The listing once the capture has written the segment `name`. */
  function Captured(files: seq<string>, name: string): seq<string> {
    if name in files then files else files + [name]
  }

  /** The listing `merge_capture_files` sees: when `should_remove` is set,
      `remove_all_pcaps` has kept only the current segment. */
  function MergeListing(st: LoopState, name: string): seq<string> {
    if st.shouldRemove then Keep(Captured(st.files, name), [name]) else Captured(st.files, name)
  }

  /** The gate that decides whether the verdict is acted on. */
  predicate ActsOn(row: Neural.Row, s: Settings) {
    row.packets > s.minPackets
  }

  /** The gate of the notification, with `sender` the decoded sender file. */
  predicate Alarms(row: Neural.Row, sender: Json.Value, s: Settings) {
    row.ddos > s.threshold && sender != Json.Str("")
  }

  /** The verdict the turn works with: a fresh one from `ask`, or the one of
      an earlier turn when `ask` was interrupted. */
  function Verdict(s: Settings, st: LoopState, c: Classifier): Option<seq<Neural.Row>> {
    match c
    case Interrupted => st.cnnResult
    case Asked(initial, listings, seenAt, polls, rows) =>
      var a := Neural.AskSpec(initial, listings, seenAt, polls, rows, s.minPackets, s.threshold, s.timeout);
      if a.Ok? && !a.value.StillWaiting? then Some(Neural.ReturnedRows(a.value)) else st.cnnResult
  }

  /** The end of a turn, after `cnn_result` is known. */
  function Act(s: Settings, st: LoopState, lookup: Lookup): (Outcome, LoopState) {
    match st.cnnResult
    case None => (Continue, st)
    case Some(rows) =>
      if rows == [] || !ActsOn(rows[0], s) then (Continue, st)
      else Report(s, st, rows[0], Analyzer.MostFrequentSender(lookup.platform, lookup.host, lookup.tshark))
  }

  /** Acting on the verdict `row`, with `found` the outcome of the sender
      look-up: save it, post the log, notify and set `should_remove`. */
  function Report(s: Settings, st: LoopState, row: Neural.Row, found: Result<Counting.Entry, Analyzer.AnalyzeError>)
    : (Outcome, LoopState)
  {
    match found
    case Err(e) => (Crash(LookupFailed(e)), st.(senderText := ""))
    case Ok(e) =>
      var sender := Analyzer.Payload(e);
      (Continue, st.(senderText := Json.Dumps(sender),
                     logs := st.logs + [LogEntry(e.0, row.ddos, e.1)],
                     notifications := st.notifications + (if Alarms(row, sender, s) then [e.0] else []),
                     shouldRemove := true))
  }

  /** The state once the segment is written, the purge has run and
      `merge_capture_files` has trimmed the directory and run the merge tool. */
  function AfterMerge(s: Settings, st: LoopState, tick: Tick): LoopState {
    var listing := MergeListing(st, SegmentName(s.nameFormat, tick.now));
    st.(files := Merger.Written(Merger.TrimmedListing(listing, s.maxPcaps), tick.mergeWrote), shouldRemove := false)
  }

  /** The exception `merge_capture_files` raises, if any. */
  function MergeFailure(s: Settings, dir: string, st: LoopState, tick: Tick): Option<Failure> {
    var listing := MergeListing(st, SegmentName(s.nameFormat, tick.now));
    var cmd := Merger.MergeCommand(s.mergecap, dir, Merger.MergeInputs(listing, s.maxPcaps));
    if tick.mergeExit != 0 then Some(MergeFailed(Merger.CalledProcessError(tick.mergeExit, cmd)))
    else if Merger.MergedFile !in AfterMerge(s, st, tick).files then Some(MergeFailed(Merger.RuntimeError(s.mergecap)))
    else None
  }

  /** One turn of `loop` for one captured packet, in the directory `dir`. */
  function StepSpec(s: Settings, dir: string, st: LoopState, tick: Tick): (Outcome, LoopState) {
    var merged := AfterMerge(s, st, tick);
    match MergeFailure(s, dir, st, tick)
    case Some(f) => (Crash(f), merged)
    case None =>
      match tick.classifier
      case Interrupted => Act(s, merged, tick.lookup)
      case Asked(initial, listings, seenAt, polls, rows) =>
        match Neural.AskSpec(initial, listings, seenAt, polls, rows, s.minPackets, s.threshold, s.timeout)
        case Err(e) => (Crash(AskFailed(e)), merged)
        case Ok(a) =>
          if a.StillWaiting? then (Hang, merged)
          else Act(s, merged.(cnnResult := Some(Neural.ReturnedRows(a))), tick.lookup)
  }

  /** `loop` on a sequence of events. */
  function RunSpec(s: Settings, dir: string, st: LoopState, events: seq<Event>): (Ending, LoopState)
    decreases |events|
  {
    if events == [] then (Running, st)
    else
      match events[0]
      case Stop => (Stopped, st)
      case Packet(tick) =>
        var (o, next) := StepSpec(s, dir, st, tick);
        match o
        case Continue => RunSpec(s, dir, next, events[1..])
        case Hang => (Hung, next)
        case Crash(f) => (Crashed(f), next)
  }

  /** `f.readline()`: the text up to and including the first line break. */
  function ReadLine(text: string): (line: string)
    ensures '\n' !in text ==> line == text
  {
    if text == [] then []
    else if text[0] == '\n' then "\n"
    else [text[0]] + ReadLine(text[1..])
  }

  /** `json.loads(f.readline().strip())` on the sender file, which holds
      the dump of the entry `e`. */
  method ReadSender(text: string, ghost e: Counting.Entry) returns (sender: Json.Value)
    requires text == Json.Dumps(Analyzer.Payload(e))
    ensures sender == Analyzer.Payload(e)
  {
    var decoded := Json.Loads(Strip(ReadLine(text)));
    assert decoded == Ok(Analyzer.Payload(e)) by {
      Analyzer.PayloadReadsBack(e);
    }
    sender := decoded.value;
  }

  /** `loop()` against a capture directory, the sender file, the log API and
      the chat the notifications go to. */
  class Supervisor {
    const settings: Settings
    const dir: Remover.PcapDir
    const senderFile: Analyzer.SenderFile
    var shouldRemove: bool
    var cnnResult: Option<seq<Neural.Row>>
    var logs: seq<LogEntry>
    var notifications: seq<string>

    ghost predicate Valid()
      reads this, dir
    {
      dir.Valid() && Sortable(settings.nameFormat)
    }

    function Current(): LoopState
      reads this, dir, senderFile
    {
      LoopState(dir.files, shouldRemove, cnnResult, logs, notifications, senderFile.text)
    }

    constructor (settings: Settings, dir: Remover.PcapDir, senderFile: Analyzer.SenderFile)
      requires dir.Valid() && Sortable(settings.nameFormat)
      ensures Valid()
      ensures this.settings == settings && this.dir == dir && this.senderFile == senderFile
      ensures !shouldRemove && cnnResult == None && logs == [] && notifications == []
    {
      this.settings := settings;
      this.dir := dir;
      this.senderFile := senderFile;
      shouldRemove := false;
      cnnResult := None;
      logs := [];
      notifications := [];
    }

    /** One turn of the packet loop. */
    method Step(tick: Tick) returns (o: Outcome)
      requires Valid() && dir.present
      modifies this, dir, senderFile
      ensures Valid() && dir.present
      ensures (o, Current()) == StepSpec(settings, dir.path, old(Current()), tick)
    {
      var failure := Capture(tick);
      if failure.Some? {
        return Crash(failure.value);
      }
      match tick.classifier {
        case Asked(initial, listings, seenAt, polls, rows) =>
          var answer, _ := Neural.Ask(initial, listings, seenAt, polls, rows,
                                      settings.minPackets, settings.threshold, settings.timeout);
          if answer.Err? {
            return Crash(AskFailed(answer.error));
          }
          if answer.value.StillWaiting? {
            return Hang;
          }
          cnnResult := Some(Neural.ReturnedRows(answer.value));
        case Interrupted =>
      }
      o := Respond(tick.lookup);
    }

    /** The segment file of the packet, the purge when `should_remove` is
        set, and `merge_capture_files()`. */
    method Capture(tick: Tick) returns (failure: Option<Failure>)
      requires Valid() && dir.present
      modifies this, dir
      ensures Valid() && dir.present
      ensures failure == MergeFailure(settings, dir.path, old(Current()), tick)
      ensures Current() == AfterMerge(settings, old(Current()), tick)
    {
      ghost var st := Current();
      var name := SegmentName(settings.nameFormat, tick.now);
      var outputFile := Paths.Join(dir.path, name);
      SegmentNameShape(settings.nameFormat, tick.now);
      dir.Write(name);
      assert dir.files == Captured(st.files, name);
      if shouldRemove {
        Paths.BasenameOfJoin(dir.path, name);
        assert Remover.Basenames([outputFile]) == [name];
        var _ := dir.RemoveAll([outputFile], Remover.RemovedMode);
        shouldRemove := false;
      }
      ghost var listing := dir.files;
      assert listing == MergeListing(st, name);
      var _, merged := Merger.MergeCaptureFiles(dir, settings.maxPcaps, settings.mergecap, tick.mergeExit, tick.mergeWrote);
      assert Current() == AfterMerge(settings, st, tick);
      failure := if merged.Err? then Some(MergeFailed(merged.error)) else None;
    }

    /** The rest of the turn, once `cnn_result` is known: skip without a
        verdict; otherwise, when the verdict rests on enough packets, save
        the sender, read it back, post the log, notify above the threshold
        and set `should_remove`. */
    method Respond(lookup: Lookup) returns (o: Outcome)
      requires Valid()
      modifies this, senderFile
      ensures Valid()
      ensures (o, Current()) == Act(settings, old(Current()), lookup)
    {
      if cnnResult.None? || cnnResult.value == [] {
        return Continue;
      }
      var row := cnnResult.value[0];
      if row.packets > settings.minPackets {
        o := Alert(row, lookup);
      } else {
        o := Continue;
      }
    }

    /** The analysis of the sender and what follows from it. */
    method Alert(row: Neural.Row, lookup: Lookup) returns (o: Outcome)
      requires Valid()
      modifies this, senderFile
      ensures Valid()
      ensures (o, Current()) ==
              Report(settings, old(Current()), row, Analyzer.MostFrequentSender(lookup.platform, lookup.host, lookup.tshark))
    {
      var saved := senderFile.Save(lookup.platform, lookup.host, lookup.tshark);
      if saved.Err? {
        return Crash(LookupFailed(saved.error));
      }
      ghost var e := Analyzer.MostFrequentSender(lookup.platform, lookup.host, lookup.tshark).value;
      Record(row, e);
      o := Continue;
    }

    /** Read the saved sender back, post the log, notify above the threshold
        and set `should_remove`. */
    method Record(row: Neural.Row, ghost e: Counting.Entry)
      requires Valid() && senderFile.text == Json.Dumps(Analyzer.Payload(e))
      modifies this
      ensures Valid()
      ensures Current() == old(Current()).(logs := old(logs) + [LogEntry(e.0, row.ddos, e.1)],
        notifications := old(notifications) + (if Alarms(row, Analyzer.Payload(e), settings) then [e.0] else []),
        shouldRemove := true)
    {
      var mostFrequentSender := ReadSender(senderFile.text, e);
      var ip := mostFrequentSender.items[0].s;
      logs := logs + [LogEntry(ip, row.ddos, mostFrequentSender.items[1].i)];
      if Alarms(row, mostFrequentSender, settings) {
        notifications := notifications + [ip];
      }
      shouldRemove := true;
    }

    /** `loop()`: create the directory if it is missing, start with
        `should_remove` clear and no verdict, and take one turn per packet
        until a stop, a hang or an exception. */
    method Run(events: seq<Event>) returns (ending: Ending)
      requires Valid()
      modifies this, dir, senderFile
      ensures Valid() && dir.present
      ensures (ending, Current()) ==
              RunSpec(settings, dir.path, old(Current()).(shouldRemove := false, cnnResult := None), events)
    {
      if !dir.present {
        dir.Create();
      }
      shouldRemove := false;
      cnnResult := None;
      ghost var start := Current();
      var i := 0;
      while i < |events|
        invariant Valid() && dir.present && 0 <= i <= |events|
        invariant RunSpec(settings, dir.path, Current(), events[i..]) == RunSpec(settings, dir.path, start, events)
        decreases |events| - i
      {
        ghost var before := Current();
        RunSpecFirst(settings, dir.path, before, events[i..]);
        assert events[i..][0] == events[i] && events[i..][1..] == events[i + 1..];
        if events[i].Stop? {
          return Stopped;
        }
        var o := Step(events[i].tick);
        assert (o, Current()) == StepSpec(settings, dir.path, before, events[i].tick);
        if o.Hang? {
          return Hung;
        }
        if o.Crash? {
          return Crashed(o.failure);
        }
        assert RunSpec(settings, dir.path, Current(), events[i + 1..]) == RunSpec(settings, dir.path, start, events);
        i := i + 1;
      }
      assert events[i..] == [];
      ending := Running;
    }
  }

  /** The first event of a run: a stop ends it, a packet takes one turn. */
  lemma RunSpecFirst(s: Settings, dir: string, st: LoopState, events: seq<Event>)
    requires events != []
    ensures events[0].Stop? ==> RunSpec(s, dir, st, events) == (Stopped, st)
    ensures events[0].Packet? ==>
      var (o, next) := StepSpec(s, dir, st, events[0].tick);
      RunSpec(s, dir, st, events) ==
        match o
        case Continue => RunSpec(s, dir, next, events[1..])
        case Hang => (Hung, next)
        case Crash(f) => (Crashed(f), next)
  {
  }

  // ---------------------------------------------------------------------------
  // Properties of the loop

  /** Whether `ask` returns on this turn (or is interrupted, which the loop
      survives). */
  predicate Answered(s: Settings, c: Classifier) {
    match c
    case Interrupted => true
    case Asked(initial, listings, seenAt, polls, rows) =>
      var a := Neural.AskSpec(initial, listings, seenAt, polls, rows, s.minPackets, s.threshold, s.timeout);
      a.Ok? && !a.value.StillWaiting?
  }

  /** A turn whose merge succeeds and whose `ask` returns ends in `Act`, with
      the verdict of `Verdict`. */
  lemma StepAfterAnswer(s: Settings, dir: string, st: LoopState, tick: Tick)
    requires MergeFailure(s, dir, st, tick) == None && Answered(s, tick.classifier)
    ensures StepSpec(s, dir, st, tick)
            == Act(s, AfterMerge(s, st, tick).(cnnResult := Verdict(s, st, tick.classifier)), tick.lookup)
  {
  }

  /** With `should_remove` set, the purge leaves the current segment alone
      in the directory, so the merge (for any `max_pcaps_to_merge` that is
      not negative) takes that one segment and trims nothing; the flag is
      clear after the merge. */
  lemma PurgeLeavesCurrentSegment(s: Settings, st: LoopState, tick: Tick)
    requires st.shouldRemove && Distinct(st.files) && s.maxPcaps >= 0 && Sortable(s.nameFormat)
    ensures var name := SegmentName(s.nameFormat, tick.now);
      && MergeListing(st, name) == [name]
      && Merger.MergeInputs([name], s.maxPcaps) == [name]
      && AfterMerge(s, st, tick).files == Merger.Written([name], tick.mergeWrote)
      && !AfterMerge(s, st, tick).shouldRemove
  {
    SegmentNameShape(s.nameFormat, tick.now);
    PurgedListing(st, SegmentName(s.nameFormat, tick.now), s.maxPcaps);
  }

  /** The listing after the purge, for any segment name with the capture
      prefix: that one segment, which the merge takes and does not trim. */
  lemma PurgedListing(st: LoopState, name: string, k: int)
    requires st.shouldRemove && Distinct(st.files) && k >= 0
    requires StartsWith(name, Merger.CaptureName)
    ensures MergeListing(st, name) == [name]
    ensures Merger.MergeInputs([name], k) == [name] && Merger.TrimmedListing([name], k) == [name]
  {
    var captured := Captured(st.files, name);
    assert Distinct(captured) && name in captured;
    KeepOne(captured, name);
    assert Merger.Captures([name]) == [name];
    assert Merger.Candidates([name]) == [name];
    assert Remover.Excess([name], k) == [];
  }

  /** The trim of a turn that finds one earlier segment in the directory,
      with `should_remove` clear and `max_pcaps_to_merge == 1`: of that
      segment and the one just written, the one whose name sorts last (`hi`)
      is merged and kept, and the other (`lo`) is deleted. */
  lemma MergeOfTwo(s: Settings, st: LoopState, tick: Tick, lo: string, hi: string)
    requires Sortable(s.nameFormat) && s.maxPcaps == 1 && !st.shouldRemove
    requires |st.files| == 1 && StartsWith(st.files[0], Merger.CaptureName)
    requires var newer := SegmentName(s.nameFormat, tick.now);
      Less(lo, hi) && ((lo, hi) == (st.files[0], newer) || (lo, hi) == (newer, st.files[0]))
    ensures var newer := SegmentName(s.nameFormat, tick.now);
      && Merger.MergeInputs(MergeListing(st, newer), s.maxPcaps) == [hi]
      && hi in AfterMerge(s, st, tick).files && lo !in AfterMerge(s, st, tick).files
  {
    SegmentNameShape(s.nameFormat, tick.now);
    ListingOfTwo(st, SegmentName(s.nameFormat, tick.now), lo, hi);
  }

  /** The same trim for any new segment name with the capture prefix. */
  lemma ListingOfTwo(st: LoopState, newer: string, lo: string, hi: string)
    requires !st.shouldRemove && |st.files| == 1
    requires StartsWith(st.files[0], Merger.CaptureName) && StartsWith(newer, Merger.CaptureName)
    requires Less(lo, hi) && ((lo, hi) == (st.files[0], newer) || (lo, hi) == (newer, st.files[0]))
    ensures MergeListing(st, newer) == [st.files[0], newer]
    ensures Merger.MergeInputs(MergeListing(st, newer), 1) == [hi]
    ensures Merger.TrimmedListing(MergeListing(st, newer), 1) == [hi]
    ensures lo != Merger.MergedFile && hi != Merger.MergedFile
  {
    var older := st.files[0];
    LessIrreflexive(lo);
    assert st.files == [older];
    assert MergeListing(st, newer) == [older, newer];
    Merger.TrimOfTwo(older, newer, lo, hi);
  }

  /** The consequence of the day-first names in the loop: with
      `max_pcaps_to_merge == 1`, the turn of 1 February 2024 that finds the
      segment of 31 January 2024 merges the older segment and deletes the
      one it has just written. */
  lemma DayFirstTrimDropsNewer(s: Settings, st: LoopState, tick: Tick)
    requires s.nameFormat == DayFirstFormat && s.maxPcaps == 1 && !st.shouldRemove
    requires st.files == [SegmentName(DayFirstFormat, DateTime(2024, 1, 31, 0, 0, 0, 0))]
    requires tick.now == DateTime(2024, 2, 1, 0, 0, 0, 0)
    ensures var older := st.files[0];
      var newer := SegmentName(s.nameFormat, tick.now);
      && Merger.MergeInputs(MergeListing(st, newer), s.maxPcaps) == [older]
      && older in AfterMerge(s, st, tick).files && newer !in AfterMerge(s, st, tick).files
  {
    var older := st.files[0];
    var newer := SegmentName(s.nameFormat, tick.now);
    DayFirstMisorders();
    SegmentNameShape(DayFirstFormat, DateTime(2024, 1, 31, 0, 0, 0, 0));
    MergeOfTwo(s, st, tick, newer, older);
  }

  /** With the year-first names the same turn, at any time after the
      earlier segment, merges and keeps the segment it has just written and
      deletes the earlier one. */
  lemma YearFirstTrimKeepsNewer(s: Settings, st: LoopState, tick: Tick, earlier: DateTime)
    requires s.nameFormat == YearFirstFormat && s.maxPcaps == 1 && !st.shouldRemove
    requires ValidTime(earlier) && ValidTime(tick.now) && Before(earlier, tick.now)
    requires st.files == [SegmentName(YearFirstFormat, earlier)]
    ensures var older := st.files[0];
      var newer := SegmentName(s.nameFormat, tick.now);
      && Merger.MergeInputs(MergeListing(st, newer), s.maxPcaps) == [newer]
      && newer in AfterMerge(s, st, tick).files && older !in AfterMerge(s, st, tick).files
  {
    var older := st.files[0];
    var newer := SegmentName(s.nameFormat, tick.now);
    YearFirstNamesFollowTime(earlier, tick.now);
    SegmentNameShape(YearFirstFormat, earlier);
    MergeOfTwo(s, st, tick, older, newer);
  }

  /** Without a verdict (none so far, or `ask` returned no rows) the turn
      ends after the merge: nothing is logged, notified or saved, and
      `should_remove` stays clear. */
  lemma SkipWithoutVerdict(s: Settings, dir: string, st: LoopState, tick: Tick)
    requires MergeFailure(s, dir, st, tick) == None && Answered(s, tick.classifier)
    requires var v := Verdict(s, st, tick.classifier); v == None || v.value == []
    ensures var (o, next) := StepSpec(s, dir, st, tick);
      && o == Continue
      && next.logs == st.logs && next.notifications == st.notifications && next.senderText == st.senderText
      && !next.shouldRemove
  {
    StepAfterAnswer(s, dir, st, tick);
  }

  /** With a verdict, the turn acts on it, whatever its probability, exactly
      when its packet count exceeds `min_packets_count`: the look-up runs,
      then one log entry is posted and `should_remove` is set, or the look-up
      raises. Otherwise nothing is logged and the flag stays clear. */
  lemma ActGate(s: Settings, dir: string, st: LoopState, tick: Tick)
    requires MergeFailure(s, dir, st, tick) == None && Answered(s, tick.classifier)
    requires var v := Verdict(s, st, tick.classifier); v.Some? && v.value != []
    ensures var row := Verdict(s, st, tick.classifier).value[0];
      var found := Analyzer.MostFrequentSender(tick.lookup.platform, tick.lookup.host, tick.lookup.tshark);
      var (o, next) := StepSpec(s, dir, st, tick);
      && (next.shouldRemove <==> row.packets > s.minPackets && found.Ok?)
      && (o.Crash? <==> row.packets > s.minPackets && found.Err?)
      && (row.packets > s.minPackets && found.Ok? ==>
            next.logs == st.logs + [LogEntry(found.value.0, row.ddos, found.value.1)])
      && (!(row.packets > s.minPackets && found.Ok?) ==> next.logs == st.logs)
  {
    StepAfterAnswer(s, dir, st, tick);
    var merged := AfterMerge(s, st, tick).(cnnResult := Verdict(s, st, tick.classifier));
    assert merged.logs == st.logs && !merged.shouldRemove;
    ActOnVerdict(s, merged, tick.lookup);
  }

  /** `ActGate` for the end of the turn. */
  lemma ActOnVerdict(s: Settings, st: LoopState, lookup: Lookup)
    requires st.cnnResult.Some? && st.cnnResult.value != [] && !st.shouldRemove
    ensures var row := st.cnnResult.value[0];
      var found := Analyzer.MostFrequentSender(lookup.platform, lookup.host, lookup.tshark);
      var (o, next) := Act(s, st, lookup);
      && (next.shouldRemove <==> row.packets > s.minPackets && found.Ok?)
      && (o.Crash? <==> row.packets > s.minPackets && found.Err?)
      && (row.packets > s.minPackets && found.Ok? ==>
            next.logs == st.logs + [LogEntry(found.value.0, row.ddos, found.value.1)])
      && (!(row.packets > s.minPackets && found.Ok?) ==> next.logs == st.logs)
  {
    var found := Analyzer.MostFrequentSender(lookup.platform, lookup.host, lookup.tshark);
    ReportGate(s, st, st.cnnResult.value[0], found);
  }

  lemma ReportGate(s: Settings, st: LoopState, row: Neural.Row, found: Result<Counting.Entry, Analyzer.AnalyzeError>)
    requires !st.shouldRemove
    ensures var (o, next) := Report(s, st, row, found);
      && (next.shouldRemove <==> found.Ok?)
      && (found.Err? ==> o == Crash(LookupFailed(found.error)))
      && (found.Ok? ==> o == Continue)
      && (found.Ok? ==> next.logs == st.logs + [LogEntry(found.value.0, row.ddos, found.value.1)])
      && (found.Err? ==> next.logs == st.logs)
  {
  }

  /** A non-zero status of the address command, or of `tshark` once the
      address command has given addresses, crashes a turn that acts on its
      verdict with that `CalledProcessError`: nothing is logged or notified,
      the sender file is left empty and `should_remove` stays clear. */
  lemma FailedCommandCrashes(s: Settings, dir: string, st: LoopState, tick: Tick)
    requires MergeFailure(s, dir, st, tick) == None && Answered(s, tick.classifier)
    requires var v := Verdict(s, st, tick.classifier); v.Some? && v.value != [] && v.value[0].packets > s.minPackets
    requires var l := tick.lookup;
      l.host.exitCode != 0 || (Analyzer.LocalIps(l.platform, l.host).Ok? && l.tshark.exitCode != 0)
    ensures var l := tick.lookup;
      var (o, next) := StepSpec(s, dir, st, tick);
      && o == Crash(LookupFailed(
           if l.host.exitCode != 0 then Analyzer.CalledProcessError(l.host.exitCode, Analyzer.AddressCommand)
           else Analyzer.CalledProcessError(l.tshark.exitCode, Analyzer.Tshark)))
      && next.logs == st.logs && next.notifications == st.notifications
      && next.senderText == "" && !next.shouldRemove
  {
    StepAfterAnswer(s, dir, st, tick);
    Analyzer.MostFrequentSenderSpec(tick.lookup.platform, tick.lookup.host, tick.lookup.tshark);
  }

  /** The notification goes out on a turn that acts exactly when the
      probability exceeds `ip_block_threshold` (strictly): the check that the
      sender is not `""` compares a decoded list with a string and always
      holds. The address notified is the one logged. */
  lemma NotifyGate(s: Settings, dir: string, st: LoopState, tick: Tick)
    requires MergeFailure(s, dir, st, tick) == None && Answered(s, tick.classifier)
    requires var v := Verdict(s, st, tick.classifier); v.Some? && v.value != []
    requires Verdict(s, st, tick.classifier).value[0].packets > s.minPackets
    requires Analyzer.MostFrequentSender(tick.lookup.platform, tick.lookup.host, tick.lookup.tshark).Ok?
    ensures var row := Verdict(s, st, tick.classifier).value[0];
      var e := Analyzer.MostFrequentSender(tick.lookup.platform, tick.lookup.host, tick.lookup.tshark).value;
      var next := StepSpec(s, dir, st, tick).1;
      && (row.ddos > s.threshold ==> next.notifications == st.notifications + [e.0])
      && (row.ddos <= s.threshold ==> next.notifications == st.notifications)
      && next.logs == st.logs + [LogEntry(e.0, row.ddos, e.1)]
  {
    StepAfterAnswer(s, dir, st, tick);
  }

  /** A verdict the classifier trusts (`Packets` not below the minimum) is
      not acted on exactly when its packet count equals the minimum. */
  lemma TrustGap(row: Neural.Row, s: Settings)
    ensures Neural.Decide(row, s.minPackets, s.threshold) != Neural.Insufficient && !ActsOn(row, s)
            <==> row.packets == s.minPackets
  {
  }

  /** An interrupted `ask` leaves the verdict of an earlier turn in place,
      and the loop acts on it again: one more log entry for the same verdict. */
  lemma InterruptRepeatsVerdict(s: Settings, dir: string, st: LoopState, tick: Tick)
    requires MergeFailure(s, dir, st, tick) == None && tick.classifier == Interrupted
    requires st.cnnResult.Some? && st.cnnResult.value != [] && ActsOn(st.cnnResult.value[0], s)
    requires Analyzer.MostFrequentSender(tick.lookup.platform, tick.lookup.host, tick.lookup.tshark).Ok?
    ensures var e := Analyzer.MostFrequentSender(tick.lookup.platform, tick.lookup.host, tick.lookup.tshark).value;
      var next := StepSpec(s, dir, st, tick).1;
      next.logs == st.logs + [LogEntry(e.0, st.cnnResult.value[0].ddos, e.1)] && next.cnnResult == st.cnnResult
  {
    StepAfterAnswer(s, dir, st, tick);
  }

  /** Events after the first stop have no effect. */
  lemma {:induction false} RunEndsAtStop(s: Settings, dir: string, st: LoopState, events: seq<Event>, i: nat)
    requires i < |events| && events[i] == Stop
    ensures RunSpec(s, dir, st, events) == RunSpec(s, dir, st, events[..i + 1])
    ensures (forall j :: 0 <= j < i ==> events[j].Packet?) ==> RunSpec(s, dir, st, events[..i + 1]).0 != Running
    decreases i
  {
    var prefix := events[..i + 1];
    assert prefix[0] == events[0] && prefix[1..] == events[1..][..i];
    RunSpecFirst(s, dir, st, events);
    RunSpecFirst(s, dir, st, prefix);
    if i > 0 && events[0].Packet? {
      var (o, next) := StepSpec(s, dir, st, events[0].tick);
      if o == Continue {
        RunEndsAtStop(s, dir, next, events[1..], i - 1);
      }
    }
  }

  /** The log and the notifications only grow, and every address notified
      has been logged. */
  predicate NotifiedLogged(st: LoopState) {
    forall k :: 0 <= k < |st.notifications| ==> st.notifications[k] in LoggedIps(st.logs)
  }

  /** The addresses of the log entries, in order. */
  function LoggedIps(logs: seq<LogEntry>): (ips: seq<string>)
    ensures |ips| == |logs| && forall j :: 0 <= j < |logs| ==> ips[j] == logs[j].ip
  {
    seq(|logs|, j requires 0 <= j < |logs| => logs[j].ip)
  }

  /** How one turn can change the history: not at all, or by one log entry,
      with a notification for its address or without one. */
  predicate Extends(st: LoopState, next: LoopState) {
    || (next.logs == st.logs && next.notifications == st.notifications)
    || (&& |next.logs| == |st.logs| + 1 && next.logs[..|st.logs|] == st.logs
        && (|| next.notifications == st.notifications
            || next.notifications == st.notifications + [next.logs[|st.logs|].ip]))
  }

  lemma ActExtends(s: Settings, st: LoopState, lookup: Lookup)
    ensures Extends(st, Act(s, st, lookup).1)
  {
    if st.cnnResult.Some? && st.cnnResult.value != [] {
      var found := Analyzer.MostFrequentSender(lookup.platform, lookup.host, lookup.tshark);
      if ActsOn(st.cnnResult.value[0], s) && found.Ok? {
        var e := LogEntry(found.value.0, st.cnnResult.value[0].ddos, found.value.1);
        assert Act(s, st, lookup).1.logs == st.logs + [e];
        assert (st.logs + [e])[..|st.logs|] == st.logs;
      }
    }
  }

  lemma StepExtends(s: Settings, dir: string, st: LoopState, tick: Tick)
    ensures Extends(st, StepSpec(s, dir, st, tick).1)
  {
    var merged := AfterMerge(s, st, tick);
    if MergeFailure(s, dir, st, tick) == None && Answered(s, tick.classifier) {
      StepAfterAnswer(s, dir, st, tick);
      var st1 := merged.(cnnResult := Verdict(s, st, tick.classifier));
      ActExtends(s, st1, tick.lookup);
    }
  }

  lemma ExtendsKeepsHistory(st: LoopState, next: LoopState)
    requires NotifiedLogged(st) && Extends(st, next)
    ensures st.logs <= next.logs && st.notifications <= next.notifications && NotifiedLogged(next)
  {
    if next.logs != st.logs || next.notifications != st.notifications {
      var e := next.logs[|st.logs|];
      assert next.logs == st.logs + [e];
      assert LoggedIps(next.logs) == LoggedIps(st.logs) + [e.ip];
      assert st.notifications <= next.notifications;
    }
  }

  lemma StepKeepsHistory(s: Settings, dir: string, st: LoopState, tick: Tick)
    requires NotifiedLogged(st)
    ensures var next := StepSpec(s, dir, st, tick).1;
      && st.logs <= next.logs && st.notifications <= next.notifications && NotifiedLogged(next)
  {
    StepExtends(s, dir, st, tick);
    ExtendsKeepsHistory(st, StepSpec(s, dir, st, tick).1);
  }

  lemma {:induction false} RunKeepsHistory(s: Settings, dir: string, st: LoopState, events: seq<Event>)
    requires NotifiedLogged(st)
    ensures var last := RunSpec(s, dir, st, events).1;
      && st.logs <= last.logs && st.notifications <= last.notifications && NotifiedLogged(last)
    decreases |events|
  {
    if events != [] {
      RunSpecFirst(s, dir, st, events);
    }
    if events != [] && events[0].Packet? {
      StepKeepsHistory(s, dir, st, events[0].tick);
      var next := StepSpec(s, dir, st, events[0].tick).1;
      RunKeepsHistory(s, dir, next, events[1..]);
    }
  }
}
