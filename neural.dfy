/** `neural.ask`: start the classifier on a snapshot, wait for its result
    file to appear in the output directory, wait until that file holds a
    header and a row, and judge the first row. The directory listings, the
    line counts, the clock and the parsed rows are an observation trace. */
module Neural {
  import opened Wrappers
  import opened Seqs

  /** A row of the result file, with its `Packets` and `DDOS%` columns parsed. */
  datatype Row = Row(packets: int, ddos: real)

  /** What `ask` logs about the first row. */
  datatype Verdict = Insufficient | Danger | Safe

  /** One turn of the inner loop: the result file's line count and, for the
      timeout check, `int(time.time())`. */
  datatype Poll = Poll(lineCount: nat, clock: int)

  datatype Answer =
    | Classified(file: string, rows: seq<Row>, verdict: Verdict)   // `return rows`
    | TimedOut(file: string)                                       // `return []`
    | StillWaiting                                                 // the trace ends first

  datatype AskError =
    | ValueError    // `(new_file,) = new_files` with more than one new file
    | IndexError    // `rows[0]` of a file without rows

  /** The three-way gate on the first row: too few packets, danger above the
      threshold (strictly), safe otherwise. */
  function Decide(row: Row, minPackets: int, threshold: real): (v: Verdict)
    ensures v == Insufficient <==> row.packets < minPackets
    ensures v == Danger <==> row.packets >= minPackets && row.ddos > threshold
    ensures v == Safe <==> row.packets >= minPackets && row.ddos <= threshold
  {
    if row.packets < minPackets then Insufficient
    else if row.ddos > threshold then Danger
    else Safe
  }

  /** `set(current_files) - set(initial_files)`. */
  function NewFiles(current: seq<string>, initial: seq<string>): (r: set<string>)
    ensures forall f :: f in r <==> f in current && f !in initial
  {
    set f | f in current && f !in initial
  }

  /** Whether a poll ends the inner loop: the file has a row, or the wait
      since the file was first seen exceeds the timeout. */
  predicate Settled(p: Poll, seenAt: int, timeout: int) {
    p.lineCount > 1 || p.clock - seenAt > timeout
  }

  /** The first listing that shows a new file. */
  function FirstNew(initial: seq<string>, listings: seq<seq<string>>): (i: nat)
    ensures i <= |listings|
    ensures forall j :: 0 <= j < i ==> NewFiles(listings[j], initial) == {}
    ensures i < |listings| ==> NewFiles(listings[i], initial) != {}
  {
    if listings == [] then 0
    else if NewFiles(listings[0], initial) != {} then 0
    else 1 + FirstNew(initial, listings[1..])
  }

  /** The first poll that ends the inner loop. */
  function FirstSettled(polls: seq<Poll>, seenAt: int, timeout: int): (i: nat)
    ensures i <= |polls|
    ensures forall j :: 0 <= j < i ==> !Settled(polls[j], seenAt, timeout)
    ensures i < |polls| ==> Settled(polls[i], seenAt, timeout)
  {
    if polls == [] then 0
    else if Settled(polls[0], seenAt, timeout) then 0
    else 1 + FirstSettled(polls[1..], seenAt, timeout)
  }

  /** The new file's name: the first name of the listing that is new. */
  function NewFile(current: seq<string>, initial: seq<string>): (f: string)
    requires NewFiles(current, initial) != {}
    ensures f in NewFiles(current, initial)
  {
    var d := Minus(current, initial);
    var g :| g in NewFiles(current, initial);
    MinusMember(current, initial, g);
    MinusMember(current, initial, d[0]);
    d[0]
  }

  /** What `ask` does on a trace: `initial` is the listing taken after the
      classifier starts, `listings` the listings of the outer loop, `seenAt`
      the clock when a new file shows up, `polls` the turns of the inner loop
      and `rows` what the CSV reader makes of the finished file. */
  function AskSpec(initial: seq<string>, listings: seq<seq<string>>, seenAt: int, polls: seq<Poll>,
                   rows: seq<Row>, minPackets: int, threshold: real, timeout: int): Result<Answer, AskError>
  {
    var i := FirstNew(initial, listings);
    if i == |listings| then Ok(StillWaiting)
    else if |NewFiles(listings[i], initial)| > 1 then Err(ValueError)
    else
      var file := NewFile(listings[i], initial);
      var j := FirstSettled(polls, seenAt, timeout);
      if j == |polls| then Ok(StillWaiting)
      else if polls[j].lineCount > 1 then
        if rows == [] then Err(IndexError)
        else Ok(Classified(file, rows, Decide(rows[0], minPackets, threshold)))
      else Ok(TimedOut(file))
  }

  /** Whether `ask` kills the classifier on its way out. */
  predicate Kills(r: Result<Answer, AskError>) {
    r == Err(IndexError) || (r.Ok? && !r.value.StillWaiting?)
  }

  /** `ask(...)`'s return value as `aio` sees it. */
  function ReturnedRows(a: Answer): seq<Row> {
    if a.Classified? then a.rows else []
  }

  /** The classifier's process: `start` and `kill`. */
  class ClassifierProcess {
    var running: bool

    constructor ()
      ensures running
    {
      running := true;
    }

    method Kill()
      modifies this
      ensures !running
    {
      running := false;
    }
  }

  /** `ask(path_to_pcap)` with the listings, polls, clock and rows of the
      trace; `killed` says whether the process was killed. */
  method Ask(initial: seq<string>, listings: seq<seq<string>>, seenAt: int, polls: seq<Poll>,
             rows: seq<Row>, minPackets: int, threshold: real, timeout: int)
    returns (r: Result<Answer, AskError>, killed: bool)
    ensures r == AskSpec(initial, listings, seenAt, polls, rows, minPackets, threshold, timeout)
    ensures killed == Kills(r)
  {
    var cnnProc := new ClassifierProcess();
    var i := 0;
    while i < |listings| && NewFiles(listings[i], initial) == {}
      invariant 0 <= i <= |listings|
      invariant forall j :: 0 <= j < i ==> NewFiles(listings[j], initial) == {}
    {
      i := i + 1;
    }
    ghost var first := FirstNew(initial, listings);
    assert i == first;
    if i == |listings| {
      return Ok(StillWaiting), !cnnProc.running;
    }
    var newFiles := NewFiles(listings[i], initial);
    var currentTimestamp := seenAt;
    if |newFiles| > 1 {
      return Err(ValueError), !cnnProc.running;
    }
    var newFile := NewFile(listings[i], initial);
    var k := 0;
    while k < |polls|
      invariant 0 <= k <= |polls|
      invariant forall j :: 0 <= j < k ==> !Settled(polls[j], seenAt, timeout)
      invariant cnnProc.running
    {
      if polls[k].lineCount > 1 {
        cnnProc.Kill();
        SettledAt(polls, seenAt, timeout, k);
        if rows == [] {
          return Err(IndexError), !cnnProc.running;
        }
        var verdict := Decide(rows[0], minPackets, threshold);
        return Ok(Classified(newFile, rows, verdict)), !cnnProc.running;
      }
      if polls[k].clock - currentTimestamp > timeout {
        cnnProc.Kill();
        SettledAt(polls, seenAt, timeout, k);
        return Ok(TimedOut(newFile)), !cnnProc.running;
      }
      k := k + 1;
    }
    SettledAt(polls, seenAt, timeout, k);
    r, killed := Ok(StillWaiting), !cnnProc.running;
  }

  /** `FirstSettled` is the first poll that settles. */
  lemma SettledAt(polls: seq<Poll>, seenAt: int, timeout: int, k: nat)
    requires k <= |polls|
    requires forall j :: 0 <= j < k ==> !Settled(polls[j], seenAt, timeout)
    requires k < |polls| ==> Settled(polls[k], seenAt, timeout)
    ensures FirstSettled(polls, seenAt, timeout) == k
  {
  }

  // ---------------------------------------------------------------------------
  // Properties

  /** Rows are returned only once a poll has seen the header and a row, and
      every earlier poll saw neither a row nor an expired timeout. */
  lemma ClassifiedNeedsRow(initial: seq<string>, listings: seq<seq<string>>, seenAt: int, polls: seq<Poll>,
                           rows: seq<Row>, minPackets: int, threshold: real, timeout: int)
    requires AskSpec(initial, listings, seenAt, polls, rows, minPackets, threshold, timeout).Ok?
    requires AskSpec(initial, listings, seenAt, polls, rows, minPackets, threshold, timeout).value.Classified?
    ensures var a := AskSpec(initial, listings, seenAt, polls, rows, minPackets, threshold, timeout).value;
      && (exists j :: 0 <= j < |polls| && polls[j].lineCount > 1
                      && (forall m :: 0 <= m < j ==> polls[m].lineCount <= 1 && polls[m].clock - seenAt <= timeout))
      && a.rows == rows && rows != [] && a.verdict == Decide(rows[0], minPackets, threshold)
  {
    var j := FirstSettled(polls, seenAt, timeout);
    assert polls[j].lineCount > 1;
  }

  /** The empty answer comes only from a poll that saw no row when more than
      `timeout` seconds had passed since the file was first seen. */
  lemma TimedOutOnlyAfterLimit(initial: seq<string>, listings: seq<seq<string>>, seenAt: int, polls: seq<Poll>,
                               rows: seq<Row>, minPackets: int, threshold: real, timeout: int)
    requires var r := AskSpec(initial, listings, seenAt, polls, rows, minPackets, threshold, timeout);
      r.Ok? && r.value.TimedOut?
    ensures exists j :: 0 <= j < |polls| && polls[j].lineCount <= 1 && polls[j].clock - seenAt > timeout
                  && (forall m :: 0 <= m < j ==> polls[m].lineCount <= 1 && polls[m].clock - seenAt <= timeout)
  {
    var j := FirstSettled(polls, seenAt, timeout);
    assert polls[j].lineCount <= 1;
  }

  /** A poll that sees a row wins over an expired timeout on the same poll. */
  lemma RowWinsOverTimeout(initial: seq<string>, listings: seq<seq<string>>, seenAt: int, polls: seq<Poll>,
                           rows: seq<Row>, minPackets: int, threshold: real, timeout: int, j: nat)
    requires FirstNew(initial, listings) < |listings| && |NewFiles(listings[FirstNew(initial, listings)], initial)| == 1
    requires j < |polls| && polls[j].lineCount > 1 && polls[j].clock - seenAt > timeout
    requires forall m :: 0 <= m < j ==> !Settled(polls[m], seenAt, timeout)
    ensures var r := AskSpec(initial, listings, seenAt, polls, rows, minPackets, threshold, timeout);
      r == (if rows == [] then Err(IndexError)
            else Ok(Classified(NewFile(listings[FirstNew(initial, listings)], initial), rows, Decide(rows[0], minPackets, threshold))))
  {
    SettledAt(polls, seenAt, timeout, j);
  }

  /** More than one new file at once fails the unpacking (an exit `Kills`
      does not count, so the classifier is left running). */
  lemma TooManyNewFiles(initial: seq<string>, listings: seq<seq<string>>, seenAt: int, polls: seq<Poll>,
                        rows: seq<Row>, minPackets: int, threshold: real, timeout: int, i: nat, f: string, g: string)
    requires i < |listings| && forall j :: 0 <= j < i ==> NewFiles(listings[j], initial) == {}
    requires f != g && f in listings[i] && g in listings[i] && f !in initial && g !in initial
    ensures AskSpec(initial, listings, seenAt, polls, rows, minPackets, threshold, timeout) == Err(ValueError)
  {
    var first := FirstNew(initial, listings);
    assert f in NewFiles(listings[i], initial);
    assert first == i;
    assert {f, g} <= NewFiles(listings[i], initial);
    assert |{f, g}| == 2;
    SubsetCard({f, g}, NewFiles(listings[i], initial));
  }

  lemma SubsetCard(a: set<string>, b: set<string>)
    requires a <= b
    ensures |a| <= |b|
  {
    assert b == a + (b - a);
  }

  /** The new file is a name of the listing that the first listing lacked,
      which is how a file already in the directory is never taken for the
      result. */
  lemma ResultFileIsNew(initial: seq<string>, listings: seq<seq<string>>, seenAt: int, polls: seq<Poll>,
                        rows: seq<Row>, minPackets: int, threshold: real, timeout: int)
    requires var r := AskSpec(initial, listings, seenAt, polls, rows, minPackets, threshold, timeout);
      r.Ok? && (r.value.Classified? || r.value.TimedOut?)
    ensures var f := AskSpec(initial, listings, seenAt, polls, rows, minPackets, threshold, timeout).value.file;
      f !in initial && exists i :: 0 <= i < |listings| && f in listings[i]
  {
    var i := FirstNew(initial, listings);
    assert NewFile(listings[i], initial) in listings[i];
  }

  /** The verdict only decides what is logged: the rows `ask` returns do not
      depend on the packet minimum or the threshold. */
  lemma RowsIgnoreVerdict(initial: seq<string>, listings: seq<seq<string>>, seenAt: int, polls: seq<Poll>,
                          rows: seq<Row>, timeout: int, min1: int, thr1: real, min2: int, thr2: real)
    ensures var r1 := AskSpec(initial, listings, seenAt, polls, rows, min1, thr1, timeout);
            var r2 := AskSpec(initial, listings, seenAt, polls, rows, min2, thr2, timeout);
      r1.Ok? == r2.Ok? && (r1.Ok? ==> ReturnedRows(r1.value) == ReturnedRows(r2.value))
  {
  }

  /** The classifier is killed on both ways out of the inner loop. */
  lemma KilledOnBothExits(initial: seq<string>, listings: seq<seq<string>>, seenAt: int, polls: seq<Poll>,
                          rows: seq<Row>, minPackets: int, threshold: real, timeout: int)
    requires var r := AskSpec(initial, listings, seenAt, polls, rows, minPackets, threshold, timeout);
      FirstNew(initial, listings) < |listings| && r != Err(ValueError) && FirstSettled(polls, seenAt, timeout) < |polls|
    ensures Kills(AskSpec(initial, listings, seenAt, polls, rows, minPackets, threshold, timeout))
  {
  }
}
