/** `merge_capture_files`: pick the capture segments out of the capture
    directory, sort them by name, trim them to the newest
    `max_pcaps_to_merge`, and run `mergecap -w <dir>/merged.pcap <inputs>`. */
module Merger {
  import opened Wrappers
  import opened Seqs
  import opened Strings
  import opened Sorting
  import Paths
  import Remover

  /** `const.PCAP_FILENAME`, the prefix of every capture segment. */
  const CaptureName: string := "mycapture"
  /** `const.MERGED_PCAP_FILENAME`. */
  const MergedName: string := "merged"
  /** The snapshot's file name, `f"{MERGED_PCAP_FILENAME}.pcap"`. */
  const MergedFile: string := MergedName + ".pcap"

  datatype MergeError =
    | ListingFailed(path: string)                         // `os.listdir` of a missing directory
    | CalledProcessError(returnCode: int, cmd: seq<string>) // `check_call` on a non-zero exit
    | RuntimeError(mergecap: string)                      // the snapshot is not there afterwards

  /** `[f for f in listing if f.startswith(PCAP_FILENAME)]`. */
  function Captures(listing: seq<string>): (r: seq<string>)
    ensures |r| <= |listing|
  {
    if listing == [] then []
    else (if StartsWith(listing[0], CaptureName) then [listing[0]] else []) + Captures(listing[1..])
  }

  /** The sorted candidates, before the trim. */
  function Candidates(listing: seq<string>): seq<string> {
    Sort(Captures(listing))
  }

  /** The segments handed to `mergecap`: what `remove_excess_pcaps` returns in
      "remaining" mode for the sorted candidates. */
  function MergeInputs(listing: seq<string>, k: int): seq<string> {
    Minus(Candidates(listing), Remover.Excess(Candidates(listing), k))
  }

  /** The directory listing after the trim. */
  function TrimmedListing(listing: seq<string>, k: int): seq<string> {
    Minus(listing, Remover.Excess(Candidates(listing), k))
  }

  /** The argument vector of the `mergecap` call. */
  function MergeCommand(mergecap: string, dir: string, inputs: seq<string>): (cmd: seq<string>)
    ensures |cmd| == 3 + |inputs|
  {
    [mergecap, "-w", Paths.Join(dir, MergedFile)]
      + seq(|inputs|, i requires 0 <= i < |inputs| => Paths.Join(dir, inputs[i]))
  }

  /** The listing after `mergecap` ran: the snapshot is there if it wrote it. */
  function Written(listing: seq<string>, wrote: bool): seq<string> {
    if wrote && MergedFile !in listing then listing + [MergedFile] else listing
  }

  /** `merge_capture_files()`. The merge tool is an oracle: `exitCode` is what
      it returns and `wrote` says whether it wrote the snapshot. */
  method MergeCaptureFiles(d: Remover.PcapDir, k: int, mergecap: string, exitCode: int, wrote: bool)
    returns (cmd: seq<string>, r: Result<string, MergeError>)
    requires d.Valid()
    modifies d
    ensures d.Valid() && d.present == old(d.present)
    ensures !d.present ==> r == Err(ListingFailed(d.path)) && d.files == old(d.files)
    ensures d.present ==> cmd == MergeCommand(mergecap, d.path, MergeInputs(old(d.files), k))
    ensures d.present ==> d.files == Written(TrimmedListing(old(d.files), k), wrote)
    ensures d.present ==> r == (if exitCode != 0 then Err(CalledProcessError(exitCode, cmd))
                                else if MergedFile in d.files then Ok(Paths.Join(d.path, MergedFile))
                                else Err(RuntimeError(mergecap)))
  {
    cmd := [];
    if !d.present {
      return cmd, Err(ListingFailed(d.path));
    }
    var captureFiles := TrimCandidates(d, k);
    var mergedFilePath := Paths.Join(d.path, MergedFile);
    cmd := [mergecap, "-w", mergedFilePath]
      + seq(|captureFiles|, i requires 0 <= i < |captureFiles| => Paths.Join(d.path, captureFiles[i]));
    if wrote {
      d.Write(MergedFile);
    }
    if exitCode != 0 {
      return cmd, Err(CalledProcessError(exitCode, cmd));
    }
    if MergedFile in d.files {
      r := Ok(mergedFilePath);
    } else {
      r := Err(RuntimeError(mergecap));
    }
  }

  /** The first half of `merge_capture_files`: list, filter by prefix, sort
      in place, and trim via `remove_excess_pcaps(..., "remaining")`. */
  method TrimCandidates(d: Remover.PcapDir, k: int) returns (captureFiles: seq<string>)
    requires d.Valid() && d.present
    modifies d
    ensures d.Valid() && d.present
    ensures captureFiles == MergeInputs(old(d.files), k)
    ensures d.files == TrimmedListing(old(d.files), k)
  {
    var listing := d.files;
    captureFiles := Captures(listing);
    captureFiles := Sort(captureFiles);
    ghost var doomed := Remover.Excess(captureFiles, k);
    CandidatesDeletable(listing, k);
    assert doomed[..|doomed|] == doomed;
    var trimmed := d.RemoveExcess(captureFiles, Remover.RemainingMode, k);
    assert trimmed == Ok(MergeInputs(listing, k));
    captureFiles := trimmed.value;
  }

  // ---------------------------------------------------------------------------
  // Properties

  lemma {:induction false} CapturesMember(listing: seq<string>, x: string)
    ensures x in Captures(listing) <==> x in listing && StartsWith(x, CaptureName)
  {
    if listing != [] {
      CapturesMember(listing[1..], x);
      assert listing == [listing[0]] + listing[1..];
    }
  }

  lemma {:induction false} CapturesDistinct(listing: seq<string>)
    requires Distinct(listing)
    ensures Distinct(Captures(listing))
  {
    if listing != [] {
      CapturesDistinct(listing[1..]);
      CapturesMember(listing[1..], listing[0]);
      assert listing[0] !in listing[1..] by {
        forall i | 0 <= i < |listing| - 1 ensures listing[1..][i] != listing[0] {
          assert listing[1..][i] == listing[i + 1];
        }
      }
    }
  }

  /** The candidates are exactly the listed names with the capture prefix,
      each once, in ascending order. */
  lemma CandidatesAreSortedCaptures(listing: seq<string>)
    requires Distinct(listing)
    ensures Distinct(Candidates(listing))
    ensures Sorted(Candidates(listing))
    ensures forall x :: x in Candidates(listing) <==> x in listing && StartsWith(x, CaptureName)
  {
    CapturesDistinct(listing);
    SortKeepsDistinct(Captures(listing));
    forall x ensures x in Candidates(listing) <==> x in listing && StartsWith(x, CaptureName) {
      CapturesMember(listing, x);
      assert x in Candidates(listing) <==> x in multiset(Candidates(listing));
      assert x in Captures(listing) <==> x in multiset(Captures(listing));
    }
  }

  /** The trim only deletes files that are listed, each once, so it never fails. */
  lemma CandidatesDeletable(listing: seq<string>, k: int)
    requires Distinct(listing)
    ensures Remover.Deletable(listing, Remover.Excess(Candidates(listing), k)) == |Remover.Excess(Candidates(listing), k)|
  {
    CandidatesAreSortedCaptures(listing);
    var c := Candidates(listing);
    var doomed := Remover.Excess(c, k);
    assert doomed == c[..|doomed|];
    forall i | 0 <= i < |doomed| ensures doomed[i] in listing {
      assert doomed[i] == c[i];
    }
    Remover.AllDeletable(listing, doomed);
  }

  /** With `k >= 1` at most `k` segments are merged, all of them capture
      segments, and they are the lexicographically greatest candidates: every
      candidate left out sorts before every one merged. */
  lemma {:induction false} InputsAreGreatestCaptures(listing: seq<string>, k: int)
    requires Distinct(listing) && k >= 1
    ensures |MergeInputs(listing, k)| <= k
    ensures forall x :: x in MergeInputs(listing, k) ==> x in listing && StartsWith(x, CaptureName)
    ensures Sorted(MergeInputs(listing, k))
    ensures forall x, y :: x in Candidates(listing) && x !in MergeInputs(listing, k) && y in MergeInputs(listing, k) ==> Less(x, y)
  {
    CandidatesAreSortedCaptures(listing);
    var c := Candidates(listing);
    var m := |Remover.Excess(c, k)|;
    Remover.TrimKeepsNewest(c, k);
    assert MergeInputs(listing, k) == c[m..];
    SuffixAboveRest(c, m);
  }

  /** In an ascending list without repetitions, every element outside a
      suffix sorts before every element of it. */
  lemma SuffixAboveRest(c: seq<string>, m: nat)
    requires Sorted(c) && Distinct(c) && m <= |c|
    ensures forall x, y :: x in c && x !in c[m..] && y in c[m..] ==> Less(x, y)
  {
    SortedDistinctAscending(c);
    forall x, y | x in c && x !in c[m..] && y in c[m..] ensures Less(x, y) {
      var i :| 0 <= i < |c| && c[i] == x;
      var j :| 0 <= j < |c| - m && c[m..][j] == y;
      assert c[m + j] == y;
    }
  }

  /** The snapshot is never one of its own inputs. */
  lemma SnapshotNotAnInput(listing: seq<string>, k: int)
    ensures MergedFile !in MergeInputs(listing, k)
  {
    assert !StartsWith(MergedFile, CaptureName) by {
      assert MergedFile[1] != CaptureName[1];
    }
    CapturesMember(listing, MergedFile);
    var captures := Captures(listing);
    assert MergedFile !in multiset(captures);
    var c := Candidates(listing);
    assert MergedFile !in c by {
      assert multiset(c) == multiset(captures);
    }
    MinusMember(c, Remover.Excess(c, k), MergedFile);
  }

  /** The trim deletes capture segments only: every listed file without the
      capture prefix survives it, and so does every merged input. */
  lemma {:induction false} TrimSparesOtherFiles(listing: seq<string>, k: int)
    requires Distinct(listing)
    ensures forall f :: f in listing && !StartsWith(f, CaptureName) ==> f in TrimmedListing(listing, k)
    ensures forall f :: f in MergeInputs(listing, k) ==> f in TrimmedListing(listing, k)
  {
    CandidatesAreSortedCaptures(listing);
    var c := Candidates(listing);
    var doomed := Remover.Excess(c, k);
    assert doomed == c[..|doomed|];
    forall f | f in listing && !StartsWith(f, CaptureName) ensures f in TrimmedListing(listing, k) {
      MinusMember(listing, doomed, f);
    }
    forall f | f in MergeInputs(listing, k) ensures f in TrimmedListing(listing, k) {
      MinusMember(c, doomed, f);
      MinusMember(listing, doomed, f);
    }
  }

  /** The argument vector: the tool, `-w`, the snapshot path, then each
      input joined onto the capture directory, in input order; a plain file
      name is recovered from its path as the base name. */
  lemma MergeCommandShape(mergecap: string, dir: string, inputs: seq<string>)
    ensures var cmd := MergeCommand(mergecap, dir, inputs);
      && cmd[..3] == [mergecap, "-w", Paths.Join(dir, MergedFile)]
      && (forall i :: 0 <= i < |inputs| ==> cmd[3 + i] == Paths.Join(dir, inputs[i]))
      && (forall i :: 0 <= i < |inputs| && '/' !in inputs[i] ==> Paths.Basename(cmd[3 + i]) == inputs[i])
  {
    var cmd := MergeCommand(mergecap, dir, inputs);
    forall i | 0 <= i < |inputs| && '/' !in inputs[i] ensures Paths.Basename(cmd[3 + i]) == inputs[i] {
      Paths.BasenameOfJoin(dir, inputs[i]);
    }
  }

  /** Two captures with `max_pcaps_to_merge == 1`: the one whose name sorts
      last (`hi`) is the merge input and stays, the other is trimmed, and
      the snapshot is not either of them. */
  lemma TrimOfTwo(a: string, b: string, lo: string, hi: string)
    requires StartsWith(a, CaptureName) && StartsWith(b, CaptureName)
    requires Less(lo, hi) && ((lo, hi) == (a, b) || (lo, hi) == (b, a))
    ensures MergeInputs([a, b], 1) == [hi] && TrimmedListing([a, b], 1) == [hi]
    ensures lo != MergedFile && hi != MergedFile
  {
    CandidatesOfTwo(a, b, lo, hi);
    var candidates := [lo, hi];
    assert Remover.Excess(candidates, 1) == [lo];
    LessIrreflexive(lo);
    MinusOfTwo(lo, hi, candidates);
    MinusOfTwo(lo, hi, [a, b]);
    SnapshotNotCapture(a);
    SnapshotNotCapture(b);
  }

  lemma CandidatesOfTwo(a: string, b: string, lo: string, hi: string)
    requires StartsWith(a, CaptureName) && StartsWith(b, CaptureName)
    requires Less(lo, hi) && ((lo, hi) == (a, b) || (lo, hi) == (b, a))
    ensures Candidates([a, b]) == [lo, hi]
  {
    CapturesOfTwo(a, b);
    SortTwo(lo, hi, [a, b]);
  }

  /** The snapshot's name does not carry the capture prefix. */
  lemma SnapshotNotCapture(x: string)
    requires StartsWith(x, CaptureName)
    ensures x != MergedFile
  {
    assert x[1] == CaptureName[1] == 'y';
    assert MergedFile[1] == 'e';
  }

  lemma CapturesOfTwo(a: string, b: string)
    requires StartsWith(a, CaptureName) && StartsWith(b, CaptureName)
    ensures Captures([a, b]) == [a, b]
  {
    assert [a, b][1..] == [b] && [b][1..] == [];
  }

  lemma MinusOfTwo(lo: string, hi: string, s: seq<string>)
    requires lo != hi && (s == [lo, hi] || s == [hi, lo])
    ensures Minus(s, [lo]) == [hi]
  {
    assert s[1..][1..] == [];
  }
}
