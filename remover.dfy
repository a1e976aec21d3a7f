/** The capture directory and the two ways segments leave it:
    `remove_excess_pcaps` (trim to the newest `max_pcaps_to_merge`) and
    `remove_all_pcaps` (purge everything but a list of exceptions). */
module Remover {
  import opened Wrappers
  import opened Seqs
  import Paths

  const RemovedMode: string := "removed"
  const RemainingMode: string := "remaining"

  datatype Error =
    | ValueError(returnMode: string)   // an unknown `return_mode`
    | FileNotFound(path: string)       // `os.remove` of a path that is not there

  predicate ValidMode(returnMode: string) {
    returnMode == RemovedMode || returnMode == RemainingMode
  }

  /** A directory entry as `os.listdir` reports it: a non-empty name. */
  predicate IsEntryName(n: string) {
    n != [] && '/' !in n
  }

  /** Python's `s[:stop]`: a negative `stop` counts from the end. */
  function SliceTo<T>(s: seq<T>, stop: int): (r: seq<T>)
    ensures |r| <= |s| && r == s[..|r|]
  {
    if stop >= 0 then s[..if stop < |s| then stop else |s|]
    else s[..if |s| + stop > 0 then |s| + stop else 0]
  }

  /** `initial_files[: -max_pcaps_to_merge]`, the files the trim deletes: the
      oldest prefix beyond the newest `k` when `k >= 1`, nothing at all when
      `k == 0` (the slice `[: -0]` is empty), and the first `-k` when `k < 0`. */
  function Excess(initial: seq<string>, k: int): (r: seq<string>)
    ensures k >= 1 ==> r == initial[..if |initial| > k then |initial| - k else 0]
    ensures k == 0 ==> r == []
    ensures k < 0 ==> r == initial[..if -k < |initial| then -k else |initial|]
  {
    SliceTo(initial, -k)
  }

  /** How many of `doomed` can be deleted, in order, before `os.remove` meets a
      name that is not (or no longer) in the directory. */
  function Deletable(dir: seq<string>, doomed: seq<string>): (n: nat)
    ensures n <= |doomed|
    ensures forall i :: 0 <= i < n ==> doomed[i] in dir
    ensures forall i, j :: 0 <= j < i < n ==> doomed[j] != doomed[i]
    ensures n < |doomed| ==> doomed[n] !in dir || doomed[n] in doomed[..n]
  {
    if doomed == [] then 0
    else
      var last := |doomed| - 1;
      var init := doomed[..last];
      var m := Deletable(dir, init);
      assert forall i :: 0 <= i < last ==> init[i] == doomed[i];
      if m < last then
        assert init[..m] == doomed[..m];
        m
      else if doomed[last] in dir && doomed[last] !in init then
        assert forall j :: 0 <= j < last ==> doomed[j] != doomed[last] by {
          forall j | 0 <= j < last ensures doomed[j] != doomed[last] {
            assert init[j] == doomed[j];
          }
        }
        |doomed|
      else last
  }

  /** `[os.path.basename(item) for item in exceptions]`. */
  function Basenames(exceptions: seq<string>): (r: seq<string>)
    ensures |r| == |exceptions|
    ensures forall i :: 0 <= i < |r| ==> r[i] == Paths.Basename(exceptions[i])
  {
    seq(|exceptions|, i requires 0 <= i < |exceptions| => Paths.Basename(exceptions[i]))
  }

  class PcapDir {
    /** `const.PCAP_DIR`. */
    const path: string
    /** Whether the directory exists (`os.path.exists(PCAP_DIR)`). */
    var present: bool
    /** `os.listdir(PCAP_DIR)`. */
    var files: seq<string>

    ghost predicate Valid()
      reads this
    {
      && Distinct(files)
      && (forall i :: 0 <= i < |files| ==> IsEntryName(files[i]))
      && (!present ==> files == [])
    }

    constructor (path: string, present: bool, files: seq<string>)
      requires Distinct(files) && forall i :: 0 <= i < |files| ==> IsEntryName(files[i])
      requires !present ==> files == []
      ensures Valid()
      ensures this.path == path && this.present == present && this.files == files
    {
      this.path := path;
      this.present := present;
      this.files := files;
    }

    /** `os.makedirs(PCAP_DIR)` when it is missing. */
    method Create()
      requires Valid()
      modifies this
      ensures Valid() && present && files == old(files)
    {
      present := true;
    }

    /** A capture tool writing the file `name` into the directory. */
    method Write(name: string)
      requires Valid() && present && IsEntryName(name)
      modifies this
      ensures Valid() && present
      ensures files == if name in old(files) then old(files) else old(files) + [name]
    {
      if name !in files {
        files := files + [name];
      }
    }

    /** `os.remove(os.path.join(PCAP_DIR, name))`. */
    method Delete(name: string) returns (r: Result<(), Error>)
      requires Valid()
      modifies this
      ensures Valid() && present == old(present)
      ensures name in old(files) ==> r == Ok(()) && files == Minus(old(files), [name])
      ensures name !in old(files) ==> r == Err(FileNotFound(Paths.Join(path, name))) && files == old(files)
    {
      if name in files {
        var rest := Minus(files, [name]);
        MinusDistinct(files, [name]);
        forall i | 0 <= i < |rest| ensures IsEntryName(rest[i]) {
          MinusMember(files, [name], rest[i]);
        }
        files := rest;
        r := Ok(());
      } else {
        r := Err(FileNotFound(Paths.Join(path, name)));
      }
    }

    /** `remove_excess_pcaps(initial, return_mode)` with `max_pcaps_to_merge == k`.
        An unknown mode raises before anything is deleted; otherwise the files
        of `Excess(initial, k)` are deleted in order until one is missing. */
    method RemoveExcess(initial: seq<string>, returnMode: string, k: int)
      returns (r: Result<seq<string>, Error>)
      requires Valid()
      modifies this
      ensures Valid() && present == old(present)
      ensures !ValidMode(returnMode) ==> r == Err(ValueError(returnMode)) && files == old(files)
      ensures ValidMode(returnMode) ==>
        var doomed := Excess(initial, k);
        var n := Deletable(old(files), doomed);
        && files == Minus(old(files), doomed[..n])
        && r == if n < |doomed| then Err(FileNotFound(Paths.Join(path, doomed[n])))
                else if returnMode == RemovedMode then Ok(doomed)
                else Ok(Minus(initial, doomed))
    {
      if !ValidMode(returnMode) {
        return Err(ValueError(returnMode));
      }
      var doomed := Excess(initial, k);
      ghost var n := Deletable(old(files), doomed);
      var removed: seq<string> := [];
      var i := 0;
      MinusNoneOut(files, doomed[..0]);
      while i < |doomed|
        invariant 0 <= i <= n
        invariant Valid() && present == old(present)
        invariant removed == doomed[..i]
        invariant files == Minus(old(files), doomed[..i])
      {
        removed := removed + [doomed[i]];
        DeletableAt(old(files), doomed, i);
        ExcessStep(old(files), doomed, i);
        var d := Delete(doomed[i]);
        if d.Err? {
          assert i == n && d.error == FileNotFound(Paths.Join(path, doomed[n]));
          return Err(d.error);
        }
        i := i + 1;
      }
      assert n == |doomed| && removed == doomed[..n] == doomed;
      r := if returnMode == RemovedMode then Ok(removed) else Ok(Minus(initial, removed));
    }

    /** `remove_all_pcaps(exceptions, return_mode)`: every listed file whose
        base name is not the base name of an exception is deleted. */
    method RemoveAll(exceptions: seq<string>, returnMode: string)
      returns (r: Result<seq<string>, Error>)
      requires Valid()
      modifies this
      ensures Valid() && present == old(present)
      ensures !ValidMode(returnMode) ==> r == Err(ValueError(returnMode)) && files == old(files)
      ensures ValidMode(returnMode) && !present ==> r == Ok([]) && files == old(files)
      ensures ValidMode(returnMode) && present ==>
        var kept := Basenames(exceptions);
        && files == Keep(old(files), kept)
        && r == Ok(if returnMode == RemovedMode then Minus(old(files), kept) else Keep(old(files), kept))
    {
      if !ValidMode(returnMode) {
        return Err(ValueError(returnMode));
      }
      if !present {
        return Ok([]);
      }
      var kept := Basenames(exceptions);
      var initial := files;
      var removed: seq<string> := [];
      var i := 0;
      MinusNoneOut(initial, removed);
      while i < |initial|
        invariant 0 <= i <= |initial|
        invariant Valid() && present
        invariant removed == Minus(initial[..i], kept)
        invariant files == Minus(initial, removed)
      {
        var pcapFile := initial[i];
        RemoveAllStep(initial, kept, i, removed);
        if Paths.Basename(pcapFile) !in kept {
          removed := removed + [pcapFile];
          var _ := Delete(pcapFile);
          assert files == Minus(initial, removed);
        }
        assert removed == Minus(initial[..i + 1], kept);
        i := i + 1;
      }
      assert initial[..|initial|] == initial;
      assert removed == Minus(initial, kept);
      MinusOfMinus(initial, kept);
      assert files == Keep(initial, kept);
      r := if returnMode == RemovedMode then Ok(removed) else Ok(Minus(initial, removed));
    }
  }

  /** One turn of the loop of `remove_excess_pcaps`: the file it deletes is
      still in the directory exactly when it was there at the start and was
      not deleted before, and deleting it extends the prefix deleted by one. */
  lemma ExcessStep(dir: seq<string>, doomed: seq<string>, i: nat)
    requires i < |doomed|
    ensures doomed[i] in Minus(dir, doomed[..i]) <==> doomed[i] in dir && doomed[i] !in doomed[..i]
    ensures doomed[..i + 1] == doomed[..i] + [doomed[i]]
    ensures Minus(Minus(dir, doomed[..i]), [doomed[i]]) == Minus(dir, doomed[..i + 1])
  {
    MinusMember(dir, doomed[..i], doomed[i]);
    MinusAppend(dir, doomed[..i], doomed[i]);
    assert doomed[..i + 1] == doomed[..i] + [doomed[i]];
  }

  /** The deletions up to `i` succeed; the next one does exactly when its
      file was there at the start and is not one deleted before. */
  lemma DeletableAt(dir: seq<string>, doomed: seq<string>, i: nat)
    requires i <= Deletable(dir, doomed) && i < |doomed|
    ensures i < Deletable(dir, doomed) <==> doomed[i] in dir && doomed[i] !in doomed[..i]
  {
    if i < Deletable(dir, doomed) {
      forall j | 0 <= j < i ensures doomed[..i][j] != doomed[i] {
      }
    }
  }

  /** One turn of the loop of `remove_all_pcaps`: the file it looks at is
      still in the directory, and deleting it extends the filter by one. */
  lemma RemoveAllStep(initial: seq<string>, kept: seq<string>, i: nat, removed: seq<string>)
    requires Distinct(initial) && i < |initial| && '/' !in initial[i]
    requires removed == Minus(initial[..i], kept)
    ensures initial[i] in Minus(initial, removed)
    ensures Minus(initial[..i + 1], kept) ==
      removed + (if Paths.Basename(initial[i]) in kept then [] else [initial[i]])
    ensures Minus(Minus(initial, removed), [initial[i]]) == Minus(initial, removed + [initial[i]])
  {
    var x, before := initial[i], initial[..i];
    assert x !in removed by {
      NotInOwnPrefix(initial, i);
      MinusMember(before, kept, x);
    }
    MinusMember(initial, removed, x);
    assert Minus(initial[..i + 1], kept) == removed + Minus([x], kept) by {
      assert initial[..i + 1] == before + [x];
      MinusSplit(before, [x], kept);
    }
    Paths.BasenameOfName(x);
    MinusSingle(x, kept);
    MinusAppend(initial, removed, x);
  }

  lemma MinusSingle(x: string, xs: seq<string>)
    ensures Minus([x], xs) == if x in xs then [] else [x]
  {
    assert [x][1..] == [];
  }

  lemma NotInOwnPrefix(s: seq<string>, i: nat)
    requires Distinct(s) && i < |s|
    ensures s[i] !in s[..i]
  {
  }

  // ---------------------------------------------------------------------------
  // Properties of the trim

  /** With `k >= 1` the survivors of a trim of a list without repetitions are
      its newest `k` entries (all of them when there are at most `k`), in
      their original order. */
  lemma {:induction false} TrimKeepsNewest(initial: seq<string>, k: int)
    requires k >= 1 && Distinct(initial)
    ensures var survivors := Minus(initial, Excess(initial, k));
      && survivors == initial[|Excess(initial, k)|..]
      && |survivors| == (if |initial| < k then |initial| else k)
  {
    var m := |Excess(initial, k)|;
    assert Excess(initial, k) == initial[..m];
    MinusOwnPrefix(initial, m);
  }

  /** Removed and remaining files partition the input list. */
  lemma {:induction false} TrimPartitions(initial: seq<string>, k: int)
    requires Distinct(initial)
    ensures multiset(Excess(initial, k)) + multiset(Minus(initial, Excess(initial, k))) == multiset(initial)
  {
    var m := |Excess(initial, k)|;
    assert Excess(initial, k) == initial[..m];
    MinusOwnPrefix(initial, m);
    assert initial == initial[..m] + initial[m..];
  }

  /** Deleting distinct files that are all present never fails. */
  lemma {:induction false} AllDeletable(dir: seq<string>, doomed: seq<string>)
    requires Distinct(doomed) && forall i :: 0 <= i < |doomed| ==> doomed[i] in dir
    ensures Deletable(dir, doomed) == |doomed|
  {
    var n := Deletable(dir, doomed);
    if n < |doomed| {
      assert false;
    }
  }
}
