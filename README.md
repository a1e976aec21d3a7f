# DoS attack detection: the capture, snapshot and verdict pipeline

This project models the detector of *dos-attack-detection-via-deep-learning* in Dafny and proves properties of the model. The detector does five things:

- It captures traffic one packet per segment file (`mycapture_<timestamp>.pcap`).
- It keeps a bounded window of segments and merges them into one snapshot (`merged.pcap`).
- It hands the snapshot to the LUCID classifier and polls for its CSV result.
- When the verdict rests on enough packets, it names the most frequent non-local sender as the suspect. It then logs the suspect and notifies about it.
- It offers small helpers around this loop: settings coercion, an allow-list file, a readable IP record, a firewall command and a log-level mapping.

External programs and services become inputs of the model:

- `tshark`, `mergecap`, `hostname`/`ipconfig`, the classifier process, `iptables`/`netsh` and the clock;
- the listings, line counts and rows the detector observes.

Given those inputs, every step is deterministic. The modules follow the source files:

| module | source file | form |
|---|---|---|
| `Remover` | `pcap/remover.py` | class `PcapDir` (the capture directory) with `RemoveExcess` and `RemoveAll` as loops |
| `Merger` | `pcap/merger.py` | prefix filter and sort as functions; the trim and the merge as a method on the directory |
| `Analyzer` | `pcap/analyzer.py` | sender extraction as functions; `SenderFile.Save` writes the JSON payload |
| `Counting` | `collections.Counter.most_common` | functions and lemmas |
| `Neural` | `neural.py` | `Ask`, a method with the two polling loops, proved against `AskSpec` |
| `Aio` | `pcap/aio.py` | class `Supervisor` running the loop, proved against `StepSpec` and `RunSpec`; segment naming |
| `Whitelist` | `ip/whitelist.py` | class `WhitelistFile` with `Add`, `Remove` and `Check` |
| `Settings`, `DetectApi` | `main.py` | settings coercion; the top-n sender endpoint |
| `Info`, `Blocker`, `Logger` | `ip/info.py`, `ip/blocker.py`, `util/logger.py` | functions; `Block` as a method |
| `Strings`, `Sorting`, `Digits`, `Json`, `Paths`, `Seqs` | Python's `str`, `sorted`, `int`/`str`, `json`, `os.path` and list comprehensions | functions and lemmas |

Python's exceptions become `Err` outcomes:

- `ValueError`, `IndexError`, `FileNotFoundError`, `CalledProcessError` and `RuntimeError`;
- a loop that ends on an uncaught exception is `Crashed`.

## Model

| member | source | states |
|---|---|---|
| Remover.SliceTo | detector/src/pcap/remover.py:40 | Python's `s[:stop]` is a prefix of `s` |
| Remover.Excess | detector/src/pcap/remover.py:40 | `initial[:-k]`: for `k >= 1`, all but the last `k` files; for `k == 0` nothing (`[:-0]` is empty); for negative `k`, the first `-k` files |
| Remover.Deletable | detector/src/pcap/remover.py:45-47 | how many files the delete loop gets through: each one deleted was present and not deleted before; the next one is missing or a repeat, which makes `os.remove` raise |
| Remover.Basenames | detector/src/pcap/remover.py:105 | the exceptions reduced to their base names, one per exception, in order |
| Remover.PcapDir.constructor | detector/src/pcap/remover.py:100-109 | a directory, present or missing, listing distinct non-empty names; a missing one lists nothing |
| Remover.PcapDir.Create | detector/src/pcap/aio.py:47-48 | `os.makedirs` makes the directory present and keeps its listing |
| Remover.PcapDir.Write | detector/src/pcap/aio.py:70-76 | the capture adds its output file to the listing unless it is already there |
| Remover.PcapDir.Delete | detector/src/pcap/remover.py:47 | `os.remove` of a listed file drops it; an unlisted one raises `FileNotFoundError` and changes nothing |
| Remover.PcapDir.RemoveExcess | detector/src/pcap/remover.py:33-59 | a bad `return_mode` raises `ValueError` before any deletion. Otherwise the oldest files are deleted in order up to the first failing `os.remove`, which raises with the directory changed up to that point. It returns the removed list or the input without them |
| Remover.PcapDir.RemoveAll | detector/src/pcap/remover.py:94-128 | a bad mode raises first; a missing directory gives `[]` and no change. Otherwise exactly the files whose base name is among the exceptions' base names remain, and it returns the others (removed) or those (remaining) |
| Remover.TrimKeepsNewest | detector/src/pcap/remover.py:40-59 | for `k >= 1` and distinct names the survivors are the newest files, a suffix of `min(k, n)` entries |
| Remover.TrimPartitions | detector/src/pcap/remover.py:55-59 | removed and remaining files together are exactly the input (as multisets) |
| Remover.AllDeletable | detector/src/pcap/remover.py:45-47 | deleting distinct files that are all listed never raises |
| Paths.Basename | detector/src/pcap/remover.py:105 | `os.path.basename` holds no '/' |
| Paths.BasenameOfName | detector/src/pcap/remover.py:114 | a plain file name is its own base name |
| Paths.BasenameOfJoin | detector/src/pcap/aio.py:72-75 | the base name of `os.path.join(dir, name)` is `name`, so the full segment path given as an exception matches the listed name |
| Merger.Captures | detector/src/pcap/merger.py:29-31 | the prefix filter keeps no more names than the listing has |
| Merger.CapturesMember | detector/src/pcap/merger.py:29-31 | a name is a candidate exactly when it is listed and starts with `mycapture` |
| Merger.CapturesDistinct | detector/src/pcap/merger.py:29-31 | filtering a listing without repeats gives a list without repeats |
| Merger.CandidatesAreSortedCaptures | detector/src/pcap/merger.py:29-36 | the sorted candidates are ascending, without repeats, and are exactly the listed `mycapture` names |
| Merger.CandidatesDeletable | detector/src/pcap/merger.py:40 | the trim deletes only listed files, each once, so it never raises |
| Merger.InputsAreGreatestCaptures | detector/src/pcap/merger.py:36-40 | for `k >= 1` at most `k` inputs, all `mycapture` names, ascending, and every candidate left out sorts before every input |
| Merger.SnapshotNotAnInput | detector/src/pcap/merger.py:29-45 | `merged.pcap` never merges into itself |
| Merger.TrimSparesOtherFiles | detector/src/pcap/merger.py:29-40 | files without the capture prefix survive the trim, and so do the merge inputs |
| Merger.MergeCommand | detector/src/pcap/merger.py:48-64 | the argument vector has three fixed arguments plus one per input |
| Merger.MergeCommandShape | detector/src/pcap/merger.py:43-63 | the vector starts `[mergecap, "-w", join(PCAP_DIR, "merged.pcap")]`, then holds `join(PCAP_DIR, f)` for each input `f` in order; a slash-free input is the base name of its path |
| Merger.TrimOfTwo | detector/src/pcap/merger.py:29-40 | of two captures with `max_pcaps_to_merge == 1`, the one whose name sorts last is the merge input and the only capture left; neither is the snapshot |
| Merger.TrimCandidates | detector/src/pcap/merger.py:29-40 | returns the trimmed candidates and leaves the directory without the excess files |
| Merger.MergeCaptureFiles | detector/src/pcap/merger.py:12-78 | a missing directory raises on the listing. Otherwise the directory is trimmed and the exact `mergecap` vector is issued. Then: a non-zero exit raises `CalledProcessError`; a missing snapshot raises `RuntimeError`; else the result is the fixed path `PCAP_DIR/merged.pcap` |
| Analyzer.LocalIps | detector/src/pcap/analyzer.py:37-48 | a non-zero status of the address command raises `CalledProcessError` with that status. Then, on POSIX, the whitespace split of `hostname -I`'s output; on Windows, the split of the piece between the first and the second ':', and `IndexError` when there is no ':' |
| Analyzer.SenderFields | detector/src/pcap/analyzer.py:77 | one third field per line |
| Analyzer.SendersFilter | detector/src/pcap/analyzer.py:73-80 | the comprehension succeeds exactly when every line has a third field; it then gives those fields, minus the local addresses, in line order |
| Analyzer.MostCommonOneEmpty | detector/src/pcap/analyzer.py:83 | `most_common(1)` is empty exactly for an empty sender list |
| Analyzer.MostFrequentSenderSpec | detector/src/pcap/analyzer.py:37-86 | a non-zero status of the address command, or of `tshark` once the addresses are known, raises `CalledProcessError` with that status. Success exactly when the addresses parse, `tshark` exits with 0, every line has a third field and some non-local sender remains. The sender is then non-local, its count is its number of occurrences, no sender has more, and on a tie the one seen first wins |
| Analyzer.BlankCaptureFails | detector/src/pcap/analyzer.py:54-83 | when both commands exit with 0, an empty or blank packet dump splits into the one line `""`, which has no third field: `IndexError` |
| Analyzer.AllLocalFails | detector/src/pcap/analyzer.py:73-83 | when `tshark` exits with 0 and every sender is local, `most_common(1)[0]` raises `IndexError` |
| Analyzer.SenderFile.Save | detector/src/pcap/analyzer.py:112-117 | the file is truncated when opened; on success it holds `json.dumps((ip, count))`; the look-up's error leaves it empty and is raised |
| Analyzer.PayloadReadsBack | detector/src/pcap/analyzer.py:115-117 | the saved text is one line, and `json.loads(line.strip())` gives back `[ip, count]` |
| Counting.Keys | detector/src/pcap/analyzer.py:83 | the `Counter` keys: each sender once, in order of first occurrence |
| Counting.MostCommonFirst | detector/src/pcap/analyzer.py:83 | `most_common(1)[0]` of a non-empty list: a sender with its exact count, no count higher, the first seen among equals |
| Counting.MostCommonRanked | detector/src/main.py:124 | `most_common(n)` has `min(n, distinct)` entries (none for `n <= 0`), each with its exact count; ordered by count, ties by first occurrence; no omitted sender precedes a listed one |
| Counting.RankedDistinct | detector/src/main.py:124 | `most_common` lists no sender twice |
| Counting.PrecedesTotal | detector/src/pcap/analyzer.py:83 | the `most_common` order is total on distinct senders |
| Sorting.Sort | detector/src/pcap/merger.py:36 | `sort()` gives an ascending permutation |
| Sorting.SortKeepsDistinct | detector/src/pcap/merger.py:36 | sorting creates no repeats and introduces no names |
| Sorting.SortTwo | detector/src/pcap/merger.py:36 | two different names sort into ascending order, from either order |
| Sorting.LessTotal | detector/src/pcap/merger.py:36 | Python's string order is total on distinct strings |
| Sorting.LessTransitive | detector/src/pcap/merger.py:36 | Python's string order is transitive |
| Strings.Split | detector/src/pcap/analyzer.py:48 | `str.split()` yields only non-empty fields free of whitespace |
| Strings.SplitJoinSpace | detector/src/pcap/analyzer.py:48 | splitting space-joined fields gives back the fields |
| Strings.SplitStrip | detector/src/pcap/analyzer.py:38-48 | `s.strip().split() == s.split()` |
| Strings.SplitOn | detector/src/pcap/analyzer.py:66 | `s.split("\n")` has at least one piece, and no piece holds the separator |
| Strings.SplitOnJoin | detector/src/pcap/analyzer.py:66 | splitting separator-free pieces joined by the separator gives back the pieces |
| Strings.JoinSplitOn | detector/src/pcap/analyzer.py:66 | joining the pieces of a split gives back the text |
| Strings.SplitOnMany | detector/src/pcap/analyzer.py:40-42 | `s.split(":")[1]` exists exactly when ':' occurs in `s` |
| Strings.StripChars | detector/src/ip/whitelist.py:38 | `s.strip(chars)` is a slice of `s` with only stripped characters cut off either side, and it neither starts nor ends with one |
| Digits.ValueOfNatToString | detector/src/main.py:31-32 | `int(str(n)) == n` |
| Digits.NatToStringInjective | detector/src/pcap/analyzer.py:117 | different counts print differently |
| Digits.ValueOfPad | detector/src/pcap/aio.py:74 | a zero-padded field reads back as its number |
| Json.EscapeAll | detector/src/pcap/analyzer.py:117 | with `ensure_ascii` every character of a string's escaped body is printable ASCII |
| Json.Hex4RoundTrip | detector/src/pcap/aio.py:119 | the four hex digits of a `\uXXXX` escape read back as its number |
| Json.PairRoundTrip | detector/src/pcap/aio.py:119 | a character above the Basic Multilingual Plane, escaped as a surrogate pair, reads back as itself |
| Json.BmpRoundTrip | detector/src/pcap/aio.py:119 | a non-printable character of the Basic Multilingual Plane, escaped as `\uXXXX`, reads back as itself |
| Json.EscapeRoundTrip | detector/src/pcap/aio.py:119 | every backslash escape `json.dumps` writes reads back as its character |
| Json.StringRoundTrip | detector/src/pcap/aio.py:119 | an escaped string body and its closing quote read back as the string |
| Json.NatRoundTrip | detector/src/pcap/aio.py:119 | `str(n)` before a non-digit reads back as `n` |
| Json.IntRoundTrip | detector/src/pcap/aio.py:119 | `str(i)`, negative or not, before a non-digit reads back as `i` |
| Json.ValueRoundTrip | detector/src/pcap/aio.py:119 | a dumped string, integer or array followed by text that cannot extend it reads back as the value |
| Json.LoadsDumps | detector/src/pcap/aio.py:119 | `json.loads(json.dumps(v)) == v` for strings, integers and arrays of them |
| Json.DumpsPrintable | detector/src/pcap/analyzer.py:117 | every character `json.dumps` writes is printable ASCII |
| Json.DumpsIsOneStrippedLine | detector/src/pcap/aio.py:119 | the dump holds no line break and is its own strip, so `readline().strip()` reads all of it |
| Neural.Decide | detector/src/neural.py:152-171 | too few packets (`<` the minimum) is insufficient whatever the probability; otherwise danger exactly above the threshold (strict), else safe |
| Neural.NewFiles | detector/src/neural.py:99-100 | a name is new exactly when the current listing has it and the initial one does not |
| Neural.FirstNew | detector/src/neural.py:97-101 | the first listing of the outer loop that shows a new file |
| Neural.FirstSettled | detector/src/neural.py:125-185 | the first poll that sees a row or finds the wait expired |
| Neural.NewFile | detector/src/neural.py:113 | the unpacked file is one of the new files |
| Neural.ClassifierProcess.constructor | detector/src/neural.py:86-90 | the started classifier runs |
| Neural.ClassifierProcess.Kill | detector/src/neural.py:134 | `kill` stops it |
| Neural.Ask | detector/src/neural.py:55-188 | the two polling loops return what `AskSpec` says for the trace, and the classifier is killed exactly on the row exit, the timeout exit and the `rows[0]` failure |
| Neural.ClassifiedNeedsRow | detector/src/neural.py:125-172 | rows come back only after a poll with more than one line, none earlier having settled; the verdict is that of the first row |
| Neural.TimedOutOnlyAfterLimit | detector/src/neural.py:176-185 | the empty answer needs a poll without a row more than `timeout` seconds after the file was first seen |
| Neural.RowWinsOverTimeout | detector/src/neural.py:125-185 | on a poll that sees a row after the timeout, the row wins |
| Neural.TooManyNewFiles | detector/src/neural.py:113 | two new files at once raise `ValueError` at the unpacking |
| Neural.ResultFileIsNew | detector/src/neural.py:96-114 | the file read is missing from the initial listing and present in a later one |
| Neural.RowsIgnoreVerdict | detector/src/neural.py:152-172 | the minimum and the threshold do not change what `ask` returns, only what it logs |
| Neural.KilledOnBothExits | detector/src/neural.py:128-185 | once the inner loop settles, the classifier is killed on the way out |
| Aio.NameMonotone | detector/src/pcap/aio.py:74 | names built from one format compare like their first differing field |
| Aio.SameDateNamesFollowTime | detector/src/pcap/aio.py:74 | the day-first names sort in time order on one date |
| Aio.DayFirstMisorders | detector/src/pcap/aio.py:74 | the day-first name of 1 Feb 2024 sorts before that of 31 Jan 2024 |
| Aio.YearFirstNamesFollowTime | detector/src/pcap/merger.py:33-36 | year-first names sort in time order for any two valid times |
| Aio.SegmentNameShape | detector/src/pcap/aio.py:71-75 | every segment name carries the prefix the merger selects and is a valid entry name |
| Aio.ReadLine | detector/src/pcap/aio.py:119 | `readline` of a text without a line break is the whole text |
| Aio.ReadSender | detector/src/pcap/aio.py:116-119 | decoding the sender file gives back the saved `[ip, count]` |
| Aio.Supervisor.constructor | detector/src/pcap/aio.py:62 | the loop starts with `should_remove` false, no verdict, no logs and no notifications, for either name format |
| Aio.Supervisor.Capture | detector/src/pcap/aio.py:70-92 | the segment is written under the name of the configured format, the purge runs when `should_remove` is set and the flag is cleared, then trim and merge; the failure is that of `merge_capture_files` |
| Aio.Supervisor.Respond | detector/src/pcap/aio.py:103-151 | the rest of a turn once `cnn_result` is known, as `Act`: skip without a verdict or with too few packets, else act |
| Aio.Supervisor.Alert | detector/src/pcap/aio.py:115-151 | save the suspect, and raise if the look-up fails; otherwise as `Record` |
| Aio.Supervisor.Record | detector/src/pcap/aio.py:116-151 | read the sender back; log IP, probability and count; notify above the threshold; set `should_remove` |
| Aio.Supervisor.Step | detector/src/pcap/aio.py:80-151 | one packet's turn changes the directory, flags, verdict, logs, notifications and sender file exactly as `StepSpec` says |
| Aio.Supervisor.Run | detector/src/pcap/aio.py:46-156 | creates the directory, starts with `should_remove` false, and runs the events as `RunSpec` says: a stop ends the loop, an uncaught exception crashes it |
| Aio.RunSpecFirst | detector/src/pcap/aio.py:65-156 | a stop ends the run unchanged; a packet takes one turn, after which the run goes on, hangs or crashes |
| Aio.StepAfterAnswer | detector/src/pcap/aio.py:97-104 | after a merge that succeeds and an `ask` that returns, the turn acts on the fresh or kept verdict |
| Aio.PurgeLeavesCurrentSegment | detector/src/pcap/aio.py:83-92 | with `should_remove` set, only the current segment is merged and the flag is cleared, whichever name format is configured |
| Aio.MergeOfTwo | detector/src/pcap/aio.py:70-92 | a turn that finds one earlier segment, with `max_pcaps_to_merge == 1`, merges and keeps the segment whose name sorts last and deletes the other |
| Aio.DayFirstTrimDropsNewer | detector/src/pcap/aio.py:74 | with the day-first names, the turn of 1 Feb 2024 that finds the segment of 31 Jan 2024 merges the older one and deletes the segment it has just written |
| Aio.YearFirstTrimKeepsNewer | detector/src/pcap/merger.py:33-40 | with year-first names, the same turn at any later time merges and keeps the new segment and deletes the earlier one |
| Aio.SkipWithoutVerdict | detector/src/pcap/aio.py:102-104 | without a verdict, or with no rows, the turn continues with no log, no notification and no sender file |
| Aio.ActGate | detector/src/pcap/aio.py:110-151 | with a verdict, the turn logs and sets `should_remove` exactly when `Packets > min_packets_count` (strict) and the look-up succeeds, whatever the probability; a failed look-up crashes it |
| Aio.FailedCommandCrashes | detector/src/pcap/aio.py:110-151 | on a turn that acts, a non-zero status of the address command or of `tshark` crashes the loop with that `CalledProcessError`: nothing is logged or notified, the sender file is empty and `should_remove` stays clear |
| Aio.ActOnVerdict | detector/src/pcap/aio.py:110-151 | the same gate on the end of the turn alone |
| Aio.ReportGate | detector/src/pcap/aio.py:115-151 | acting succeeds and logs exactly when the look-up does, and then sets `should_remove` |
| Aio.NotifyGate | detector/src/pcap/aio.py:135-143 | on a turn that acts, the suspect is notified exactly when the probability exceeds the threshold; the decoded list is never `""`, so that test always passes |
| Aio.TrustGap | detector/src/pcap/aio.py:110 | a verdict `ask` trusts but the loop ignores has exactly `Packets == min_packets_count` |
| Aio.InterruptRepeatsVerdict | detector/src/pcap/aio.py:97-103 | an `ask` interrupted by `KeyboardInterrupt` reuses the previous turn's `cnn_result` and logs again |
| Aio.RunEndsAtStop | detector/src/pcap/aio.py:154-156 | events after the first stop have no effect, and a run reaching a stop does not end as running |
| Aio.StepExtends | detector/src/pcap/aio.py:122-143 | a turn adds at most one log entry, and at most one notification, naming that entry's address |
| Aio.StepKeepsHistory | detector/src/pcap/aio.py:122-143 | a turn only extends the logs and the notifications, and every notified address stays logged |
| Aio.RunKeepsHistory | detector/src/pcap/aio.py:65-156 | over a whole run the logs and notifications only grow, and every notified address was logged |
| Whitelist.Without | detector/src/ip/whitelist.py:37-39 | the kept lines are no more than the lines read |
| Whitelist.WhitelistFile.Add | detector/src/ip/whitelist.py:17-20 | a non-empty address is appended with a line break, and opening for appending creates a missing file; an empty one changes nothing |
| Whitelist.WhitelistFile.Remove | detector/src/ip/whitelist.py:33-41 | a missing file raises `FileNotFoundError` for a non-empty address; otherwise the file is rewritten with the other lines in order; an empty address changes nothing |
| Whitelist.WhitelistFile.Rewrite | detector/src/ip/whitelist.py:36-39 | the file opened for writing ends up holding the lines that are not the address, in order |
| Whitelist.WhitelistFile.Check | detector/src/ip/whitelist.py:53-59 | false for an empty address; a missing file raises `FileNotFoundError`; otherwise the early-return scan answers whether some stripped line is the address |
| Whitelist.LinesRoundTrip | detector/src/ip/whitelist.py:35 | `readlines` loses nothing (its lines make up the text) and gives what it always gives: line breaks end the lines |
| Whitelist.LinesOfConcat | detector/src/ip/whitelist.py:35-39 | rewritten lines read back as the same lines |
| Whitelist.ListedWithout | detector/src/ip/whitelist.py:36-39 | after filtering, an address is listed exactly when it is not the removed one and was listed before |
| Whitelist.RemoveThenCheck | detector/src/ip/whitelist.py:33-59 | after `remove(ip)`, `check(ip)` is false, and `check` of any other address is unchanged |
| Whitelist.AddThenCheck | detector/src/ip/whitelist.py:17-59 | after `add(ip)` on a file that is empty or ends with a line break, `check(ip)` is true, and allowed addresses stay allowed |
| Settings.ReplaceFirst | detector/src/main.py:34 | `replace(".", "", 1)` drops one character exactly when there is a dot |
| Settings.CoerceNat | detector/src/main.py:31-32 | a printed natural number becomes that int |
| Settings.CoerceDecimal | detector/src/main.py:33-34 | digits, a dot and digits (at least one digit; either side may be empty, as in `".5"`) become the float of their decimal value |
| Settings.FloatShape | detector/src/main.py:33-34 | conversely, every text that becomes a float is digits, a dot and digits |
| Settings.StaysString | detector/src/main.py:35 | a character that is neither a digit nor a dot, or a second dot, leaves the text a string |
| Settings.SevenIsInt | detector/src/main.py:31-32 | `"7"` becomes the int 7 |
| Settings.PointEightIsFloat | detector/src/main.py:33-34 | `"0.8"` becomes the float 0.8 |
| Settings.FiveDotIsFloat | detector/src/main.py:33-34 | `"5."` becomes the float 5.0 |
| Settings.StringExamples | detector/src/main.py:31-35 | `"1.2.3"`, `"-1"`, `""` and `"."` stay strings |
| Settings.LastWins | detector/src/main.py:30-37 | a dict built from pairs has their keys, and a key holds its last value |
| Settings.Namespace | detector/src/main.py:27-37 | every key of the section is set, to the coercion of its last value |
| DetectApi.SenderObject | detector/src/main.py:125 | an object with exactly the keys `IpAddress` and `RequestCount`, in that order |
| DetectApi.SenderObjects | detector/src/main.py:124-125 | one object per entry, in order |
| DetectApi.MostFrequentSenders | detector/src/main.py:74-128 | a non-zero status of the address command or of `tshark` raises `CalledProcessError`, and a failing parse of the capture passes its error through; then a missing `senderCount` raises `TypeError`, a text `int()` refuses raises `ValueError`, and otherwise the append loop dumps the objects of the top list for that count |
| DetectApi.TopSendersSpec | detector/src/main.py:74-124 | a non-zero status of the address command, or of `tshark` once the addresses are known, raises `CalledProcessError`. Success exactly when the addresses parse, `tshark` exits with 0 and every line has a third field. Then `min(n, distinct)` entries, each a non-local sender with its exact count, listed once; counts do not increase; no omitted sender has a higher count |
| DetectApi.TopOfFiltered | detector/src/main.py:112-124 | the same properties for the filtered senders |
| DetectApi.FirstIsMostFrequent | detector/src/main.py:124 | for `n >= 1`, the first entry of the top list is the suspect `analyzer` saves, and one exists exactly when the other does |
| DetectApi.MostCommonPrefix | detector/src/main.py:124 | `most_common(n)[0] == most_common(1)[0]` |
| DetectApi.IntOfDigits | detector/src/main.py:124 | `int()` reads a digit string as its value |
| DetectApi.IntOfNatToString | detector/src/main.py:124 | `int(str(n)) == n` for every count `n` |
| DetectApi.SignedDigits | detector/src/main.py:124 | a `-` or `+` before digits is read as the sign of the value |
| DetectApi.IntOfPadded | detector/src/main.py:124 | surrounding whitespace is ignored: `int(" 7\n") == 7` |
| DetectApi.IntOfUnderscores | detector/src/main.py:124 | single underscores between digits are accepted: `int("1_000") == 1000` |
| DetectApi.IntOfBlank | detector/src/main.py:124 | the empty text and a lone space raise `ValueError` |
| DetectApi.IntOfRejects | detector/src/main.py:124 | `"7.0"`, `"1__0"`, `"_1"` and `"ten"` raise `ValueError` |
| Info.TableOfDisplay | detector/src/ip/info.py:40-54 | the 13-pair display evaluates to 12 distinct keys in written order; the repeated `hostname` keeps its first place and its (equal) label |
| Info.Select | detector/src/ip/info.py:60-61 | the kept labels are exactly those whose key is in the record and not filtered out |
| Info.ReadableLines | detector/src/ip/info.py:58-61 | one line `label: value` per kept label, in order |
| Info.GetReadable | detector/src/ip/info.py:32-62 | `readable=False` returns the record unchanged; otherwise the lines joined with newlines |
| Info.ShownIff | detector/src/ip/info.py:61 | a label gets a line exactly when its key is present and not filtered |
| Info.SelectOrder | detector/src/ip/info.py:60-61 | kept labels keep the dict's order and repeat no key |
| Info.LinesInLabelOrder | detector/src/ip/info.py:40-61 | the lines follow the label order, and `hostname` gives at most one line |
| Info.CaptionsOneLine | detector/src/ip/info.py:40-54 | every label is one non-empty line |
| Info.TextSplitsIntoLines | detector/src/ip/info.py:58-59 | with one-line values the text splits at newlines into exactly the lines: no trailing newline |
| Info.EmptyText | detector/src/ip/info.py:58-62 | the text is empty exactly when no label gets a line |
| Info.AllFiltered | detector/src/ip/info.py:58-62 | filtering out every key of the record gives the empty string |
| Blocker.Command | detector/src/ip/blocker.py:36-59 | the 7-element `iptables` vector on POSIX, the 10-element `netsh` vector otherwise, with the address in its slots |
| Blocker.CommandFixedParts | detector/src/ip/blocker.py:36-59 | only the address slots depend on the address |
| Blocker.CommandInjective | detector/src/ip/blocker.py:36-59 | different addresses give different commands |
| Blocker.Block | detector/src/ip/blocker.py:62-82 | the result is true exactly for exit code 0; success empties the capture directory; failure leaves it untouched |
| Blocker.KeepNothing | detector/src/ip/blocker.py:76 | `remove_all_pcaps()` without exceptions keeps nothing |
| Logger.Level | detector/src/util/logger.py:11-22 | the coerced setting gives a multiple of 10 up to 50, and a non-zero level exactly for a string that is one of the five names |
| Logger.LevelsDecrease | detector/src/util/logger.py:11-20 | CRITICAL 50, ERROR 40, WARNING 30, INFO 20, DEBUG 10, strictly decreasing |
| Logger.LowerCaseIsZero | detector/src/util/logger.py:11-22 | the match is case-sensitive: the strings `"debug"`, `"info"` and `"Critical"` give 0 |
| Logger.NumericLevelIsZero | detector/src/util/logger.py:11-22 | a level written as a number in `settings.ini` is coerced to an int and gives level 0 |
| Logger.NamedLevel | detector/src/util/logger.py:11-20 | each of the five names stays a string through the coercion and gives its non-zero level |
| Logger.NameStaysString | detector/src/main.py:30-37 | a text starting with a capital letter is neither an int nor a float: it stays a string |
| Seqs.MinusMember | detector/src/pcap/remover.py:58 | `[x for x in s if x not in xs]` keeps exactly the elements of `s` outside `xs` |
| Seqs.KeepMember | detector/src/pcap/remover.py:113-127 | `[x for x in s if x in xs]` keeps exactly the elements of `s` inside `xs` |

## Left out

- External tools are not run: `tshark`, `mergecap`, `hostname`/`ipconfig`, `iptables`/`netsh` and the LUCID launch (`run_predict_live_subprocess`, neural.py:13-52). Their exit statuses, their outputs and the files they write are inputs of the model (`Analyzer.Run` for the address command and `tshark`). Output that is not valid UTF-8, which `decode("utf-8")` refuses, is not modelled: outputs are given as text.
- Live capture with pyshark (aio.py:70-80) is an event: one packet is one turn, and its segment is written at the start of the turn.
- Concurrency and time are not modelled: the classifier's `multiprocessing` process, `time.time()`, `time.sleep(0.1)` and the process in main.py:241-253. A trace of listings and polls with an integer clock replaces them. A trace that ends inside `ask` is the loop hanging (`Hung`).
- HTTP is left out: the log `POST` (aio.py:122-130) is an appended `LogEntry` and the ipinfo.io fetch (info.py:28) is an input map. The API health check (main.py:166-173), the Flask app (main.py:130-141) apart from its `senderCount` form field, `tgbot.py` and `api_entrypoint.py` are not part of this model. The notification is an appended address.
- `util/const.py` is not part of this model: its shell calls and platform paths become the constants `mycapture` and `merged` and a directory parameter.
- In main.py the startup checks are left out: placeholder credentials at line 149, root, `which`, the TensorFlow logging and the startup clean-up at lines 199-215. Reading `settings.ini` with `configparser` is left out too: the model takes the section's pairs as given, and key lowercasing, the `DEFAULT` section and `abspath` at line 41 are left out.
- `Json.Loads` reads strings, integers and arrays, with whitespace between tokens, which is what the detector decodes. Floats, objects and `true`/`false`/`null` are not read back.
- Number text is restricted: `str.isdigit()` is modelled on ASCII digits only, not other Unicode digits. `int()` and `float()` of CSV columns are given as parsed `int`/`real` values (`Neural.Row`). A float is an exact real, with no rounding.
- The pretty percentage (neural.py:144-146), every `log` call and the logging handler setup are not modelled.
- Info values are the text Python prints for each record value, given as strings (`str()` of booleans and numbers is not modelled).
- `%Y` below year 1000 and `os.makedirs` failure modes are left out: the year is assumed to have four digits. The `created_at` timestamp of the log body is left out too.
- The name format of the segments is a setting of the loop (`Aio.Settings.nameFormat`), restricted to the day-first format aio.py:74 writes and the corrected year-first one (see Findings). Every loop property holds for both; only the time order of the trim differs.
- A stop (`KeyboardInterrupt`, `EOFError`, `SystemExit`) is modelled only between turns. aio.py:66-156 catches it anywhere in a turn, so a stop after the merge or after the log post, which leaves a partly done turn, is not modelled.
- Paths are POSIX paths only. `Paths.Join` and `Paths.Basename` split and join on `/`, as `posixpath` does. On Windows `ntpath` joins with `\` and splits base names on both separators, so the merge vector and the base names of `remove_all_pcaps` exceptions are not modelled there.
- Remover.PcapDir.RemoveExcess: entries are bare file names, as `os.listdir` yields them. That is what its only caller passes (`Merger.TrimCandidates`). A relative or absolute path entry, which `os.path.join(PCAP_DIR, file)` at remover.py:47 also resolves, is looked up literally and raises `FileNotFoundError` in the model.
- Remover.PcapDir.Delete: the name is looked up literally in the listing, so the path forms remover.py:15-18 allows (`./name`, an absolute path) are not resolved.
- DetectApi.IntOf: `int()` of the form field reads ASCII digits only, with an optional sign, single underscores and surrounding whitespace. Other Unicode decimal digits are not read. The `filePath` form field and the Flask request are not modelled: the capture's outputs are parameters.
- Remover.PcapDir.Delete follows the code: `os.remove` of a missing file raises `FileNotFoundError`, so a delete is not idempotent.
- Merger.MergeCaptureFiles follows the code: a failed merge raises out of `loop`, because only `KeyboardInterrupt`, `EOFError` and `SystemExit` are caught there. It is not a failure the loop recovers from.

## Findings

| source | as written | input that shows it | evidently intended | confidence | as-written member | corrected member |
|---|---|---|---|---|---|---|
| detector/src/pcap/aio.py:74 | segment names stamp the time as `%d%m%Y_%H%M%S_%f` (day first), while merger.py:33-36 sorts names alphabetically on the grounds that this matches time order | a segment captured on 31 Jan 2024 is named `mycapture_31012024_...`, one on 1 Feb 2024 `mycapture_01022024_...`; the later one sorts first, so the trim keeps old segments and deletes new ones across a month (or day) boundary | alphabetical order of segment names equals time order, as with a year-first `%Y%m%d_%H%M%S_%f` stamp | not executed | Aio.DayFirstMisorders, Aio.DayFirstTrimDropsNewer | Aio.YearFirstNamesFollowTime, Aio.YearFirstTrimKeepsNewer |
