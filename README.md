# ts-fix: edit resolution and patching, in Dafny

ts-fix applies the TypeScript language service's code fixes across a whole project. One
pass does the following:

- It picks the diagnostics whose error code was asked for, and logs how many of each it found.
- It asks the language service for the fixes of each diagnostic.
- It keeps the fixes whose name was asked for.
- It groups their edits by file, in an insertion-ordered map.
- For each file, it sorts the edits by span, sweeps out every edit that starts inside or right at the end of an
  edit already kept, and splices the kept edits into the original text, from the last
  to the first.
- It writes the new text under the output folder.

If the pass handed back edits it could not apply, `codefixProject` runs a second pass and
returns what that pass handed back.

This project models `src/index.ts` in modules that follow the program's parts:

| module | models |
|---|---|
| `Edits` | `TextChange`, `FileTextChanges`, `CodeFixAction` |
| `Conflicts` | `sortChangesByStart` (an in-place stable insertion sort on an array) and `filterOverlappingFixes` (the greedy sweep) |
| `Patch` | `doTextChangeOnString` with JavaScript's `substring` clamping, `doTextChanges`, `applyChangestoFile` |
| `Aggregation` | `filterCodeFixesByFixName`, `getTextChangeDict` and the insertion-ordered `Map` it builds |
| `Diagnostics` | `filterDiagnosticsByErrorCode`: the per-code counter and the messages |
| `Numerals` | how JavaScript prints integers and arrays of integers inside those messages |
| `Paths` | `getFileName` (the regular expression `^.*[\\/]`) and `getDirectory` |
| `Driver` | the host, `writeToFile`, `applyCodefixesInFile`, `doAllTextChanges`, `getCodeFixesForFile`, `applyCodefixesOverProject`, `codefixProject` |

The methods follow the source's loops and state:

- Sorting works in place on an array.
- The host is a class whose write log and message log the methods extend.
- Each loop carries the invariants that tie it to a specification function.
- Properties are proved about those functions.

Key proved facts:

- **Sorting.** The sort is sorted, a permutation of its input, and stable.
- **Sweep.** It splits its input into kept and dropped edits and keeps the order of both. No two kept edits overlap or touch. Every dropped edit starts inside a kept edit or right at its end.
- **Patching.** Splicing well-formed edits from the last to the first gives the same text as rewriting the original text left to right at the original offsets.
- **Edit map.** Its keys are the file names, in order of first occurrence. Under each key are all edits for that file, in encounter order.
- **Diagnostic counter.** It holds each requested code that occurs, with its number of occurrences, in order of first sighting.
- **Driver.** The write log and message log are exactly the per-file writes and lines up to the first missing file. The two-pass driver returns the second pass's result exactly when the first pass handed edits back.

The project loader, the language service and the file system are given as data:

- The project is a snapshot of its files' texts and its diagnostics per file.
- `getCodeFixesAtPosition` is a function parameter.
- The output path of a file (`getOutputFilePath`) is a function parameter.

## Model

| member | source | states |
|---|---|---|
| Patch.Clamp | src/index.ts:295-297 | `substring` clamps an offset past the end to the length and leaves others alone |
| Patch.DoTextChangeOnString | src/index.ts:294-299 | doTextChangeOnString itself; no contract of its own, its effect is stated by SpliceEffect and UndoRestores |
| Patch.SpliceEffect | src/index.ts:294-299 | For an in-bounds span, only the span changes: same prefix, then the new text, then the old suffix, with the length adjusted. A span running past the end cuts the rest. A span starting at or past the end appends. |
| Patch.UndoRestores | src/index.ts:294-299 | an in-bounds splice is undone by splicing the replaced text back (round trip) |
| Patch.SpliceExample | src/index.ts:294-299 | `"abcdef"` with {1, 2, "XYZ"} becomes `"aXYZdef"` |
| Patch.ApplyFromLast | src/index.ts:284-292 | the reference for doTextChanges (each edit applied from the last one back); no contract of its own, related to the independent Rebuild by ApplyFromLastIsRebuild |
| Patch.ApplyFromLastIsRebuild | src/index.ts:284-292 | For non-overlapping, in-bounds edits, applying them from the last to the first equals rewriting the original text left to right at the original offsets. |
| Patch.NoChangesIsIdentity | src/index.ts:284-292 | no edits leave the text unchanged |
| Patch.ApplyFromLastLength | src/index.ts:284-292 | the patched length is the original length plus, per edit, new-text length minus span length |
| Patch.DoTextChanges | src/index.ts:284-292 | The backward loop computes the from-last application. On well-formed edits, that is the left-to-right rewrite. |
| Patch.ApplyChangesToFile | src/index.ts:277-282 | The result is doTextChanges of the list: the identity on no edits, and on well-formed edits the left-to-right rewrite with the expected length. |
| Conflicts.Compare | src/index.ts:253-255 | the comparator passed to `sort`; no contract of its own, stated by CompareIsLexicographic |
| Conflicts.CompareIsLexicographic | src/index.ts:253-255 | the comparator orders by start, ties by length, is zero exactly on equal spans, and is antisymmetric |
| Conflicts.SortByStart | src/index.ts:249-256 | the reference for sortChangesByStart (a stable sort by the comparator); no contract of its own, stated by SortIsSorted, SortPermutes and SortIsStable |
| Conflicts.SortIsSorted | src/index.ts:249-256 | the sort's output is ordered by the comparator |
| Conflicts.SortPermutes | src/index.ts:249-256 | the sort's output is a permutation of its input |
| Conflicts.SortIsStable | src/index.ts:249-256 | edits with the same span keep their input order (stable sort) |
| Conflicts.InsertIntoPrefix | src/index.ts:253-255 | one insertion step on the array: the prefix up to `i` becomes the stable insertion of `a[i]`, the rest is untouched |
| Conflicts.SortChangesByStart | src/index.ts:249-256 | sorts the caller's array in place into the stable sort of its old contents and returns the same array |
| Conflicts.Sweep | src/index.ts:259-275 | the reference for filterOverlappingFixes (keep an edit when it starts after the current end); no contract of its own, stated by the Sweep lemmas below |
| Conflicts.SweepPartitions | src/index.ts:259-275 | every edit goes to exactly one of the kept and dropped lists, and both keep the input order |
| Conflicts.SweepKeptSeparated | src/index.ts:265-273 | each kept edit starts strictly after the end of the previous kept edit |
| Conflicts.SweepKeptPairwiseApart | src/index.ts:259-275 | any two kept edits are apart: the later starts after the earlier ends |
| Conflicts.SweepDroppedConflict | src/index.ts:259-275 | on sorted input an edit is dropped only if it starts within, or right at the end of, some kept edit |
| Conflicts.FirstChangeKept | src/index.ts:262-269 | with `currentEnd` starting at -1 the first edit is always kept |
| Conflicts.FilterOverlappingFixes | src/index.ts:259-275 | the loop returns exactly the sweep's kept and dropped lists |
| Conflicts.OverlapExample | src/index.ts:249-275 | (1,1) and (0,2) sort to (0,2), (1,1); the first is kept and the second dropped |
| Conflicts.AdjacencyExample | src/index.ts:259-275 | an edit starting exactly where the kept one ends is dropped (the test is strict `>`) |
| Conflicts.TieExample | src/index.ts:253-254 | on equal starts the shorter edit sorts first and is the one kept |
| Aggregation.KeepNamed | src/index.ts:204 | the kept fixes are exactly the input fixes whose name is listed |
| Aggregation.KeepNamedAppend | src/index.ts:204 | the filter distributes over concatenation, so relative order is kept |
| Aggregation.FilterCodeFixesByFixName | src/index.ts:197-205 | an empty allow-list keeps everything; otherwise a fix is kept iff its name is listed |
| Aggregation.FilterByFixNameIdempotent | src/index.ts:197-205 | filtering twice is filtering once |
| Aggregation.Get | src/index.ts:185 | `Map.get` is undefined exactly for a key not present |
| Aggregation.Set | src/index.ts:187-189 | `Map.set` keeps the key order for a present key and appends a new key |
| Aggregation.SetThenGet | src/index.ts:185-189 | after `set`, `get` of that key gives the new value and every other key keeps its own; keys stay distinct |
| Aggregation.GetFileNameAndTextChangesFromCodeFix | src/index.ts:207-209 | the file name and a copy of its edits; no contract of its own (values are copied by construction) |
| Aggregation.AddGroupEffect | src/index.ts:183-190 | one inner-loop step: a new file name is appended with its edits, a known one gets the edits concatenated |
| Aggregation.Collect | src/index.ts:173-195 | the reference for the map getTextChangeDict builds; no contract of its own, stated by CollectKeys, CollectValues and CollectOrder |
| Aggregation.CollectKeys | src/index.ts:173-195 | the map's keys are distinct and are exactly the file names that occur |
| Aggregation.CollectValues | src/index.ts:173-195 | under each file name: all edits aimed at it, in encounter order; absent names are undefined |
| Aggregation.CollectOrder | src/index.ts:173-195 | the keys stand in the order of their first occurrence |
| Aggregation.GetTextChangeDict | src/index.ts:173-195 | the two nested loops build exactly the map of the name-filtered fixes' edit groups |
| Diagnostics.KeepCodes | src/index.ts:120-131 | the kept diagnostics are exactly those whose code is listed |
| Diagnostics.Tally | src/index.ts:114-131 | the reference for errorCounter after the filter; no contract of its own, stated by TallySnoc, TallyCounts, TallyOrder and TallyEmpty |
| Diagnostics.TallySnoc | src/index.ts:120-127 | one more diagnostic bumps the counter exactly when its code is listed |
| Diagnostics.TallyCounts | src/index.ts:122-127 | the counter holds exactly the listed codes that occur, each once, with its number of occurrences |
| Diagnostics.TallyStepCodes | src/index.ts:122-127 | a step leaves the counter's keys alone or appends a code never seen before |
| Diagnostics.TallyOrder | src/index.ts:114-137 | the counter's codes, and so the messages, follow the order in which codes are first seen |
| Diagnostics.TallyEmpty | src/index.ts:139-141 | the counter is empty exactly when no diagnostic has a listed code |
| Diagnostics.Text | src/index.ts:136-146 | the three message texts; no contract of its own, stated by FoundTextDeterminesCount, FoundTextExample and NoMatchExample |
| Diagnostics.CodeSuffix | src/index.ts:136 | the text after the count starts with a space, never a digit |
| Diagnostics.FoundTextDeterminesCount | src/index.ts:136 | different counts for the same code give different messages |
| Diagnostics.CountMessages | src/index.ts:134-137 | one count message per counted code, in the counter's order |
| Diagnostics.TotalCountIsSize | src/index.ts:145-146 | the summary's total is the number of diagnostics over all files |
| Diagnostics.FilterPerFile | src/index.ts:116-133 | filtering each file's list, then concatenating, is filtering the concatenation |
| Diagnostics.KeepCodesAppend | src/index.ts:120-131 | the code filter distributes over concatenation |
| Diagnostics.CountMessagesAreCounts | src/index.ts:134-137 | each count message carries the number of diagnostics with that code |
| Diagnostics.Count | src/index.ts:122-127 | The counter stays well formed. The diagnostic's code ends up counted once more than before (a new code starts at 1). Every other code keeps its count, a known code keeps its place in the key order, and a new code goes last. |
| Diagnostics.FilterFile | src/index.ts:120-132 | the callback over one file yields that file's listed-code diagnostics and the counter over everything seen so far |
| Diagnostics.ReportCounts | src/index.ts:134-137 | the `forEach` over the counter yields its count messages |
| Diagnostics.Selected | src/index.ts:109-147 | With no codes, every file's list is handed on unchanged. When nothing matched, no list is handed on. Otherwise there is one list per file, holding exactly that file's diagnostics with a listed code. With codes, the lists together are the whole filtered list. |
| Diagnostics.Reports | src/index.ts:109-147 | There is always at least one message. When codes matched, every message is a count message with a positive count. |
| Diagnostics.FilterDiagnosticsByErrorCode | src/index.ts:109-147 | The three outcomes: (1) no codes gives everything and a summary; (2) no match gives no lists and the "no diagnostics found" message; (3) otherwise each file's matching diagnostics and one correct count message per code. |
| Diagnostics.KeepExample | src/index.ts:120-131 | codes [2345, 1234, 2345] filtered by {2345} keep both 2345s in order |
| Diagnostics.TallyExample | src/index.ts:122-127 | the same list counts 2345 twice and nothing else |
| Diagnostics.NoMatchExample | src/index.ts:139-141 | filtering by {9999} keeps nothing and reads "no diagnostics found with codes 9999" |
| Diagnostics.FoundTextExample | src/index.ts:136 | two diagnostics with code 2345 give the message "found 2 diagnostics with code 2345" |
| Numerals.NatToString | src/index.ts:136 | a count prints as nonempty decimal digits without a leading zero |
| Numerals.IntToString | src/index.ts:136 | an error code prints with a leading `-` exactly when negative |
| Numerals.NatToStringRoundTrip | src/index.ts:136 | reading the printed digits back gives the number |
| Numerals.NatToStringInjective | src/index.ts:136 | distinct numbers print differently |
| Numerals.JoinInts | src/index.ts:140 | `toString` of the code list is empty only for no codes and is the single code's text for one |
| Numerals.JoinIntsSnoc | src/index.ts:140 | appending a code appends a comma and that code's text |
| Numerals.JoinIntsFront | src/index.ts:140 | read from the front, the text is the first code's text, a comma, then the rest joined; with JoinIntsSnoc each code's text stands between commas in order |
| Numerals.JoinExample | src/index.ts:140 | `[2345, 1234]` prints as `2345,1234` |
| Paths.FirstLineEnd | src/index.ts:324 | the first line terminator, which `.` cannot match past |
| Paths.LastSeparatorBefore | src/index.ts:324 | the last `/` or `\` before a bound, with none after it |
| Paths.MatchEnd | src/index.ts:324 | The match of `^.*[\\/]` ends at a separator on the first line, with no separator after it on that line. The match is empty when there is none. |
| Paths.GetFileName | src/index.ts:323-325 | getFileName itself; no contract of its own, stated by FileNameShape and OneLineFileName |
| Paths.FileNameShape | src/index.ts:323-325 | The result is a suffix of the path. The removed part ends with a separator and spans no line terminator. No separator is left on the result's first line. |
| Paths.OneLineFileName | src/index.ts:323-325 | on a one-line path the file name contains no separator |
| Paths.FileNameExample | src/index.ts:323-325 | `src/a.ts` gives `a.ts` |
| Paths.GetDirectory | src/index.ts:327-329 | as written, the result equals the file name |
| Paths.GetDirectoryExample | src/index.ts:327-329 | `getDirectory("src/a.ts")` is `a.ts`, where the directory is `src/` |
| Paths.DirectoryOf | src/index.ts:327-329 | the directory part: followed by the file name it is the path, and it is empty or ends with a separator |
| Driver.Host.constructor | src/index.ts:23-25 | a fresh host has written and logged nothing |
| Driver.Host.WriteFile | src/index.ts:27-29 | a write is recorded after the earlier ones; the log is unchanged |
| Driver.Host.Log | src/index.ts:26 | a line is appended to the log; the writes are unchanged |
| Driver.WriteToFile | src/index.ts:302-310 | writes the contents under the file's output path, then logs "Updated" with that path |
| Driver.Resolve | src/index.ts:236-239 | the sort and the sweep together; no contract of its own, stated by ResolveAccountsForAll and ResolvePatchable |
| Driver.Patched | src/index.ts:234-247 | the new text of applyCodefixesInFile; no contract of its own, stated by PatchedIsRebuild |
| Driver.ResolveAccountsForAll | src/index.ts:234-247 | each of a file's edits is applied or handed back, none twice; an edit is handed back only when it touches an applied one |
| Driver.ResolvePatchable | src/index.ts:234-247 | the applied edits never overlap and stay within the text when all edits did |
| Driver.PatchedIsRebuild | src/index.ts:234-247 | the new file text is the original with each applied edit's span replaced, at the original offsets |
| Driver.ApplyCodefixesInFile | src/index.ts:234-247 | returns the sweep's dropped edits and the text patched with its kept edits |
| Driver.FirstMissing | src/index.ts:213-228 | the first file name the project lacks, with every earlier one present |
| Driver.WritesPerFile | src/index.ts:211-232 | one write and one "Updated" line per file in the map's order, each the file's patched text under its output path |
| Driver.DoAllResult | src/index.ts:211-232 | the pass result is an error exactly when some file is missing from the project |
| Driver.PatchFile | src/index.ts:216-224 | the callback for a present file writes its patched text and returns its unapplied edits |
| Driver.PatchEntry | src/index.ts:213-224 | one turn of `forEach`: after it, the write and message logs cover one more file |
| Driver.DoAllTextChanges | src/index.ts:211-232 | Files are written in map order up to the first missing one. The result is an error naming that file, or else the last file's unapplied edits. |
| Driver.AllDroppedEmpty | src/index.ts:222 | the collected leftovers are empty exactly when every file's edits were all applied |
| Driver.AllDroppedMembers | src/index.ts:222 | an edit is among the collected leftovers exactly when some file handed it back |
| Driver.LastDroppedLosesConflicts | src/index.ts:212-231 | as written, a conflict in an earlier file is forgotten when a later file comes out clean |
| Driver.DoAllTextChangesCollecting | src/index.ts:211-232 | the same writes, with the leftovers of all files collected |
| Driver.GetCodeFixesForFile | src/index.ts:149-167 | getCodeFixesForFile itself; no contract of its own, stated by FixesAt and UnlocatedContributeNothing |
| Driver.FixesAt | src/index.ts:152-163 | a diagnostic without a file, start or length gets no fixes |
| Driver.UnlocatedContributeNothing | src/index.ts:149-167 | the fixes for a file's diagnostics are those of its located diagnostics alone |
| Driver.CodeFixes | src/index.ts:86-89 | the `map` over files plus `_.flatten`; no contract of its own, it concatenates GetCodeFixesForFile of each file in order |
| Driver.LogAll | src/index.ts:82-84 | logs the lines in order and writes nothing |
| Driver.ApplyCodefixesOverProject | src/index.ts:62-99 | A project that fails to load gives "Could not create project" and leaves the files and the log untouched. Otherwise the result is that of doAllTextChanges on the grouped edits, the files written are those of doAllTextChanges, and the log is the filter's messages followed by one "Updated" line per file written. |
| Driver.PatchProject | src/index.ts:73-98 | on a loaded project: the result is doAllTextChanges on the grouped edits; the log is the filter's messages then one "Updated" line per file written |
| Driver.CodefixProject | src/index.ts:44-60 | A second pass runs exactly when the first succeeded with leftovers, and the result is that of the last pass run. The files written and the lines logged are the first pass's, followed by the second pass's exactly when it runs. |

## Left out

- Project loading (`createProject`), `getDiagnostics` and the language service are calls into code outside this file. The project is a snapshot of its files' texts and its diagnostics per file, and `getCodeFixesAtPosition` is a function parameter. Each pass of `codefixProject` gets its own snapshot.
- The formatting options and the `.filter(d => d !== undefined)` in `getCodeFixesForFile` are left out, because the service is modelled to return a list.
- `getOutputFilePath` and `getRelativePath` (`path.resolve`/`path.relative`) are left out; the output path is a function parameter, `outputPath`.
- The existence check and `mkdir` of the output directory (src/index.ts:304-307) are file-system calls, so they are left out.
- `async`/`await` are left out; the passes run in sequence.
- The check at src/index.ts:74 compares the diagnostics with fresh array literals by reference. It is never true, so its branch, which logs "No more diagnostics.", is not modelled.
- The test host keeps its written files in a `Map`. `Driver.Host` records every write in order instead, which is the sequence of calls the host sees.
- The logger's optional `error`/`warn`/`info`/`verbose` methods are left out; only plain logging is modelled.
- Strings are Dafny strings, whose elements are Unicode scalar values, while JavaScript strings and the language service's offsets count UTF-16 code units. Offsets, lengths and `substring` agree with the source only for texts whose characters all lie in the Basic Multilingual Plane; a character outside it counts once here and twice in the source.
- Numbers are integers. JavaScript's printing of non-integers, exponents and negative zero is left out.
- Diagnostics.FilterDiagnosticsByErrorCode: the messages come back as `Report` values rather than strings. `Diagnostics.Text` gives their exact text, and `Driver.Texts` is what gets logged.
- Conflicts.SortChangesByStart: `Array.prototype.sort` is modelled as a stable insertion sort. Stability is guaranteed since ES2019, but the engine's actual algorithm is not modelled.
- The in-place `sort` in `applyCodefixesInFile` reorders the map's own edit array. That array is a fresh copy (the spread at src/index.ts:208, the `concat` at src/index.ts:189), and nothing reads it after the sort, so the in-place effect cannot be observed. The model sorts a copy and does not model the mutation of the map's value.
- Driver.DoAllTextChanges: the comment at src/index.ts:47-48 says a second pass redoes whatever overlapped or was not executed, which needs the rejected edits of every file. The code overwrites `notAppliedChanges` with each file's result instead. The model follows the code; see Findings.

## Findings

| source | as written | input that shows it | evidently intended | confidence | as-written member | corrected member |
|---|---|---|---|---|---|---|
| src/index.ts:327-329 | `getDirectory` takes the substring from `length - getFileName(path).length`, which is the file name itself | `"src/a.ts"` gives `"a.ts"` | the directory part `"src/"`, whose existence `writeToFile` checks before writing | not executed | Paths.GetDirectoryExample | Paths.DirectoryOf |
| src/index.ts:222 | `notAppliedChanges = out` keeps only the last file's unapplied edits | `a.ts` with edits (1,1) and (0,2), then `b.ts` with none: the pass returns `[]`, so no second pass runs although (1,1) was not applied | the unapplied edits of every file, so that the second pass runs whenever any file had a conflict | not executed | Driver.LastDroppedLosesConflicts | Driver.DoAllTextChangesCollecting |
