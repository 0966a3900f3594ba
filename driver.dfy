/**
 * One pass over a project: pick diagnostics, ask for their fixes, group the fixes' edits
 * by file, resolve and apply each file's edits and write the result through the host;
 * then the two-pass driver on top. Loading the project and the language service are
 * given as data: a snapshot of the project's files and diagnostics, and a function
 * standing for `getCodeFixesAtPosition`.
 */
module Driver {
  import opened Wrappers
  import opened Edits
  import opened Conflicts
  import opened Patch
  import opened Aggregation
  import opened Diagnostics
  import opened Sequences

  // ---------------------------------------------------------------------------
  // The host
  // ---------------------------------------------------------------------------

  /** The host the program writes through: every file written and every line logged, in order. */
  class Host {
    var written: seq<(string, string)>
    var logged: seq<string>

    constructor ()
      ensures written == [] && logged == []
    {
      written, logged := [], [];
    }

    method WriteFile(fileName: string, content: string)
      modifies this
      ensures written == old(written) + [(fileName, content)]
      ensures logged == old(logged)
    {
      written := written + [(fileName, content)];
    }

    method Log(s: string)
      modifies this
      ensures logged == old(logged) + [s]
      ensures written == old(written)
    {
      logged := logged + [s];
    }
  }

  /**
   * writeToFile: write the contents under the output path of the file, then log it.
   * `outputPath` stands for getOutputFilePath, which resolves against the output folder.
   */
  method WriteToFile(fileName: string, fileContents: string, outputPath: string -> string, host: Host)
    modifies host
    ensures host.written == old(host.written) + [(outputPath(fileName), fileContents)]
    ensures host.logged == old(host.logged) + [Updated(outputPath(fileName))]
  {
    var writeToFileName := outputPath(fileName);
    host.WriteFile(writeToFileName, fileContents);
    host.Log(Updated(writeToFileName));
  }

  function Updated(path: string): string
  {
    "Updated " + path
  }

  // ---------------------------------------------------------------------------
  // One file
  // ---------------------------------------------------------------------------

  /** What one file's edits come to: sorted by span, then swept into applied and not applied. */
  function Resolve(changes: seq<TextChange>): Partition
  {
    Sweep(SortByStart(changes), NoEnd)
  }

  /** The file's new text: the applied edits spliced in from the last to the first. */
  function Patched(text: string, changes: seq<TextChange>): string
  {
    ApplyFromLast(text, Resolve(changes).kept)
  }

  /**
   * Every edit of the file is either applied or handed back, none twice; and an edit is
   * handed back only when it starts inside, or right at the end of, an applied one.
   */
  lemma ResolveAccountsForAll(changes: seq<TextChange>)
    ensures multiset(Resolve(changes).kept) + multiset(Resolve(changes).dropped) == multiset(changes)
    ensures forall d :: d in Resolve(changes).dropped ==> exists k :: k in Resolve(changes).kept && Touches(d, k)
  {
    var sorted := SortByStart(changes);
    SortPermutes(changes);
    SortIsSorted(changes);
    SweepPartitions(sorted, NoEnd);
    SweepDroppedConflict(sorted);
  }

  /** The applied edits never overlap, and stay within the text when all the edits did. */
  lemma ResolvePatchable(changes: seq<TextChange>, n: nat)
    requires WithinText(changes, n)
    ensures NonOverlapping(Resolve(changes).kept) && WithinText(Resolve(changes).kept, n)
  {
    var kept := Resolve(changes).kept;
    SweepKeptPairwiseApart(SortByStart(changes), NoEnd);
    ResolveAccountsForAll(changes);
    forall i | 0 <= i < |kept| ensures End(kept[i]) <= n {
      assert kept[i] in multiset(kept);
      assert kept[i] in multiset(changes);
    }
  }

  /**
   * Within the text, the patched file is the original text with each applied edit's span
   * replaced by its new text, at the original offsets.
   */
  lemma PatchedIsRebuild(text: string, changes: seq<TextChange>)
    requires WithinText(changes, |text|)
    ensures NonOverlapping(Resolve(changes).kept) && WithinText(Resolve(changes).kept, |text|)
    ensures Patched(text, changes) == Rebuild(text, Resolve(changes).kept, 0)
  {
    ResolvePatchable(changes, |text|);
    ApplyFromLastIsRebuild(text, Resolve(changes).kept);
  }

  /** applyCodefixesInFile: sort the edits, sweep out the conflicting ones, apply the rest. */
  method ApplyCodefixesInFile(originalContents: string, textChanges: seq<TextChange>)
    returns (notAppliedFixes: seq<TextChange>, newFileContents: string)
    ensures notAppliedFixes == Resolve(textChanges).dropped
    ensures newFileContents == Patched(originalContents, textChanges)
  {
    var a := new TextChange[|textChanges|](i requires 0 <= i < |textChanges| => textChanges[i]);
    assert a[..] == textChanges;
    var sortedFixList := SortChangesByStart(a);
    var filteredFixList;
    filteredFixList, notAppliedFixes := FilterOverlappingFixes(sortedFixList[..]);
    newFileContents := ApplyChangesToFile(originalContents, filteredFixList);
  }

  // ---------------------------------------------------------------------------
  // All files
  // ---------------------------------------------------------------------------

  /** Where a pass stops: the first file the project does not have, or the end. */
  function FirstMissing(entries: seq<(string, seq<TextChange>)>, files: map<string, string>): (n: nat)
    ensures n <= |entries|
    ensures forall i :: 0 <= i < n ==> entries[i].0 in files
    ensures n < |entries| ==> entries[n].0 !in files
  {
    if entries == [] || entries[0].0 !in files then 0
    else 1 + FirstMissing(entries[1..], files)
  }

  /** The file names of the first `n` entries are all in the project. */
  ghost predicate AllPresent(entries: seq<(string, seq<TextChange>)>, files: map<string, string>, n: nat)
  {
    n <= |entries| && forall i :: 0 <= i < n ==> entries[i].0 in files
  }

  /** The files written for the first `n` entries, in order. */
  function Writes(entries: seq<(string, seq<TextChange>)>, n: nat, files: map<string, string>, outputPath: string -> string): seq<(string, string)>
    requires AllPresent(entries, files, n)
  {
    if n == 0 then []
    else
      var e := entries[n - 1];
      Writes(entries, n - 1, files, outputPath) + [(outputPath(e.0), Patched(files[e.0], e.1))]
  }

  /** The lines logged for the first `n` entries. */
  function Updates(entries: seq<(string, seq<TextChange>)>, n: nat, outputPath: string -> string): seq<string>
    requires n <= |entries|
  {
    if n == 0 then [] else Updates(entries, n - 1, outputPath) + [Updated(outputPath(entries[n - 1].0))]
  }

  /** One write and one log line per file, in the map's order: the file's patched text under its output path. */
  lemma {:induction false} WritesPerFile(entries: seq<(string, seq<TextChange>)>, n: nat, files: map<string, string>, outputPath: string -> string)
    requires AllPresent(entries, files, n)
    ensures |Writes(entries, n, files, outputPath)| == |Updates(entries, n, outputPath)| == n
    ensures forall i :: 0 <= i < n ==>
      && Writes(entries, n, files, outputPath)[i] == (outputPath(entries[i].0), Patched(files[entries[i].0], entries[i].1))
      && Updates(entries, n, outputPath)[i] == Updated(outputPath(entries[i].0))
  {
    if n > 0 {
      WritesPerFile(entries, n - 1, files, outputPath);
    }
  }

  /** As written, only the unapplied edits of the last of the first `n` files are returned. */
  function LastDropped(entries: seq<(string, seq<TextChange>)>, n: nat): seq<TextChange>
    requires n <= |entries|
  {
    if n == 0 then [] else Resolve(entries[n - 1].1).dropped
  }

  function NotFound(fileName: string): string
  {
    "file " + fileName + " not found in project"
  }

  /** A pass stops at a missing file exactly when every file before it is present. */
  lemma FirstMissingAt(entries: seq<(string, seq<TextChange>)>, files: map<string, string>, i: nat)
    requires AllPresent(entries, files, i)
    requires i == |entries| || entries[i].0 !in files
    ensures FirstMissing(entries, files) == i
  {
  }

  /** What doAllTextChanges returns, as written. */
  function DoAllResult(entries: seq<(string, seq<TextChange>)>, files: map<string, string>): (r: Result<seq<TextChange>, string>)
    ensures r.Err? <==> !AllPresent(entries, files, |entries|)
  {
    var n := FirstMissing(entries, files);
    if n < |entries| then Err(NotFound(entries[n].0)) else Ok(LastDropped(entries, |entries|))
  }

  /** The body of the `forEach` callback for a file the project has: patch it and write it. */
  method PatchFile(fileName: string, originalFileContents: string, fileFixes: seq<TextChange>, outputPath: string -> string, host: Host)
    returns (out: seq<TextChange>)
    modifies host
    ensures out == Resolve(fileFixes).dropped
    ensures host.written == old(host.written) + [(outputPath(fileName), Patched(originalFileContents, fileFixes))]
    ensures host.logged == old(host.logged) + [Updated(outputPath(fileName))]
  {
    var newFileContents;
    out, newFileContents := ApplyCodefixesInFile(originalFileContents, fileFixes);
    WriteToFile(fileName, newFileContents, outputPath, host);
  }

  /** One turn of the loop: the `i`-th file is patched and written. */
  method PatchEntry(entries: seq<(string, seq<TextChange>)>, i: nat, files: map<string, string>, outputPath: string -> string, host: Host,
                    ghost written: seq<(string, string)>, ghost logged: seq<string>)
    returns (out: seq<TextChange>)
    requires AllPresent(entries, files, i) && i < |entries| && entries[i].0 in files
    requires host.written == written + Writes(entries, i, files, outputPath)
    requires host.logged == logged + Updates(entries, i, outputPath)
    modifies host
    ensures AllPresent(entries, files, i + 1)
    ensures host.written == written + Writes(entries, i + 1, files, outputPath)
    ensures host.logged == logged + Updates(entries, i + 1, outputPath)
    ensures out == LastDropped(entries, i + 1)
  {
    var fileName, fileFixes := entries[i].0, entries[i].1;
    out := PatchFile(fileName, files[fileName], fileFixes, outputPath, host);
  }

  /**
   * doAllTextChanges: visit the files in the map's insertion order, patch and write each.
   * A file the project does not have ends the pass with an error, after the files before
   * it have been written; otherwise the result is the last file's unapplied edits.
   */
  method DoAllTextChanges(files: map<string, string>, textChanges: TextChangeDict, outputPath: string -> string, host: Host)
    returns (result: Result<seq<TextChange>, string>)
    modifies host
    ensures var entries := textChanges.entries;
      var n := FirstMissing(entries, files);
      && host.written == old(host.written) + Writes(entries, n, files, outputPath)
      && host.logged == old(host.logged) + Updates(entries, n, outputPath)
      && result == DoAllResult(entries, files)
  {
    var entries := textChanges.entries;
    var notAppliedChanges: seq<TextChange> := [];
    var i := 0;
    while i < |entries|
      invariant AllPresent(entries, files, i)
      invariant host.written == old(host.written) + Writes(entries, i, files, outputPath)
      invariant host.logged == old(host.logged) + Updates(entries, i, outputPath)
      invariant notAppliedChanges == LastDropped(entries, i)
    {
      var fileName, fileFixes := entries[i].0, entries[i].1;
      if fileName !in files {
        FirstMissingAt(entries, files, i);
        return Err(NotFound(fileName));
      }
      notAppliedChanges := PatchEntry(entries, i, files, outputPath, host, old(host.written), old(host.logged));
      i := i + 1;
    }
    FirstMissingAt(entries, files, i);
    return Ok(notAppliedChanges);
  }

  // ---------------------------------------------------------------------------
  // Collecting every file's unapplied edits
  // ---------------------------------------------------------------------------

  /** The unapplied edits of each of the first `n` files, file after file. */
  function AllDropped(entries: seq<(string, seq<TextChange>)>, n: nat): seq<TextChange>
    requires n <= |entries|
  {
    if n == 0 then [] else AllDropped(entries, n - 1) + Resolve(entries[n - 1].1).dropped
  }

  /** The collected list is empty exactly when every file's edits were all applied. */
  lemma {:induction false} AllDroppedEmpty(entries: seq<(string, seq<TextChange>)>, n: nat)
    requires n <= |entries|
    ensures AllDropped(entries, n) == [] <==> forall i :: 0 <= i < n ==> Resolve(entries[i].1).dropped == []
  {
    if n > 0 {
      AllDroppedEmpty(entries, n - 1);
    }
  }

  /** Every edit handed back by some file is in the collected list, and nothing else is. */
  lemma {:induction false} AllDroppedMembers(entries: seq<(string, seq<TextChange>)>, n: nat, c: TextChange)
    requires n <= |entries|
    ensures c in AllDropped(entries, n) <==> exists i :: 0 <= i < n && c in Resolve(entries[i].1).dropped
  {
    if n > 0 {
      AllDroppedMembers(entries, n - 1, c);
      if c in Resolve(entries[n - 1].1).dropped {
        assert 0 <= n - 1 < n;
      }
    }
  }

  /**
   * As written, an earlier file's conflict is forgotten once a later file comes out
   * clean: file `a.ts` has two overlapping edits, `b.ts` none, and the pass reports
   * nothing left over, so no second pass follows.
   */
  lemma LastDroppedLosesConflicts()
    ensures var x, y := TextChange(0, 2, "x"), TextChange(1, 1, "y");
      var entries := [("a.ts", [y, x]), ("b.ts", [])];
      && LastDropped(entries, 2) == []
      && AllDropped(entries, 2) == [y]
  {
    var x, y := TextChange(0, 2, "x"), TextChange(1, 1, "y");
    OverlapExample();
    var entries := [("a.ts", [y, x]), ("b.ts", [])];
    assert entries[0].1 == [y, x] && entries[1].1 == [];
    assert Resolve([y, x]) == Partition([x], [y]);
    assert Resolve([]) == Partition([], []);
    assert AllDropped(entries, 1) == [y];
  }

  /** doAllTextChanges with `notAppliedChanges` accumulated over the files instead of overwritten. */
  method DoAllTextChangesCollecting(files: map<string, string>, textChanges: TextChangeDict, outputPath: string -> string, host: Host)
    returns (result: Result<seq<TextChange>, string>)
    modifies host
    ensures var entries := textChanges.entries;
      var n := FirstMissing(entries, files);
      && host.written == old(host.written) + Writes(entries, n, files, outputPath)
      && host.logged == old(host.logged) + Updates(entries, n, outputPath)
      && result == if n < |entries| then Err(NotFound(entries[n].0)) else Ok(AllDropped(entries, n))
  {
    var entries := textChanges.entries;
    var notAppliedChanges: seq<TextChange> := [];
    var i := 0;
    while i < |entries|
      invariant AllPresent(entries, files, i)
      invariant host.written == old(host.written) + Writes(entries, i, files, outputPath)
      invariant host.logged == old(host.logged) + Updates(entries, i, outputPath)
      invariant notAppliedChanges == AllDropped(entries, i)
    {
      var fileName, fileFixes := entries[i].0, entries[i].1;
      if fileName !in files {
        FirstMissingAt(entries, files, i);
        return Err(NotFound(fileName));
      }
      var out := PatchEntry(entries, i, files, outputPath, host, old(host.written), old(host.logged));
      notAppliedChanges := notAppliedChanges + out;
      i := i + 1;
    }
    FirstMissingAt(entries, files, i);
    return Ok(notAppliedChanges);
  }

  // ---------------------------------------------------------------------------
  // Fixes for the diagnostics
  // ---------------------------------------------------------------------------

  /** The language service's getCodeFixesAtPosition: file, start, end and error code in, fixes out. */
  type FixService = (string, nat, nat, int) -> seq<CodeFixAction>

  predicate Located(d: Diagnostic)
  {
    d.fileName.Some? && d.start.Some? && d.length.Some?
  }

  /** The fixes asked for one diagnostic: none when its file or position is missing. */
  function FixesAt(service: FixService, d: Diagnostic): (r: seq<CodeFixAction>)
    ensures !Located(d) ==> r == []
  {
    if Located(d) then service(d.fileName.value, d.start.value, d.start.value + d.length.value, d.code)
    else []
  }

  /** getCodeFixesForFile: the fixes of every diagnostic, concatenated in order. */
  function GetCodeFixesForFile(service: FixService, diagnostics: seq<Diagnostic>): seq<CodeFixAction>
  {
    if diagnostics == [] then []
    else GetCodeFixesForFile(service, diagnostics[..|diagnostics| - 1]) + FixesAt(service, diagnostics[|diagnostics| - 1])
  }

  function LocatedOnly(diagnostics: seq<Diagnostic>): seq<Diagnostic>
  {
    if diagnostics == [] then []
    else
      var last := diagnostics[|diagnostics| - 1];
      LocatedOnly(diagnostics[..|diagnostics| - 1]) + (if Located(last) then [last] else [])
  }

  /** Diagnostics without a file or a position contribute no fix. */
  lemma {:induction false} UnlocatedContributeNothing(service: FixService, diagnostics: seq<Diagnostic>)
    ensures GetCodeFixesForFile(service, diagnostics) == GetCodeFixesForFile(service, LocatedOnly(diagnostics))
  {
    if diagnostics != [] {
      var front, last := diagnostics[..|diagnostics| - 1], diagnostics[|diagnostics| - 1];
      UnlocatedContributeNothing(service, front);
      if Located(last) {
        var l := LocatedOnly(front) + [last];
        assert l[..|l| - 1] == LocatedOnly(front);
      } else {
        assert LocatedOnly(diagnostics) == LocatedOnly(front);
        assert GetCodeFixesForFile(service, diagnostics) == GetCodeFixesForFile(service, front) + [];
      }
    }
  }

  /** The fixes of the files' diagnostics, file after file (`_.flatten` of the per-file lists). */
  function CodeFixes(service: FixService, diagnosticsPerFile: seq<seq<Diagnostic>>): seq<CodeFixAction>
  {
    if diagnosticsPerFile == [] then []
    else
      var front, last := diagnosticsPerFile[..|diagnosticsPerFile| - 1], diagnosticsPerFile[|diagnosticsPerFile| - 1];
      CodeFixes(service, front) + GetCodeFixesForFile(service, last)
  }

  // ---------------------------------------------------------------------------
  // A pass, and the two-pass driver
  // ---------------------------------------------------------------------------

  /** The options a pass reads; the output folder is in the `outputPath` function. */
  datatype Options = Options(errorCode: seq<int>, fixName: seq<string>)

  /** What loading the project gives: the files' texts, their diagnostics, and the fix service. */
  datatype Project = Project(files: map<string, string>, diagnostics: seq<seq<Diagnostic>>, service: FixService)

  /** The lines logged for the filter's messages. */
  function Texts(reports: seq<Report>): seq<string>
  {
    seq(|reports|, i requires 0 <= i < |reports| => Text(reports[i]))
  }

  /** The edits a pass applies, grouped by file. */
  function PassEdits(project: Project, opt: Options): TextChangeDict
  {
    var selected := Selected(project.diagnostics, opt.errorCode);
    Collect(FlattenFixes(FilterCodeFixesByFixName(CodeFixes(project.service, selected), opt.fixName)))
  }

  /** What a pass returns: an error when the project did not load or lacks a file, else the leftovers. */
  function PassResult(project: Option<Project>, opt: Options): Result<seq<TextChange>, string>
  {
    match project
    case None => Err("Could not create project")
    case Some(p) => DoAllResult(PassEdits(p, opt).entries, p.files)
  }

  /** The files a pass writes, in order: none when the project did not load. */
  ghost function PassWrites(project: Option<Project>, opt: Options, outputPath: string -> string): seq<(string, string)>
  {
    match project
    case None => []
    case Some(p) =>
      var entries := PassEdits(p, opt).entries;
      Writes(entries, FirstMissing(entries, p.files), p.files, outputPath)
  }

  /**
   * The lines a pass logs, in order: none when the project did not load, else the
   * filter's messages followed by one "Updated" line per file written.
   */
  ghost function PassLog(project: Option<Project>, opt: Options, outputPath: string -> string): seq<string>
  {
    match project
    case None => []
    case Some(p) =>
      var entries := PassEdits(p, opt).entries;
      Texts(Reports(p.diagnostics, opt.errorCode)) + Updates(entries, FirstMissing(entries, p.files), outputPath)
  }

  method LogAll(lines: seq<string>, host: Host)
    modifies host
    ensures host.logged == old(host.logged) + lines
    ensures host.written == old(host.written)
  {
    var i := 0;
    while i < |lines|
      invariant 0 <= i <= |lines|
      invariant host.logged == old(host.logged) + lines[..i]
      invariant host.written == old(host.written)
    {
      host.Log(lines[i]);
      assert lines[..i + 1] == lines[..i] + [lines[i]];
      i := i + 1;
    }
    assert lines[..i] == lines;
  }

  /**
   * applyCodefixesOverProject: filter the diagnostics and log what was found, collect the
   * fixes, group their edits by file, and patch and write the files.
   */
  method ApplyCodefixesOverProject(project: Option<Project>, opt: Options, outputPath: string -> string, host: Host)
    returns (result: Result<seq<TextChange>, string>)
    modifies host
    ensures result == PassResult(project, opt)
    ensures host.written == old(host.written) + PassWrites(project, opt, outputPath)
    ensures host.logged == old(host.logged) + PassLog(project, opt, outputPath)
  {
    if project.None? {
      return Err("Could not create project");
    }
    ghost var before := host.logged;
    var p := project.value;
    result := PatchProject(p, opt, outputPath, host);
    ghost var entries := PassEdits(p, opt).entries;
    ghost var texts, updates := Texts(Reports(p.diagnostics, opt.errorCode)), Updates(entries, FirstMissing(entries, p.files), outputPath);
    AppendRegroup(before, texts, updates);
  }

  /** The part of applyCodefixesOverProject that runs once the project has loaded. */
  method PatchProject(p: Project, opt: Options, outputPath: string -> string, host: Host)
    returns (result: Result<seq<TextChange>, string>)
    modifies host
    ensures result == PassResult(Some(p), opt)
    ensures var entries := PassEdits(p, opt).entries;
      var n := FirstMissing(entries, p.files);
      && host.written == old(host.written) + Writes(entries, n, p.files, outputPath)
      && host.logged == old(host.logged) + Texts(Reports(p.diagnostics, opt.errorCode)) + Updates(entries, n, outputPath)
  {
    var filteredDiagnostics, acceptedDiagnosticsOut := FilterDiagnosticsByErrorCode(p.diagnostics, opt.errorCode);
    LogAll(Texts(acceptedDiagnosticsOut), host);
    var codefixes := CodeFixes(p.service, filteredDiagnostics);
    var textChangesByFile := GetTextChangeDict(codefixes, opt.fixName);
    assert textChangesByFile == PassEdits(p, opt);
    result := DoAllTextChanges(p.files, textChangesByFile, outputPath, host);
  }

  /**
   * codefixProject: one pass, and a second one exactly when the first succeeded and
   * left edits unapplied; the result is that of the last pass run. Each pass loads the
   * project anew, so each is given its own snapshot.
   */
  method CodefixProject(first: Option<Project>, second: Option<Project>, opt: Options, outputPath: string -> string, host: Host)
    returns (result: Result<seq<TextChange>, string>)
    modifies host
    ensures var r := PassResult(first, opt);
      result == if r.Ok? && r.value != [] then PassResult(second, opt) else r
    ensures var r := PassResult(first, opt);
      host.written == old(host.written) + PassWrites(first, opt, outputPath)
        + (if r.Ok? && r.value != [] then PassWrites(second, opt, outputPath) else [])
    ensures var r := PassResult(first, opt);
      host.logged == old(host.logged) + PassLog(first, opt, outputPath)
        + (if r.Ok? && r.value != [] then PassLog(second, opt, outputPath) else [])
  {
    var firstPassLeftover := ApplyCodefixesOverProject(first, opt, outputPath, host);
    if firstPassLeftover.Ok? && |firstPassLeftover.value| > 0 {
      result := ApplyCodefixesOverProject(second, opt, outputPath, host);
      return;
    }
    result := firstPassLeftover;
  }
}
