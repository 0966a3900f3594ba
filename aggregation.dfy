/**
 * Aggregation of fix actions into per-file edit lists: the fix-name allow-list, and the
 * insertion-ordered map from file name to the concatenation of that file's edits.
 */
module Aggregation {
  import opened Wrappers
  import opened Edits
  import opened Sequences

  // ---------------------------------------------------------------------------
  // filterCodeFixesByFixName
  // ---------------------------------------------------------------------------

  /** `Array.prototype.filter` keeping the fixes whose name is listed. */
  function KeepNamed(codefixes: seq<CodeFixAction>, fixName: seq<string>): (r: seq<CodeFixAction>)
    ensures |r| <= |codefixes|
    ensures forall x :: x in r <==> x in codefixes && x.fixName in fixName
  {
    if codefixes == [] then []
    else
      var last := codefixes[|codefixes| - 1];
      KeepNamed(codefixes[..|codefixes| - 1], fixName) + (if last.fixName in fixName then [last] else [])
  }

  /** The filter distributes over concatenation, so it keeps the input's relative order. */
  lemma {:induction false} KeepNamedAppend(a: seq<CodeFixAction>, b: seq<CodeFixAction>, fixName: seq<string>)
    ensures KeepNamed(a + b, fixName) == KeepNamed(a, fixName) + KeepNamed(b, fixName)
    decreases |b|
  {
    if b == [] {
      assert a + b == a;
    } else {
      assert (a + b)[..|a + b| - 1] == a + b[..|b| - 1];
      KeepNamedAppend(a, b[..|b| - 1], fixName);
    }
  }

  /**
   * filterCodeFixesByFixName: an empty allow-list keeps every fix; otherwise only the
   * fixes whose name is listed remain, in their original order.
   */
  function FilterCodeFixesByFixName(codefixes: seq<CodeFixAction>, fixName: seq<string>): (r: seq<CodeFixAction>)
    ensures fixName == [] ==> r == codefixes
    ensures forall x :: x in r <==> x in codefixes && (fixName == [] || x.fixName in fixName)
  {
    if |fixName| == 0 then codefixes else KeepNamed(codefixes, fixName)
  }

  /** Filtering twice by the same allow-list is filtering once. */
  lemma {:induction false} FilterByFixNameIdempotent(codefixes: seq<CodeFixAction>, fixName: seq<string>)
    ensures FilterCodeFixesByFixName(FilterCodeFixesByFixName(codefixes, fixName), fixName)
         == FilterCodeFixesByFixName(codefixes, fixName)
  {
    if fixName != [] {
      KeepNamedIdempotent(codefixes, fixName);
    }
  }

  lemma {:induction false} KeepNamedIdempotent(codefixes: seq<CodeFixAction>, fixName: seq<string>)
    ensures KeepNamed(KeepNamed(codefixes, fixName), fixName) == KeepNamed(codefixes, fixName)
  {
    if codefixes != [] {
      var front, last := codefixes[..|codefixes| - 1], codefixes[|codefixes| - 1];
      var kept := if last.fixName in fixName then [last] else [];
      KeepNamedIdempotent(front, fixName);
      KeepNamedAppend(KeepNamed(front, fixName), kept, fixName);
      assert KeepNamed(kept, fixName) == kept by {
        if kept != [] {
          assert kept[..0] == [];
        }
      }
    }
  }

  // ---------------------------------------------------------------------------
  // An insertion-ordered map, as JavaScript's Map
  // ---------------------------------------------------------------------------

  /** Map<string, TextChange[]>: its entries in insertion order. */
  datatype TextChangeDict = TextChangeDict(entries: seq<(string, seq<TextChange>)>)

  function Keys(d: TextChangeDict): (keys: seq<string>)
    ensures |keys| == |d.entries|
    ensures forall i :: 0 <= i < |keys| ==> keys[i] == d.entries[i].0
  {
    seq(|d.entries|, i requires 0 <= i < |d.entries| => d.entries[i].0)
  }

  ghost predicate DistinctKeys(d: TextChangeDict)
  {
    forall i, j :: 0 <= i < j < |d.entries| ==> d.entries[i].0 != d.entries[j].0
  }

  /** Map.get: the value stored under `key`, or nothing (`undefined`). */
  function Get(d: TextChangeDict, key: string): (r: Option<seq<TextChange>>)
    ensures r.None? <==> key !in Keys(d)
  {
    var i := FirstIndex(Keys(d), key);
    if i < |d.entries| then Some(d.entries[i].1) else None
  }

  /** Map.set: replaces the value of a present key where it stands; appends a new key. */
  function Set(d: TextChangeDict, key: string, value: seq<TextChange>): (r: TextChangeDict)
    ensures key in Keys(d) ==> Keys(r) == Keys(d)
    ensures key !in Keys(d) ==> Keys(r) == Keys(d) + [key]
  {
    var i := FirstIndex(Keys(d), key);
    if i < |d.entries| then TextChangeDict(d.entries[i := (key, value)])
    else TextChangeDict(d.entries + [(key, value)])
  }

  /** Reading after writing: the written key has the new value, every other key keeps its own. */
  lemma SetThenGet(d: TextChangeDict, key: string, value: seq<TextChange>, other: string)
    requires DistinctKeys(d)
    ensures DistinctKeys(Set(d, key, value))
    ensures Get(Set(d, key, value), other) == if other == key then Some(value) else Get(d, other)
  {
    var r := Set(d, key, value);
    var i := FirstIndex(Keys(d), key);
    var j := FirstIndex(Keys(d), other);
    var j' := FirstIndex(Keys(r), other);
    if other != key && j < |d.entries| {
      assert Keys(r)[j] == other;
      assert j' == j;
    }
  }

  // ---------------------------------------------------------------------------
  // getTextChangeDict
  // ---------------------------------------------------------------------------

  /** getFileNameAndTextChangesFromCodeFix: the target file and a copy of its edits. */
  function GetFileNameAndTextChangesFromCodeFix(ftchanges: FileTextChanges): (string, seq<TextChange>)
  {
    (ftchanges.fileName, ftchanges.textChanges)
  }

  /** Every file-level edit group of every fix, fix by fix. */
  function FlattenFixes(codefixes: seq<CodeFixAction>): seq<FileTextChanges>
  {
    if codefixes == [] then []
    else FlattenFixes(codefixes[..|codefixes| - 1]) + codefixes[|codefixes| - 1].changes
  }

  function FileNames(groups: seq<FileTextChanges>): (names: seq<string>)
    ensures |names| == |groups|
    ensures forall i :: 0 <= i < |names| ==> names[i] == groups[i].fileName
  {
    seq(|groups|, i requires 0 <= i < |groups| => groups[i].fileName)
  }

  /** The reference definition: every edit aimed at `fileName`, in encounter order. */
  function ChangesFor(groups: seq<FileTextChanges>, fileName: string): seq<TextChange>
  {
    if groups == [] then []
    else
      var last := groups[|groups| - 1];
      ChangesFor(groups[..|groups| - 1], fileName) + (if last.fileName == fileName then last.textChanges else [])
  }

  /** One step of the inner loop: append the group's edits under its file name. */
  function AddGroup(d: TextChangeDict, group: FileTextChanges): TextChangeDict
  {
    var (key, value) := GetFileNameAndTextChangesFromCodeFix(group);
    match Get(d, key)
    case None => Set(d, key, value)
    case Some(prevVal) => Set(d, key, prevVal + value)
  }

  /** The map the loops build from a list of edit groups. */
  function Collect(groups: seq<FileTextChanges>): TextChangeDict
  {
    if groups == [] then TextChangeDict([])
    else AddGroup(Collect(groups[..|groups| - 1]), groups[|groups| - 1])
  }

  /** What one step of the inner loop does to the map. */
  lemma AddGroupEffect(d: TextChangeDict, g: FileTextChanges, k: string)
    requires DistinctKeys(d)
    ensures DistinctKeys(AddGroup(d, g))
    ensures Keys(AddGroup(d, g)) == if g.fileName in Keys(d) then Keys(d) else Keys(d) + [g.fileName]
    ensures Get(AddGroup(d, g), k) ==
      if k != g.fileName then Get(d, k)
      else if k in Keys(d) then Some(Get(d, k).value + g.textChanges)
      else Some(g.textChanges)
  {
    match Get(d, g.fileName)
    case None =>
      SetThenGet(d, g.fileName, g.textChanges, k);
    case Some(prev) =>
      SetThenGet(d, g.fileName, prev + g.textChanges, k);
  }

  /** The keys of the map are exactly the file names that occur, each once. */
  lemma {:induction false} CollectKeys(groups: seq<FileTextChanges>)
    ensures DistinctKeys(Collect(groups))
    ensures forall k :: k in Keys(Collect(groups)) <==> k in FileNames(groups)
  {
    if groups != [] {
      var front, g := groups[..|groups| - 1], groups[|groups| - 1];
      CollectKeys(front);
      AddGroupEffect(Collect(front), g, g.fileName);
      assert FileNames(groups) == FileNames(front) + [g.fileName];
    }
  }

  /** Under each file name: the concatenation of that file's edits, in encounter order. */
  lemma {:induction false} CollectValues(groups: seq<FileTextChanges>, k: string)
    ensures Get(Collect(groups), k) == if k in FileNames(groups) then Some(ChangesFor(groups, k)) else None
  {
    if groups != [] {
      var front, g := groups[..|groups| - 1], groups[|groups| - 1];
      var d := Collect(front);
      assert Collect(groups) == AddGroup(d, g);
      assert ChangesFor(groups, k) == ChangesFor(front, k) + (if g.fileName == k then g.textChanges else []);
      CollectKeys(front);
      CollectValues(front, k);
      AddGroupEffect(d, g, k);
      assert FileNames(groups) == FileNames(front) + [g.fileName];
      if k != g.fileName {
        assert ChangesFor(groups, k) == ChangesFor(front, k);
        assert k in FileNames(groups) <==> k in FileNames(front);
      } else if k in FileNames(front) {
        assert Get(d, k) == Some(ChangesFor(front, k));
      } else {
        assert k !in Keys(d);
        ChangesForAbsent(front, k);
        assert ChangesFor(groups, k) == g.textChanges;
      }
    }
  }

  lemma {:induction false} ChangesForAbsent(groups: seq<FileTextChanges>, k: string)
    requires k !in FileNames(groups)
    ensures ChangesFor(groups, k) == []
  {
    if groups != [] {
      var front := groups[..|groups| - 1];
      assert FileNames(groups) == FileNames(front) + [groups[|groups| - 1].fileName];
      ChangesForAbsent(front, k);
    }
  }

  lemma CollectSnoc(groups: seq<FileTextChanges>, g: FileTextChanges)
    ensures Collect(groups + [g]) == AddGroup(Collect(groups), g)
  {
    assert (groups + [g])[..|groups|] == groups;
  }

  /** The keys stand in the order in which their file names first occur. */
  lemma {:induction false} CollectOrder(groups: seq<FileTextChanges>)
    ensures InFirstOccurrenceOrder(FileNames(groups), Keys(Collect(groups)))
  {
    if groups != [] {
      var front, g := groups[..|groups| - 1], groups[|groups| - 1];
      var d := Collect(front);
      var keys, names := Keys(d), FileNames(front);
      CollectKeys(front);
      assert Keys(Collect(groups)) == if g.fileName in keys then keys else keys + [g.fileName] by {
        assert Collect(groups) == AddGroup(d, g);
        AddGroupEffect(d, g, g.fileName);
      }
      assert FileNames(groups) == names + [g.fileName];
      CollectOrder(front);
      FirstOccurrenceOrderAppend(names, keys, g.fileName);
    }
  }

  /**
   * getTextChangeDict: filter the fixes by name, then for every edit group of every
   * remaining fix append its edits to the list stored under its file name.
   */
  method GetTextChangeDict(codefixes: seq<CodeFixAction>, fixName: seq<string>) returns (textChangeDict: TextChangeDict)
    ensures textChangeDict == Collect(FlattenFixes(FilterCodeFixesByFixName(codefixes, fixName)))
  {
    textChangeDict := TextChangeDict([]);
    var filteredFixes := FilterCodeFixesByFixName(codefixes, fixName);
    var i := 0;
    while i < |filteredFixes|
      invariant 0 <= i <= |filteredFixes|
      invariant textChangeDict == Collect(FlattenFixes(filteredFixes[..i]))
    {
      var fix := filteredFixes[i];
      var changes := fix.changes;
      ghost var done := FlattenFixes(filteredFixes[..i]);
      var j := 0;
      PrefixStep(done, changes, 0);
      while j < |changes|
        invariant 0 <= j <= |changes|
        invariant textChangeDict == Collect(done + changes[..j])
      {
        var change := changes[j];
        ghost var before := textChangeDict;
        var (key, value) := GetFileNameAndTextChangesFromCodeFix(change);
        var prevVal := Get(textChangeDict, key);
        if prevVal.None? {
          textChangeDict := Set(textChangeDict, key, value);
        } else {
          textChangeDict := Set(textChangeDict, key, prevVal.value + value);
        }
        assert textChangeDict == AddGroup(before, change);
        CollectSnoc(done + changes[..j], change);
        PrefixStep(done, changes, j);
        j := j + 1;
      }
      assert filteredFixes[..i + 1][..i] == filteredFixes[..i];
      assert changes[..j] == changes;
      assert FlattenFixes(filteredFixes[..i + 1]) == done + changes;
      i := i + 1;
    }
    assert filteredFixes[..i] == filteredFixes;
  }
}
