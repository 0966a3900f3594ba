/**
 * The patch engine: one splice per change, applied from the last change to the first
 * so that every change's offsets, given in the original text, still hold when it is
 * applied.
 */
module Patch {
  import opened Edits

  /** JavaScript's `substring` clamps an offset past the end of the string to its length. */
  function Clamp(offset: nat, length: nat): (r: nat)
    ensures r <= length
    ensures r == offset || (offset > length && r == length)
  {
    if offset <= length then offset else length
  }

  /**
   * doTextChangeOnString: the text before `start`, then `newText`, then the text from
   * `start + length` on, with JavaScript's clamping of offsets past the end.
   */
  function DoTextChangeOnString(text: string, change: TextChange): string
  {
    var prefix := text[..Clamp(change.start, |text|)];
    var suffix := text[Clamp(End(change), |text|)..];
    prefix + change.newText + suffix
  }

  /** What one splice does, for a span inside the text, running past its end, or past it altogether. */
  lemma SpliceEffect(text: string, change: TextChange)
    // In bounds: only the replaced span changes.
    ensures var r := DoTextChangeOnString(text, change);
      End(change) <= |text| ==>
      && |r| == |text| - change.length + |change.newText|
      && r[..change.start] == text[..change.start]
      && r[change.start..change.start + |change.newText|] == change.newText
      && r[change.start + |change.newText|..] == text[End(change)..]
    // A span that runs past the end removes everything from its start.
    ensures change.start <= |text| < End(change) ==>
      DoTextChangeOnString(text, change) == text[..change.start] + change.newText
    // A span that starts at or past the end appends.
    ensures |text| <= change.start ==> DoTextChangeOnString(text, change) == text + change.newText
  {
    var r := DoTextChangeOnString(text, change);
    if End(change) <= |text| {
      assert r == text[..change.start] + change.newText + text[End(change)..];
    }
  }

  /** The change that restores what `change` replaced, in the coordinates of the patched text. */
  function Undo(text: string, change: TextChange): TextChange
    requires End(change) <= |text|
  {
    TextChange(change.start, |change.newText|, text[change.start..End(change)])
  }

  /** An in-bounds splice is undone by splicing the replaced text back. */
  lemma UndoRestores(text: string, change: TextChange)
    requires End(change) <= |text|
    ensures DoTextChangeOnString(DoTextChangeOnString(text, change), Undo(text, change)) == text
  {
    var patched := DoTextChangeOnString(text, change);
    var back := Undo(text, change);
    assert End(back) <= |patched|;
    assert text == text[..change.start] + text[change.start..End(change)] + text[End(change)..];
  }

  /** `"abcdef"` with {1, 2, "XYZ"} becomes `"aXYZdef"`. */
  lemma SpliceExample()
    ensures DoTextChangeOnString("abcdef", TextChange(1, 2, "XYZ")) == "aXYZdef"
  {
  }

  // ---------------------------------------------------------------------------
  // Applying a list of changes
  // ---------------------------------------------------------------------------

  /** What doTextChanges computes: splice the last change, then the rest, from the back. */
  function ApplyFromLast(text: string, changes: seq<TextChange>): string
    decreases |changes|
  {
    if changes == [] then text
    else ApplyFromLast(DoTextChangeOnString(text, changes[|changes| - 1]), changes[..|changes| - 1])
  }

  /** No change overlaps a later one (touching is allowed here). */
  ghost predicate NonOverlapping(changes: seq<TextChange>)
  {
    forall i, j :: 0 <= i < j < |changes| ==> End(changes[i]) <= changes[j].start
  }

  ghost predicate WithinText(changes: seq<TextChange>, n: nat)
  {
    forall i :: 0 <= i < |changes| ==> End(changes[i]) <= n
  }

  ghost predicate StartFrom(changes: seq<TextChange>, from: nat)
  {
    forall i :: 0 <= i < |changes| ==> from <= changes[i].start
  }

  /**
   * The reference reading of a change list: walk the ORIGINAL text left to right, copying
   * the text between changes and writing each change's new text in place of its span.
   */
  ghost function Rebuild(text: string, changes: seq<TextChange>, from: nat): string
    requires from <= |text|
    requires NonOverlapping(changes) && WithinText(changes, |text|) && StartFrom(changes, from)
    decreases |changes|
  {
    if changes == [] then text[from..]
    else
      var c := changes[0];
      text[from..c.start] + c.newText + Rebuild(text, changes[1..], End(c))
  }

  lemma {:induction false} RebuildAppend(p: string, q: string, changes: seq<TextChange>, from: nat)
    requires from <= |p|
    requires NonOverlapping(changes) && WithinText(changes, |p|) && StartFrom(changes, from)
    ensures Rebuild(p + q, changes, from) == Rebuild(p, changes, from) + q
    decreases |changes|
  {
    if changes == [] {
      assert (p + q)[from..] == p[from..] + q;
    } else {
      var c := changes[0];
      RebuildAppend(p, q, changes[1..], End(c));
      assert (p + q)[from..c.start] == p[from..c.start];
    }
  }

  /** Splitting off the last change of a well-formed list leaves a well-formed list before it. */
  lemma SplitLast(changes: seq<TextChange>, c: TextChange, n: nat, from: nat)
    requires NonOverlapping(changes + [c]) && WithinText(changes + [c], n) && StartFrom(changes + [c], from)
    ensures NonOverlapping(changes) && WithinText(changes, c.start) && StartFrom(changes, from)
    ensures from <= c.start && End(c) <= n
  {
    var all := changes + [c];
    assert all[|changes|] == c;
    forall i | 0 <= i < |changes| ensures all[i] == changes[i] && End(changes[i]) <= c.start {
      assert all[i] == changes[i];
    }
  }

  /** Dropping the first change of a well-formed list leaves a list that starts after it. */
  lemma DropFirst(changes: seq<TextChange>, n: nat, from: nat)
    requires changes != []
    requires NonOverlapping(changes) && WithinText(changes, n) && StartFrom(changes, from)
    ensures NonOverlapping(changes[1..]) && WithinText(changes[1..], n) && StartFrom(changes[1..], End(changes[0]))
    ensures from <= changes[0].start && End(changes[0]) <= n
  {
    var rest := changes[1..];
    forall i | 0 <= i < |rest| ensures End(changes[0]) <= rest[i].start {
      assert rest[i] == changes[i + 1];
    }
  }

  lemma WithinTextWider(changes: seq<TextChange>, n: nat, m: nat)
    requires WithinText(changes, n) && n <= m
    ensures WithinText(changes, m)
  {
  }

  lemma SliceOfPrefix(text: string, k: nat, i: nat, j: nat)
    requires i <= j <= k <= |text|
    ensures text[..k][i..j] == text[i..j]
    ensures text[..k][i..] == text[i..k]
  {
  }

  lemma {:induction false} RebuildLast(text: string, changes: seq<TextChange>, c: TextChange, from: nat)
    requires from <= c.start && End(c) <= |text|
    requires NonOverlapping(changes + [c]) && WithinText(changes + [c], |text|) && StartFrom(changes + [c], from)
    requires NonOverlapping(changes) && WithinText(changes, c.start) && StartFrom(changes, from)
    ensures Rebuild(text, changes + [c], from) == Rebuild(text[..c.start], changes, from) + c.newText + text[End(c)..]
    decreases |changes|
  {
    var all := changes + [c];
    if changes == [] {
      assert all[1..] == [];
      SliceOfPrefix(text, c.start, from, c.start);
    } else {
      var d, rest := changes[0], changes[1..];
      assert all[0] == d && all[1..] == rest + [c];
      DropFirst(all, |text|, from);
      DropFirst(changes, c.start, from);
      var head := text[from..d.start] + d.newText;
      RebuildLast(text, rest, c, End(d));
      var prefix := text[..c.start];
      assert Rebuild(prefix, changes, from) == head + Rebuild(prefix, rest, End(d)) by {
        SliceOfPrefix(text, c.start, from, d.start);
      }
    }
  }

  /** Splitting off the last change of a well-formed list, in the reference reading. */
  lemma RebuildSplit(text: string, front: seq<TextChange>, c: TextChange)
    requires NonOverlapping(front + [c]) && WithinText(front + [c], |text|)
    ensures NonOverlapping(front) && WithinText(front, c.start) && End(c) <= |text|
    ensures Rebuild(text, front + [c], 0) == Rebuild(text[..c.start], front, 0) + (c.newText + text[End(c)..])
  {
    SplitLast(front, c, |text|, 0);
    RebuildLast(text, front, c, 0);
  }

  /** An in-bounds splice, with the text after the change's start regrouped. */
  lemma SpliceInBounds(text: string, c: TextChange)
    requires End(c) <= |text|
    ensures DoTextChangeOnString(text, c) == text[..c.start] + (c.newText + text[End(c)..])
  {
    assert Clamp(c.start, |text|) == c.start && Clamp(End(c), |text|) == End(c);
  }

  /**
   * Applying non-overlapping, in-bounds changes from the last to the first gives the
   * same text as one left-to-right rewrite of the original text at the original offsets.
   */
  lemma {:induction false} ApplyFromLastIsRebuild(text: string, changes: seq<TextChange>)
    requires NonOverlapping(changes) && WithinText(changes, |text|)
    ensures ApplyFromLast(text, changes) == Rebuild(text, changes, 0)
    decreases |changes|
  {
    if changes != [] {
      var front, c := changes[..|changes| - 1], changes[|changes| - 1];
      assert changes == front + [c];
      RebuildSplit(text, front, c);
      SpliceInBounds(text, c);
      var p, q := text[..c.start], c.newText + text[End(c)..];
      WithinTextWider(front, c.start, |p + q|);
      ApplyFromLastIsRebuild(p + q, front);
      RebuildAppend(p, q, front, 0);
    }
  }

  /** An empty change list leaves the text as it is. */
  lemma NoChangesIsIdentity(text: string)
    ensures ApplyFromLast(text, []) == text
  {
  }

  /** The patched text's length: each change trades its span for its new text. */
  ghost function LengthDelta(changes: seq<TextChange>): int
  {
    if changes == [] then 0
    else LengthDelta(changes[..|changes| - 1]) + |changes[|changes| - 1].newText| - changes[|changes| - 1].length
  }

  lemma {:induction false} ApplyFromLastLength(text: string, changes: seq<TextChange>)
    requires NonOverlapping(changes) && WithinText(changes, |text|)
    ensures |ApplyFromLast(text, changes)| == |text| + LengthDelta(changes)
    decreases |changes|
  {
    if changes != [] {
      var front, c := changes[..|changes| - 1], changes[|changes| - 1];
      var patched := DoTextChangeOnString(text, c);
      assert forall i :: 0 <= i < |front| ==> front[i] == changes[i];
      assert forall i :: 0 <= i < |front| ==> End(front[i]) <= c.start;
      ApplyFromLastLength(patched, front);
    }
  }

  /** doTextChanges: the loop from the last change down to the first. */
  method DoTextChanges(fileText: string, textChanges: seq<TextChange>) returns (r: string)
    ensures r == ApplyFromLast(fileText, textChanges)
    ensures NonOverlapping(textChanges) && WithinText(textChanges, |fileText|) ==>
      r == Rebuild(fileText, textChanges, 0)
  {
    r := fileText;
    var i := |textChanges|;
    assert textChanges[..i] == textChanges;
    while i > 0
      invariant 0 <= i <= |textChanges|
      invariant ApplyFromLast(r, textChanges[..i]) == ApplyFromLast(fileText, textChanges)
    {
      assert textChanges[..i][..i - 1] == textChanges[..i - 1];
      r := DoTextChangeOnString(r, textChanges[i - 1]);
      i := i - 1;
    }
    if NonOverlapping(textChanges) && WithinText(textChanges, |fileText|) {
      ApplyFromLastIsRebuild(fileText, textChanges);
    }
  }

  /** applyChangestoFile: expects a sorted, filtered list and hands it to doTextChanges. */
  method ApplyChangesToFile(originalContents: string, fixList: seq<TextChange>) returns (newFileContents: string)
    ensures newFileContents == ApplyFromLast(originalContents, fixList)
    ensures fixList == [] ==> newFileContents == originalContents
    ensures NonOverlapping(fixList) && WithinText(fixList, |originalContents|) ==>
      newFileContents == Rebuild(originalContents, fixList, 0)
      && |newFileContents| == |originalContents| + LengthDelta(fixList)
  {
    newFileContents := DoTextChanges(originalContents, fixList);
    if NonOverlapping(fixList) && WithinText(fixList, |originalContents|) {
      ApplyFromLastLength(originalContents, fixList);
    }
  }
}
