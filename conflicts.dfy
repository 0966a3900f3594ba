/**
 * Conflict resolution for one file's edits: sort by start offset (ties by length),
 * then one greedy sweep that keeps an edit only when it starts strictly after the
 * end of the last kept edit.
 */
module Conflicts {
  import opened Edits

  // ---------------------------------------------------------------------------
  // Ordering
  // ---------------------------------------------------------------------------

  /** The comparator handed to `Array.prototype.sort`: negative, zero or positive. */
  function Compare(a: TextChange, b: TextChange): int
  {
    if a.start - b.start == 0 then a.length - b.length else a.start - b.start
  }

  /** The comparator's sort key: the span, ignoring the replacement text. */
  function Key(c: TextChange): (nat, nat)
  {
    (c.start, c.length)
  }

  /** The comparator is the lexicographic order on (start, length). */
  lemma CompareIsLexicographic(a: TextChange, b: TextChange)
    ensures Compare(a, b) < 0 <==> a.start < b.start || (a.start == b.start && a.length < b.length)
    ensures Compare(a, b) == 0 <==> Key(a) == Key(b)
    ensures Compare(a, b) == -Compare(b, a)
  {
  }

  ghost predicate SortedByStart(s: seq<TextChange>)
  {
    forall i, j :: 0 <= i < j < |s| ==> Compare(s[i], s[j]) <= 0
  }

  /** The elements of `s` whose span is `k`, in their order in `s`. */
  function WithKey(s: seq<TextChange>, k: (nat, nat)): seq<TextChange>
  {
    if s == [] then []
    else WithKey(s[..|s| - 1], k) + (if Key(s[|s| - 1]) == k then [s[|s| - 1]] else [])
  }

  // ---------------------------------------------------------------------------
  // Stable sort: the specification of sortChangesByStart
  // ---------------------------------------------------------------------------

  /** Places `x` after every element of `t` that does not compare greater than it. */
  function Insert(t: seq<TextChange>, x: TextChange): seq<TextChange>
  {
    if t == [] || Compare(t[|t| - 1], x) <= 0 then t + [x]
    else Insert(t[..|t| - 1], x) + [t[|t| - 1]]
  }

  /** The stable sort of `s` by the comparator. */
  function SortByStart(s: seq<TextChange>): seq<TextChange>
  {
    if s == [] then [] else Insert(SortByStart(s[..|s| - 1]), s[|s| - 1])
  }

  /** Where the insertion lands when the elements from `j` on are exactly the greater ones. */
  lemma {:induction false} InsertAt(t: seq<TextChange>, x: TextChange, j: nat)
    requires j <= |t|
    requires forall k :: j <= k < |t| ==> Compare(t[k], x) > 0
    requires j == 0 || Compare(t[j - 1], x) <= 0
    ensures Insert(t, x) == t[..j] + [x] + t[j..]
    decreases |t| - j
  {
    if j < |t| {
      var t' := t[..|t| - 1];
      InsertAt(t', x, j);
      assert t'[..j] == t[..j];
      assert t'[j..] + [t[|t| - 1]] == t[j..];
    }
  }

  lemma {:induction false} InsertPermutes(t: seq<TextChange>, x: TextChange)
    ensures multiset(Insert(t, x)) == multiset(t) + multiset{x}
  {
    if t != [] && Compare(t[|t| - 1], x) > 0 {
      InsertPermutes(t[..|t| - 1], x);
      assert t == t[..|t| - 1] + [t[|t| - 1]];
    }
  }

  lemma {:induction false} InsertSorted(t: seq<TextChange>, x: TextChange)
    requires SortedByStart(t)
    ensures SortedByStart(Insert(t, x))
  {
    if t != [] && Compare(t[|t| - 1], x) > 0 {
      var t', y := t[..|t| - 1], t[|t| - 1];
      InsertSorted(t', x);
      InsertPermutes(t', x);
      var u := Insert(t', x);
      forall i | 0 <= i < |u|
        ensures Compare(u[i], y) <= 0
      {
        assert u[i] in multiset(u);
        assert u[i] in multiset(t') || u[i] == x;
        if u[i] != x {
          var k :| 0 <= k < |t'| && t'[k] == u[i];
          assert t[k] == u[i];
        }
      }
    }
  }

  lemma {:induction false} WithKeyAppend(a: seq<TextChange>, b: seq<TextChange>, k: (nat, nat))
    ensures WithKey(a + b, k) == WithKey(a, k) + WithKey(b, k)
    decreases |b|
  {
    if b != [] {
      var b' := b[..|b| - 1];
      assert (a + b)[..|a + b| - 1] == a + b';
      WithKeyAppend(a, b', k);
    } else {
      assert a + b == a;
    }
  }

  lemma {:induction false} InsertKeepsKeyOrder(t: seq<TextChange>, x: TextChange, k: (nat, nat))
    ensures WithKey(Insert(t, x), k) == WithKey(t, k) + (if Key(x) == k then [x] else [])
  {
    if t == [] || Compare(t[|t| - 1], x) <= 0 {
      WithKeyAppend(t, [x], k);
      assert [x][..0] == [];
    } else {
      var t', y := t[..|t| - 1], t[|t| - 1];
      InsertKeepsKeyOrder(t', x, k);
      WithKeyAppend(Insert(t', x), [y], k);
      assert [y][..0] == [];
      CompareIsLexicographic(y, x);
    }
  }

  /** The sort orders by start offset, ties by length, shorter first. */
  lemma {:induction false} SortIsSorted(s: seq<TextChange>)
    ensures SortedByStart(SortByStart(s))
  {
    if s != [] {
      SortIsSorted(s[..|s| - 1]);
      InsertSorted(SortByStart(s[..|s| - 1]), s[|s| - 1]);
    }
  }

  /** The sort returns a permutation of its input. */
  lemma {:induction false} SortPermutes(s: seq<TextChange>)
    ensures multiset(SortByStart(s)) == multiset(s)
  {
    if s != [] {
      SortPermutes(s[..|s| - 1]);
      InsertPermutes(SortByStart(s[..|s| - 1]), s[|s| - 1]);
      assert s == s[..|s| - 1] + [s[|s| - 1]];
    }
  }

  /** The sort is stable: changes with the same span keep their input order. */
  lemma {:induction false} SortIsStable(s: seq<TextChange>, k: (nat, nat))
    ensures WithKey(SortByStart(s), k) == WithKey(s, k)
  {
    if s != [] {
      SortIsStable(s[..|s| - 1], k);
      InsertKeepsKeyOrder(SortByStart(s[..|s| - 1]), s[|s| - 1], k);
    }
  }

  /** Moves `a[i]` left past the elements of the sorted prefix `a[..i]` that compare greater than it. */
  method InsertIntoPrefix(a: array<TextChange>, i: nat)
    requires i < a.Length
    modifies a
    ensures a[..i + 1] == Insert(old(a[..i]), old(a[i]))
    ensures a[i + 1..] == old(a[i + 1..])
  {
    var x := a[i];
    ghost var t, rest := a[..i], a[i + 1..];
    assert a[..] == t + [x] + rest;
    var j := i;
    while j > 0 && Compare(a[j - 1], x) > 0
      invariant 0 <= j <= i
      invariant a[..] == t[..j] + [a[j]] + t[j..] + rest
      invariant forall k :: j <= k < i ==> Compare(t[k], x) > 0
    {
      ShiftStep(a[..], t, rest, j);
      a[j] := a[j - 1];
      j := j - 1;
    }
    InsertFinish(a[..], t, rest, x, j);
    a[j] := x;
  }

  lemma InsertFinish(s: seq<TextChange>, t: seq<TextChange>, rest: seq<TextChange>, x: TextChange, j: nat)
    requires j <= |t| && |s| == |t| + 1 + |rest|
    requires s == t[..j] + [s[j]] + t[j..] + rest
    requires j == 0 || Compare(t[j - 1], x) <= 0
    requires forall k :: j <= k < |t| ==> Compare(t[k], x) > 0
    ensures s[j := x][..|t| + 1] == Insert(t, x)
    ensures s[j := x][|t| + 1..] == rest
  {
    InsertAt(t, x, j);
    assert s[j := x] == t[..j] + [x] + t[j..] + rest;
    assert (t[..j] + [x] + t[j..] + rest)[..|t| + 1] == t[..j] + [x] + t[j..];
  }

  lemma ShiftStep(s: seq<TextChange>, t: seq<TextChange>, rest: seq<TextChange>, j: nat)
    requires 0 < j <= |t|
    requires |s| == |t| + 1 + |rest|
    requires s == t[..j] + [s[j]] + t[j..] + rest
    ensures s[j := s[j - 1]] == t[..j - 1] + [s[j - 1]] + t[j - 1..] + rest
  {
  }

  /**
   * sortChangesByStart: sorts the caller's array in place (insertion sort, which is
   * stable like Array.prototype.sort) and returns that same array.
   */
  method SortChangesByStart(a: array<TextChange>) returns (r: array<TextChange>)
    modifies a
    ensures r == a
    ensures a[..] == SortByStart(old(a[..]))
  {
    ghost var input := a[..];
    var i := 0;
    while i < a.Length
      invariant 0 <= i <= a.Length
      invariant a[..i] == SortByStart(input[..i])
      invariant a[i..] == input[i..]
    {
      assert a[i] == input[i];
      InsertIntoPrefix(a, i);
      assert input[..i + 1][..i] == input[..i];
      assert a[i + 1..] == input[i + 1..];
      i := i + 1;
    }
    assert input[..a.Length] == input;
    assert a[..a.Length] == a[..];
    r := a;
  }

  // ---------------------------------------------------------------------------
  // Greedy sweep: the specification of filterOverlappingFixes
  // ---------------------------------------------------------------------------

  datatype Partition = Partition(kept: seq<TextChange>, dropped: seq<TextChange>)

  /** The sweep over `s` when the last kept change ended at `currentEnd`. */
  function Sweep(s: seq<TextChange>, currentEnd: int): Partition
  {
    if s == [] then Partition([], [])
    else if s[0].start > currentEnd then
      var p := Sweep(s[1..], End(s[0]));
      Partition([s[0]] + p.kept, p.dropped)
    else
      var p := Sweep(s[1..], currentEnd);
      Partition(p.kept, [s[0]] + p.dropped)
  }

  /** The sentinel `currentEnd` starts at, below every real offset. */
  const NoEnd: int := -1

  /**
   * `s` is an interleaving of `kept` and `dropped`: every element of `s` is in exactly
   * one of them, and both keep the order of `s`.
   */
  ghost predicate Interleaves(s: seq<TextChange>, kept: seq<TextChange>, dropped: seq<TextChange>)
    decreases |s|
  {
    if s == [] then kept == [] && dropped == []
    else
      || (kept != [] && kept[0] == s[0] && Interleaves(s[1..], kept[1..], dropped))
      || (dropped != [] && dropped[0] == s[0] && Interleaves(s[1..], kept, dropped[1..]))
  }

  lemma {:induction false} InterleavesCounts(s: seq<TextChange>, kept: seq<TextChange>, dropped: seq<TextChange>)
    requires Interleaves(s, kept, dropped)
    ensures multiset(kept) + multiset(dropped) == multiset(s)
    ensures |kept| + |dropped| == |s|
    decreases |s|
  {
    if s != [] {
      if kept != [] && kept[0] == s[0] && Interleaves(s[1..], kept[1..], dropped) {
        InterleavesCounts(s[1..], kept[1..], dropped);
        assert kept == [kept[0]] + kept[1..];
      } else {
        InterleavesCounts(s[1..], kept, dropped[1..]);
        assert dropped == [dropped[0]] + dropped[1..];
      }
      assert s == [s[0]] + s[1..];
    }
  }

  /** The sweep partitions its input into kept and dropped, preserving order in both. */
  lemma {:induction false} SweepPartitions(s: seq<TextChange>, currentEnd: int)
    ensures Interleaves(s, Sweep(s, currentEnd).kept, Sweep(s, currentEnd).dropped)
    ensures multiset(Sweep(s, currentEnd).kept) + multiset(Sweep(s, currentEnd).dropped) == multiset(s)
    ensures |Sweep(s, currentEnd).kept| + |Sweep(s, currentEnd).dropped| == |s|
    decreases |s|
  {
    if s != [] {
      if s[0].start > currentEnd {
        SweepPartitions(s[1..], End(s[0]));
        assert ([s[0]] + Sweep(s[1..], End(s[0])).kept)[1..] == Sweep(s[1..], End(s[0])).kept;
      } else {
        SweepPartitions(s[1..], currentEnd);
        assert ([s[0]] + Sweep(s[1..], currentEnd).dropped)[1..] == Sweep(s[1..], currentEnd).dropped;
      }
    }
    InterleavesCounts(s, Sweep(s, currentEnd).kept, Sweep(s, currentEnd).dropped);
  }

  /** Every kept change starts strictly after `currentEnd`. */
  lemma {:induction false} SweepKeptAfter(s: seq<TextChange>, currentEnd: int)
    ensures forall i :: 0 <= i < |Sweep(s, currentEnd).kept| ==> Sweep(s, currentEnd).kept[i].start > currentEnd
    decreases |s|
  {
    if s != [] {
      if s[0].start > currentEnd {
        SweepKeptAfter(s[1..], End(s[0]));
      } else {
        SweepKeptAfter(s[1..], currentEnd);
      }
    }
  }

  /**
   * Each kept change starts strictly after the end of the previous kept one: kept
   * changes neither overlap nor touch.
   */
  lemma {:induction false} SweepKeptSeparated(s: seq<TextChange>, currentEnd: int)
    ensures forall i :: 0 < i < |Sweep(s, currentEnd).kept| ==>
      Sweep(s, currentEnd).kept[i].start > End(Sweep(s, currentEnd).kept[i - 1])
    decreases |s|
  {
    if s != [] {
      if s[0].start > currentEnd {
        SweepKeptSeparated(s[1..], End(s[0]));
        SweepKeptAfter(s[1..], End(s[0]));
      } else {
        SweepKeptSeparated(s[1..], currentEnd);
      }
    }
  }

  /** Kept changes are pairwise apart: every later one starts after an earlier one ends. */
  lemma {:induction false} SweepKeptPairwiseApart(s: seq<TextChange>, currentEnd: int)
    ensures forall i, j :: 0 <= i < j < |Sweep(s, currentEnd).kept| ==>
      Sweep(s, currentEnd).kept[j].start > End(Sweep(s, currentEnd).kept[i])
  {
    var kept := Sweep(s, currentEnd).kept;
    SweepKeptSeparated(s, currentEnd);
    forall i, j | 0 <= i < j < |kept|
      ensures kept[j].start > End(kept[i])
    {
      var m := i + 1;
      while m < j
        invariant i < m <= j
        invariant kept[m].start > End(kept[i])
      {
        m := m + 1;
      }
    }
  }

  /** Whether `d` starts inside the span of `k` or exactly at its end. */
  predicate Touches(d: TextChange, k: TextChange)
  {
    k.start <= d.start <= End(k)
  }

  lemma {:induction false} SweepDroppedTouchFrom(s: seq<TextChange>, prev: TextChange)
    requires SortedByStart(s)
    requires forall i :: 0 <= i < |s| ==> prev.start <= s[i].start
    ensures forall d :: d in Sweep(s, End(prev)).dropped ==>
      Touches(d, prev) || exists k :: k in Sweep(s, End(prev)).kept && Touches(d, k)
    decreases |s|
  {
    if s != [] {
      var s' := s[1..];
      assert SortedByStart(s');
      if s[0].start > End(prev) {
        forall i | 0 <= i < |s'| ensures s[0].start <= s'[i].start {
          assert Compare(s[0], s[1 + i]) <= 0;
        }
        SweepDroppedTouchFrom(s', s[0]);
      } else {
        SweepDroppedTouchFrom(s', prev);
      }
    }
  }

  /**
   * On sorted input the sweep drops a change only when it starts within, or right at
   * the end of, a change it kept.
   */
  lemma {:induction false} SweepDroppedConflict(s: seq<TextChange>)
    requires SortedByStart(s)
    ensures forall d :: d in Sweep(s, NoEnd).dropped ==>
      exists k :: k in Sweep(s, NoEnd).kept && Touches(d, k)
  {
    if s != [] {
      forall i | 0 <= i < |s[1..]| ensures s[0].start <= s[1..][i].start {
        assert Compare(s[0], s[1 + i]) <= 0;
      }
      SweepDroppedTouchFrom(s[1..], s[0]);
    }
  }

  /** With offsets never negative, the first change is always kept. */
  lemma FirstChangeKept(s: seq<TextChange>)
    requires s != []
    ensures Sweep(s, NoEnd).kept != [] && Sweep(s, NoEnd).kept[0] == s[0]
  {
  }

  /**
   * filterOverlappingFixes: one pass with `currentEnd` starting at -1; a change is kept
   * when it starts strictly after `currentEnd`, otherwise dropped.
   */
  method FilterOverlappingFixes(sortedFixList: seq<TextChange>) returns (filteredList: seq<TextChange>, droppedList: seq<TextChange>)
    ensures filteredList == Sweep(sortedFixList, NoEnd).kept
    ensures droppedList == Sweep(sortedFixList, NoEnd).dropped
  {
    filteredList, droppedList := [], [];
    var currentEnd := NoEnd;
    var i := 0;
    while i < |sortedFixList|
      invariant 0 <= i <= |sortedFixList|
      invariant filteredList + Sweep(sortedFixList[i..], currentEnd).kept == Sweep(sortedFixList, NoEnd).kept
      invariant droppedList + Sweep(sortedFixList[i..], currentEnd).dropped == Sweep(sortedFixList, NoEnd).dropped
    {
      var fix := sortedFixList[i];
      assert sortedFixList[i..][0] == fix && sortedFixList[i..][1..] == sortedFixList[i + 1..];
      if fix.start > currentEnd {
        filteredList := filteredList + [fix];
        currentEnd := fix.start + fix.length;
      } else {
        droppedList := droppedList + [fix];
      }
      i := i + 1;
    }
  }

  lemma SortTwo(x: TextChange, y: TextChange)
    requires Compare(x, y) > 0
    ensures SortByStart([x, y]) == [y, x]
  {
    assert [x, y][..1] == [x];
    assert [x][..0] == [];
    assert SortByStart([x]) == [x];
    assert SortByStart([x, y]) == Insert([x], y);
    assert [x][..|[x]| - 1] == [];
    assert Insert([x], y) == Insert([], y) + [x];
  }

  lemma SweepTwo(x: TextChange, y: TextChange)
    requires y.start <= End(x)
    ensures Sweep([x, y], NoEnd) == Partition([x], [y])
  {
    assert [x, y][1..] == [y];
    assert [y][1..] == [];
    assert Sweep([y], End(x)) == Partition([], [y]);
  }

  /** Overlap: (0,2) and (1,1) sort as given; (0,2) is kept and (1,1) dropped. */
  lemma OverlapExample()
    ensures var a, b := TextChange(0, 2, "x"), TextChange(1, 1, "y");
      && SortByStart([b, a]) == [a, b]
      && Sweep([a, b], NoEnd) == Partition([a], [b])
  {
    var a, b := TextChange(0, 2, "x"), TextChange(1, 1, "y");
    SortTwo(b, a);
    SweepTwo(a, b);
  }

  /** Adjacency: (2,3) starts exactly where (0,2) ends and is dropped all the same. */
  lemma AdjacencyExample()
    ensures var a, b := TextChange(0, 2, "x"), TextChange(2, 3, "y");
      && SortByStart([b, a]) == [a, b]
      && Sweep([a, b], NoEnd) == Partition([a], [b])
  {
    var a, b := TextChange(0, 2, "x"), TextChange(2, 3, "y");
    SortTwo(b, a);
    SweepTwo(a, b);
  }

  /** Equal starts: the shorter change sorts first and wins. */
  lemma TieExample()
    ensures var a, b := TextChange(4, 3, "x"), TextChange(4, 1, "y");
      && SortByStart([a, b]) == [b, a]
      && Sweep([b, a], NoEnd) == Partition([b], [a])
  {
    var a, b := TextChange(4, 3, "x"), TextChange(4, 1, "y");
    SortTwo(a, b);
    SweepTwo(b, a);
  }
}
