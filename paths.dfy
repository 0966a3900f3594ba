/**
 * The two path helpers: `getFileName` deletes the first match of the regular
 * expression `^.*[\\/]`, and `getDirectory` takes a substring whose length is that of
 * the file name.
 */
module Paths {
  predicate IsSeparator(c: char)
  {
    c == '/' || c == '\\'
  }

  /** The characters a regular expression's `.` does not match. */
  predicate IsLineTerminator(c: char)
  {
    c == '\n' || c == '\r' || c == '\U{2028}' || c == '\U{2029}'
  }

  /** The index of the first line terminator, or the length when there is none. */
  function FirstLineEnd(p: string): (n: nat)
    ensures n <= |p|
    ensures forall i :: 0 <= i < n ==> !IsLineTerminator(p[i])
    ensures n < |p| ==> IsLineTerminator(p[n])
  {
    if p == [] || IsLineTerminator(p[0]) then 0 else 1 + FirstLineEnd(p[1..])
  }

  /** The index of the last separator before `n`, or -1 when there is none. */
  function LastSeparatorBefore(p: string, n: nat): (k: int)
    requires n <= |p|
    ensures -1 <= k < n
    ensures k >= 0 ==> IsSeparator(p[k])
    ensures forall i :: k < i < n ==> !IsSeparator(p[i])
  {
    if n == 0 then -1
    else if IsSeparator(p[n - 1]) then n - 1
    else LastSeparatorBefore(p, n - 1)
  }

  /**
   * The length of the match of `^.*[\\/]`, 0 when there is none. `^.*` reaches as far
   * as the first line terminator at most, and being greedy it stops at the last
   * separator within that reach.
   */
  function MatchEnd(p: string): (m: nat)
    ensures m <= FirstLineEnd(p)
    ensures m > 0 ==> IsSeparator(p[m - 1])
    ensures forall i :: m <= i < FirstLineEnd(p) ==> !IsSeparator(p[i])
  {
    LastSeparatorBefore(p, FirstLineEnd(p)) + 1
  }

  /** getFileName: the match, if any, is replaced by nothing. */
  function GetFileName(filePath: string): (r: string)
  {
    filePath[MatchEnd(filePath)..]
  }

  /** What getFileName keeps and what it removes. */
  lemma FileNameShape(filePath: string)
    // What is left is a suffix of the path ...
    ensures var r := GetFileName(filePath);
      |r| <= |filePath| && r == filePath[|filePath| - |r|..]
    // ... and what went ends with a separator and spans no line terminator ...
    ensures var r := GetFileName(filePath);
      r != filePath ==> IsSeparator(filePath[|filePath| - |r| - 1])
    ensures var r := GetFileName(filePath);
      forall i :: 0 <= i < |filePath| - |r| ==> !IsLineTerminator(filePath[i])
    // ... and no separator is left on the first line, so no longer match existed.
    ensures var r := GetFileName(filePath);
      forall i :: 0 <= i < FirstLineEnd(r) ==> !IsSeparator(r[i])
  {
    var m := MatchEnd(filePath);
    var r := filePath[m..];
    FirstLineEndOfSuffix(filePath, m);
    forall i | 0 <= i < FirstLineEnd(r)
      ensures !IsSeparator(r[i])
    {
      assert r[i] == filePath[m + i];
    }
  }

  /** Past a prefix with no line terminator, the first line ends where it did. */
  lemma {:induction false} FirstLineEndOfSuffix(p: string, m: nat)
    requires m <= FirstLineEnd(p)
    ensures FirstLineEnd(p[m..]) == FirstLineEnd(p) - m
    decreases m
  {
    if m > 0 {
      assert p[1..][m - 1..] == p[m..];
      FirstLineEndOfSuffix(p[1..], m - 1);
    }
  }

  /** On a one-line path the file name holds no separator at all. */
  lemma OneLineFileName(filePath: string)
    requires forall i :: 0 <= i < |filePath| ==> !IsLineTerminator(filePath[i])
    ensures forall i :: 0 <= i < |GetFileName(filePath)| ==> !IsSeparator(GetFileName(filePath)[i])
  {
    var r := GetFileName(filePath);
    FileNameShape(filePath);
    NoTerminatorLineEnd(r);
  }

  lemma {:induction false} NoTerminatorLineEnd(p: string)
    requires forall i :: 0 <= i < |p| ==> !IsLineTerminator(p[i])
    ensures FirstLineEnd(p) == |p|
  {
    if p != [] {
      NoTerminatorLineEnd(p[1..]);
    }
  }

  /**
   * getDirectory as written: the substring from `length - |getFileName|` to the end,
   * which is the file name again, not the directory.
   */
  function GetDirectory(filePath: string): (r: string)
    ensures r == GetFileName(filePath)
  {
    FileNameShape(filePath);
    filePath[|filePath| - |GetFileName(filePath)|..]
  }

  /** For instance `src/a.ts` gives `a.ts`. */
  lemma GetDirectoryExample()
    ensures GetDirectory("src/a.ts") == "a.ts"
    ensures DirectoryOf("src/a.ts") == "src/"
  {
    FileNameExample();
    var p := "src/a.ts";
    assert DirectoryOf(p) == p[..4];
    assert p[..4] == "src/";
  }

  lemma FileNameExample()
    ensures GetFileName("src/a.ts") == "a.ts"
  {
    var p := "src/a.ts";
    assert MatchEnd(p) == 4 by {
      NoTerminatorLineEnd(p);
      LastSeparatorExample(p);
    }
    assert p[4..] == "a.ts";
  }

  lemma LastSeparatorExample(p: string)
    requires p == "src/a.ts"
    ensures LastSeparatorBefore(p, 8) == 3
  {
    assert !IsSeparator(p[7]) && !IsSeparator(p[6]) && !IsSeparator(p[5]) && !IsSeparator(p[4]) && IsSeparator(p[3]);
  }

  /** The directory part: the text before the file name, ending with its separator. */
  function DirectoryOf(filePath: string): (r: string)
    ensures r + GetFileName(filePath) == filePath
    ensures r == [] || IsSeparator(r[|r| - 1])
  {
    FileNameShape(filePath);
    var r := filePath[..|filePath| - |GetFileName(filePath)|];
    assert r + filePath[|r|..] == filePath;
    r
  }
}
