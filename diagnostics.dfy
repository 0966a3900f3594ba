/**
 * The diagnostic filter: keep the diagnostics whose code is requested, count them per
 * code in order of first sighting, and describe the outcome in messages.
 */
module Diagnostics {
  import opened Wrappers
  import opened Numerals
  import opened Sequences

  /** A reported issue; the file and the position may be missing. */
  datatype Diagnostic = Diagnostic(fileName: Option<string>, start: Option<nat>, length: Option<nat>, code: int)

  /** Map<number, number> from code to count: its keys in insertion order, and the counts. */
  datatype ErrorCounter = ErrorCounter(codes: seq<int>, counts: map<int, nat>)

  ghost predicate ValidCounter(c: ErrorCounter)
  {
    && (forall i, j :: 0 <= i < j < |c.codes| ==> c.codes[i] != c.codes[j])
    && (forall k :: k in c.counts <==> k in c.codes)
  }

  // ---------------------------------------------------------------------------
  // Reference definitions
  // ---------------------------------------------------------------------------

  /** All diagnostics of all files, file by file. */
  function Flatten(dss: seq<seq<Diagnostic>>): seq<Diagnostic>
  {
    if dss == [] then [] else Flatten(dss[..|dss| - 1]) + dss[|dss| - 1]
  }

  lemma FlattenStep(dss: seq<seq<Diagnostic>>, i: nat)
    requires i < |dss|
    ensures Flatten(dss[..i + 1]) == Flatten(dss[..i]) + dss[i]
  {
    assert dss[..i + 1][..i] == dss[..i];
  }

  /** The sum of the per-file counts, as `_.reduce` adds them up. */
  function TotalCount(dss: seq<seq<Diagnostic>>): nat
  {
    if dss == [] then 0 else TotalCount(dss[..|dss| - 1]) + |dss[|dss| - 1]|
  }

  /** The diagnostics whose code is listed, in order. */
  function KeepCodes(ds: seq<Diagnostic>, errorCode: seq<int>): (r: seq<Diagnostic>)
    ensures |r| <= |ds|
    ensures forall d :: d in r <==> d in ds && d.code in errorCode
  {
    if ds == [] then []
    else
      var last := ds[|ds| - 1];
      KeepCodes(ds[..|ds| - 1], errorCode) + (if last.code in errorCode then [last] else [])
  }

  /** How many diagnostics carry `code`. */
  function CountCode(ds: seq<Diagnostic>, code: int): nat
  {
    if ds == [] then 0
    else CountCode(ds[..|ds| - 1], code) + (if ds[|ds| - 1].code == code then 1 else 0)
  }

  function Codes(ds: seq<Diagnostic>): seq<int>
  {
    seq(|ds|, i requires 0 <= i < |ds| => ds[i].code)
  }

  // ---------------------------------------------------------------------------
  // The counter the filter callback keeps
  // ---------------------------------------------------------------------------

  /** One `errorCounter` update: start a new code at 1, or add one to its count. */
  function Bump(c: ErrorCounter, code: int): ErrorCounter
  {
    if code in c.counts then ErrorCounter(c.codes, c.counts[code := c.counts[code] + 1])
    else ErrorCounter(c.codes + [code], c.counts[code := 1])
  }

  /** The counter after the callback has seen `ds`. */
  function Tally(ds: seq<Diagnostic>, errorCode: seq<int>): ErrorCounter
  {
    if ds == [] then ErrorCounter([], map[])
    else
      var c := Tally(ds[..|ds| - 1], errorCode);
      var last := ds[|ds| - 1];
      if last.code in errorCode then Bump(c, last.code) else c
  }

  lemma TallySnoc(ds: seq<Diagnostic>, d: Diagnostic, errorCode: seq<int>)
    ensures Tally(ds + [d], errorCode) == if d.code in errorCode then Bump(Tally(ds, errorCode), d.code) else Tally(ds, errorCode)
    ensures KeepCodes(ds + [d], errorCode) == KeepCodes(ds, errorCode) + (if d.code in errorCode then [d] else [])
  {
    assert (ds + [d])[..|ds|] == ds;
  }

  /**
   * The counter holds each listed code that occurs, once, with the number of its
   * occurrences, and no other code.
   */
  lemma {:induction false} TallyCounts(ds: seq<Diagnostic>, errorCode: seq<int>)
    ensures ValidCounter(Tally(ds, errorCode))
    ensures forall k :: k in Tally(ds, errorCode).counts <==> k in errorCode && CountCode(ds, k) > 0
    ensures forall k :: k in Tally(ds, errorCode).counts ==> Tally(ds, errorCode).counts[k] == CountCode(ds, k)
  {
    if ds != [] {
      TallyCounts(ds[..|ds| - 1], errorCode);
    }
  }

  /** Each step either leaves the codes alone or appends a code never seen before. */
  lemma TallyStepCodes(ds: seq<Diagnostic>, errorCode: seq<int>)
    requires ds != []
    ensures var front, d := ds[..|ds| - 1], ds[|ds| - 1];
      || Tally(ds, errorCode).codes == Tally(front, errorCode).codes
      || (Tally(ds, errorCode).codes == Tally(front, errorCode).codes + [d.code] && d.code !in Codes(front))
    ensures forall k :: k in Tally(ds, errorCode).codes ==> k in Codes(ds)
  {
    var front, d := ds[..|ds| - 1], ds[|ds| - 1];
    TallyCounts(front, errorCode);
    TallyCounts(ds, errorCode);
    CountPositive(front, d.code);
    forall k | k in Tally(ds, errorCode).codes ensures k in Codes(ds) {
      CountPositive(ds, k);
    }
  }

  /** The counter's codes stand in the order in which they are first seen. */
  lemma {:induction false} TallyOrder(ds: seq<Diagnostic>, errorCode: seq<int>)
    ensures forall i, j :: 0 <= i < j < |Tally(ds, errorCode).codes| ==>
      FirstIndex(Codes(ds), Tally(ds, errorCode).codes[i]) < FirstIndex(Codes(ds), Tally(ds, errorCode).codes[j])
  {
    if ds != [] {
      var front, d := ds[..|ds| - 1], ds[|ds| - 1];
      TallyOrder(front, errorCode);
      var c, c' := Tally(front, errorCode), Tally(ds, errorCode);
      TallyStepCodes(ds, errorCode);
      if |front| > 0 {
        TallyStepCodes(front, errorCode);
      }
      var names := Codes(front);
      assert Codes(ds) == names + [d.code];
      forall i, j | 0 <= i < j < |c'.codes|
        ensures FirstIndex(Codes(ds), c'.codes[i]) < FirstIndex(Codes(ds), c'.codes[j])
      {
        var ki, kj := c'.codes[i], c'.codes[j];
        assert ki == c.codes[i];
        assert ki in names;
        FirstIndexAppend(names, d.code, ki);
        FirstIndexAppend(names, d.code, kj);
        if j < |c.codes| {
          assert kj == c.codes[j];
          assert kj in names;
        }
      }
    }
  }

  lemma {:induction false} CountPositive(ds: seq<Diagnostic>, code: int)
    ensures CountCode(ds, code) > 0 <==> code in Codes(ds)
  {
    if ds != [] {
      CountPositive(ds[..|ds| - 1], code);
      assert Codes(ds) == Codes(ds[..|ds| - 1]) + [ds[|ds| - 1].code];
    }
  }

  /** The counter stays empty exactly when no diagnostic has a listed code. */
  lemma {:induction false} TallyEmpty(ds: seq<Diagnostic>, errorCode: seq<int>)
    ensures Tally(ds, errorCode).codes == [] <==> KeepCodes(ds, errorCode) == []
  {
    if ds != [] {
      TallyEmpty(ds[..|ds| - 1], errorCode);
      TallyCounts(ds[..|ds| - 1], errorCode);
    }
  }

  // ---------------------------------------------------------------------------
  // Messages
  // ---------------------------------------------------------------------------

  /** The messages the filter returns, before they are turned into text. */
  datatype Report =
    | Found(count: nat, code: int)     // one counted code
    | NoMatch(errorCode: seq<int>)     // no diagnostic had a requested code
    | Summary(total: nat, files: nat)  // no code was requested

  /** The text of each message, with JavaScript's number and array formatting. */
  function Text(m: Report): string
  {
    match m
    case Found(count, code) => "found " + (NatToString(count) + CodeSuffix(code))
    case NoMatch(errorCode) => "no diagnostics found with codes " + JoinInts(errorCode)
    case Summary(total, files) => "found " + NatToString(total) + " diagnostics in " + NatToString(files) + " files"
  }

  /** What follows the count in a count message. */
  function CodeSuffix(code: int): (s: string)
    ensures s != [] && s[0] == ' '
  {
    " diagnostics with code " + IntToString(code)
  }

  /** How many digits a string starts with. */
  function LeadingDigits(s: string): nat
  {
    if s == [] || !('0' <= s[0] <= '9') then 0 else 1 + LeadingDigits(s[1..])
  }

  /** Digits followed by a non-digit: the digits are exactly the leading ones. */
  lemma {:induction false} LeadingDigitsOfNumber(d: string, rest: string)
    requires IsDigits(d)
    requires rest != [] && !('0' <= rest[0] <= '9')
    ensures LeadingDigits(d + rest) == |d|
    decreases |d|
  {
    if d == [] {
      assert d + rest == rest;
    } else {
      var s := d + rest;
      assert s[0] == d[0] && s[1..] == d[1..] + rest;
      assert LeadingDigits(s) == 1 + LeadingDigits(d[1..] + rest);
      LeadingDigitsOfNumber(d[1..], rest);
    }
  }

  /** Digits followed by the same non-digit text: the digits must agree. */
  lemma DigitsThenText(d1: string, d2: string, rest: string)
    requires IsDigits(d1) && IsDigits(d2)
    requires rest != [] && !('0' <= rest[0] <= '9')
    requires d1 + rest == d2 + rest
    ensures d1 == d2
  {
    LeadingDigitsOfNumber(d1, rest);
    LeadingDigitsOfNumber(d2, rest);
    assert d1 == (d1 + rest)[..|d1|];
    assert d2 == (d2 + rest)[..|d2|];
  }

  /** A count message determines its count: different counts read differently. */
  lemma FoundTextDeterminesCount(a: nat, b: nat, code: int)
    requires Text(Found(a, code)) == Text(Found(b, code))
    ensures a == b
  {
    var da, db := NatToString(a), NatToString(b);
    DropPrefix("found ", da + CodeSuffix(code));
    DropPrefix("found ", db + CodeSuffix(code));
    DigitsThenText(da, db, CodeSuffix(code));
    NatToStringInjective(a, b);
  }

  lemma DropPrefix(p: string, x: string)
    ensures (p + x)[|p|..] == x
  {
  }

  /** `errorCounter.forEach`: one message per counted code, in insertion order. */
  function CountMessages(codes: seq<int>, counts: map<int, nat>): (r: seq<Report>)
    requires forall i :: 0 <= i < |codes| ==> codes[i] in counts
    ensures |r| == |codes|
    ensures forall i :: 0 <= i < |codes| ==> r[i] == Found(counts[codes[i]], codes[i])
  {
    if codes == [] then []
    else CountMessages(codes[..|codes| - 1], counts) + [Found(counts[codes[|codes| - 1]], codes[|codes| - 1])]
  }

  /** The total the summary reports is the number of diagnostics. */
  lemma {:induction false} TotalCountIsSize(dss: seq<seq<Diagnostic>>)
    ensures TotalCount(dss) == |Flatten(dss)|
  {
    if dss != [] {
      TotalCountIsSize(dss[..|dss| - 1]);
    }
  }

  /** Filtering file by file loses and adds nothing: it is filtering the whole list. */
  lemma {:induction false} FilterPerFile(dss: seq<seq<Diagnostic>>, errorCode: seq<int>)
    ensures Flatten(seq(|dss|, i requires 0 <= i < |dss| => KeepCodes(dss[i], errorCode)))
         == KeepCodes(Flatten(dss), errorCode)
  {
    if dss != [] {
      var front := dss[..|dss| - 1];
      FilterPerFile(front, errorCode);
      var per := seq(|dss|, i requires 0 <= i < |dss| => KeepCodes(dss[i], errorCode));
      assert per[..|dss| - 1] == seq(|front|, i requires 0 <= i < |front| => KeepCodes(front[i], errorCode));
      KeepCodesAppend(Flatten(front), dss[|dss| - 1], errorCode);
    }
  }

  lemma {:induction false} KeepCodesAppend(a: seq<Diagnostic>, b: seq<Diagnostic>, errorCode: seq<int>)
    ensures KeepCodes(a + b, errorCode) == KeepCodes(a, errorCode) + KeepCodes(b, errorCode)
    decreases |b|
  {
    if b == [] {
      assert a + b == a;
    } else {
      assert (a + b)[..|a + b| - 1] == a + b[..|b| - 1];
      KeepCodesAppend(a, b[..|b| - 1], errorCode);
    }
  }

  // ---------------------------------------------------------------------------
  // filterDiagnosticsByErrorCode
  // ---------------------------------------------------------------------------

  /**
   * The messages the counter yields are the per-code counts of the whole list, one per
   * counted code.
   */
  lemma CountMessagesAreCounts(ds: seq<Diagnostic>, errorCode: seq<int>)
    ensures var c := Tally(ds, errorCode);
      && (forall i :: 0 <= i < |c.codes| ==> c.codes[i] in c.counts)
      && |CountMessages(c.codes, c.counts)| == |c.codes|
      && (forall i :: 0 <= i < |c.codes| ==>
            CountMessages(c.codes, c.counts)[i] == Found(CountCode(ds, c.codes[i]), c.codes[i]))
  {
    TallyCounts(ds, errorCode);
  }

  /** One more diagnostic of the file, seen by the callback. */
  lemma FilterStep(done: seq<Diagnostic>, file: seq<Diagnostic>, j: nat, errorCode: seq<int>)
    requires j < |file|
    ensures var d := file[j];
      && Tally(done + file[..j + 1], errorCode)
         == (if d.code in errorCode then Bump(Tally(done + file[..j], errorCode), d.code) else Tally(done + file[..j], errorCode))
      && KeepCodes(file[..j + 1], errorCode) == KeepCodes(file[..j], errorCode) + (if d.code in errorCode then [d] else [])
  {
    var d := file[j];
    TallySnoc(done + file[..j], d, errorCode);
    TallySnoc(file[..j], d, errorCode);
    PrefixStep(done, file, j);
    assert file[..j + 1] == file[..j] + [d];
  }

  /** The counter update inside the callback: a new code starts at 1, a known one goes up by 1. */
  method Count(errorCounter: ErrorCounter, code: int) returns (updated: ErrorCounter)
    requires ValidCounter(errorCounter)
    ensures ValidCounter(updated)
    // `get` gives the old count or undefined; `set` stores one more, or 1
    ensures code in updated.counts
    ensures updated.counts[code] == (if code in errorCounter.counts then errorCounter.counts[code] else 0) + 1
    // every other code keeps its count
    ensures forall k :: k != code ==>
      (k in updated.counts <==> k in errorCounter.counts) && (k in errorCounter.counts ==> updated.counts[k] == errorCounter.counts[k])
    // a known code keeps its place; a new one goes last
    ensures updated.codes == if code in errorCounter.counts then errorCounter.codes else errorCounter.codes + [code]
    // the link to the specification function that `FilterFile` and `Tally` are stated with
    ensures updated == Bump(errorCounter, code)
  {
    if code in errorCounter.counts {
      updated := ErrorCounter(errorCounter.codes, errorCounter.counts[code := errorCounter.counts[code] + 1]);
    } else {
      updated := ErrorCounter(errorCounter.codes + [code], errorCounter.counts[code := 1]);
    }
  }

  /** The callback run over one file's diagnostics: the kept ones, and the counter after them. */
  method FilterFile(file: seq<Diagnostic>, errorCode: seq<int>, counter: ErrorCounter, ghost done: seq<Diagnostic>)
    returns (kept: seq<Diagnostic>, errorCounter: ErrorCounter)
    requires counter == Tally(done, errorCode)
    ensures kept == KeepCodes(file, errorCode)
    ensures errorCounter == Tally(done + file, errorCode)
  {
    errorCounter := counter;
    kept := [];
    var j := 0;
    PrefixStep(done, file, 0);
    while j < |file|
      invariant 0 <= j <= |file|
      invariant kept == KeepCodes(file[..j], errorCode)
      invariant errorCounter == Tally(done + file[..j], errorCode)
    {
      var d := file[j];
      if d.code in errorCode {
        ghost var before := errorCounter;
        TallyCounts(done + file[..j], errorCode);
        errorCounter := Count(errorCounter, d.code);
        assert errorCounter == Bump(before, d.code);
        kept := kept + [d];
      }
      FilterStep(done, file, j, errorCode);
      j := j + 1;
    }
    assert file[..j] == file;
  }

  /** `errorCounter.forEach`: one message per counted code, in insertion order. */
  method ReportCounts(errorCounter: ErrorCounter) returns (returnStrings: seq<Report>)
    requires forall i :: 0 <= i < |errorCounter.codes| ==> errorCounter.codes[i] in errorCounter.counts
    ensures returnStrings == CountMessages(errorCounter.codes, errorCounter.counts)
  {
    returnStrings := [];
    var k := 0;
    while k < |errorCounter.codes|
      invariant 0 <= k <= |errorCounter.codes|
      invariant returnStrings == CountMessages(errorCounter.codes[..k], errorCounter.counts)
    {
      var code := errorCounter.codes[k];
      assert errorCounter.codes[..k + 1][..k] == errorCounter.codes[..k];
      returnStrings := returnStrings + [Found(errorCounter.counts[code], code)];
      k := k + 1;
    }
    assert errorCounter.codes[..k] == errorCounter.codes;
  }

  /** The lists the filter hands on: all of them, none, or each file's listed-code diagnostics. */
  function Selected(dss: seq<seq<Diagnostic>>, errorCode: seq<int>): (r: seq<seq<Diagnostic>>)
    ensures errorCode == [] ==> r == dss
    ensures errorCode != [] && KeepCodes(Flatten(dss), errorCode) == [] ==> r == []
    ensures errorCode != [] && KeepCodes(Flatten(dss), errorCode) != [] ==>
      |r| == |dss| && forall i :: 0 <= i < |r| ==> r[i] == KeepCodes(dss[i], errorCode)
    ensures errorCode != [] ==> Flatten(r) == KeepCodes(Flatten(dss), errorCode)
  {
    if errorCode == [] then dss
    else if KeepCodes(Flatten(dss), errorCode) == [] then []
    else
      FilterPerFile(dss, errorCode);
      seq(|dss|, i requires 0 <= i < |dss| => KeepCodes(dss[i], errorCode))
  }

  /** The messages the filter returns. */
  function Reports(dss: seq<seq<Diagnostic>>, errorCode: seq<int>): (r: seq<Report>)
    ensures r != []
    ensures errorCode != [] && KeepCodes(Flatten(dss), errorCode) != [] ==>
      forall i :: 0 <= i < |r| ==> r[i].Found? && r[i].count == CountCode(Flatten(dss), r[i].code) > 0
  {
    if errorCode == [] then [Summary(TotalCount(dss), |dss|)]
    else
      var c := Tally(Flatten(dss), errorCode);
      TallyEmpty(Flatten(dss), errorCode);
      CountMessagesAreCounts(Flatten(dss), errorCode);
      TallyCounts(Flatten(dss), errorCode);
      if c.codes == [] then [NoMatch(errorCode)] else CountMessages(c.codes, c.counts)
  }

  /**
   * filterDiagnosticsByErrorCode. With no requested codes: everything, and one summary.
   * Otherwise: per file the diagnostics with a requested code, and one count message per
   * code seen; or, when nothing matched, no lists and one message naming the codes.
   */
  method FilterDiagnosticsByErrorCode(diagnostics: seq<seq<Diagnostic>>, errorCode: seq<int>)
    returns (filtered: seq<seq<Diagnostic>>, messages: seq<Report>)
    ensures errorCode == [] ==> filtered == diagnostics && messages == [Summary(TotalCount(diagnostics), |diagnostics|)]
    ensures errorCode != [] && KeepCodes(Flatten(diagnostics), errorCode) == [] ==>
      filtered == [] && messages == [NoMatch(errorCode)]
    ensures errorCode != [] && KeepCodes(Flatten(diagnostics), errorCode) != [] ==>
      && |filtered| == |diagnostics|
      && (forall i :: 0 <= i < |filtered| ==> filtered[i] == KeepCodes(diagnostics[i], errorCode))
      && |messages| == |Tally(Flatten(diagnostics), errorCode).codes|
      && (forall i :: 0 <= i < |messages| ==>
            var code := Tally(Flatten(diagnostics), errorCode).codes[i];
            messages[i] == Found(CountCode(Flatten(diagnostics), code), code))
    ensures filtered == Selected(diagnostics, errorCode)
    ensures messages == Reports(diagnostics, errorCode)
  {
    if |errorCode| == 0 {
      return diagnostics, [Summary(TotalCount(diagnostics), |diagnostics|)];
    }
    var errorCounter := ErrorCounter([], map[]);
    var filteredDiagnostics: seq<seq<Diagnostic>> := [];
    var i := 0;
    while i < |diagnostics|
      invariant 0 <= i <= |diagnostics|
      invariant |filteredDiagnostics| == i
      invariant forall k :: 0 <= k < i ==> filteredDiagnostics[k] == KeepCodes(diagnostics[k], errorCode)
      invariant errorCounter == Tally(Flatten(diagnostics[..i]), errorCode)
    {
      var filteredDiagnostic;
      filteredDiagnostic, errorCounter := FilterFile(diagnostics[i], errorCode, errorCounter, Flatten(diagnostics[..i]));
      FlattenStep(diagnostics, i);
      filteredDiagnostics := filteredDiagnostics + [filteredDiagnostic];
      i := i + 1;
    }
    assert diagnostics[..i] == diagnostics;
    ghost var all := Flatten(diagnostics);
    CountMessagesAreCounts(all, errorCode);
    var returnStrings := ReportCounts(errorCounter);
    TallyEmpty(all, errorCode);
    if |returnStrings| == 0 {
      return [], [NoMatch(errorCode)];
    }
    return filteredDiagnostics, returnStrings;
  }

  // ---------------------------------------------------------------------------
  // Examples
  // ---------------------------------------------------------------------------

  /** Codes [2345, 1234, 2345] filtered by {2345}: both 2345s are kept, in order. */
  lemma KeepExample()
    ensures var a, b := Diagnostic(None, None, None, 2345), Diagnostic(None, None, None, 1234);
      KeepCodes([a, b, a], [2345]) == [a, a]
  {
    var a, b := Diagnostic(None, None, None, 2345), Diagnostic(None, None, None, 1234);
    assert [a, b, a][..2] == [a, b];
    assert [a, b][..1] == [a];
  }

  /** The same list counts 2345 twice, and nothing else. */
  lemma TallyExample()
    ensures var a, b := Diagnostic(None, None, None, 2345), Diagnostic(None, None, None, 1234);
      Tally([a, b, a], [2345]) == ErrorCounter([2345], map[2345 := 2])
  {
    var a, b := Diagnostic(None, None, None, 2345), Diagnostic(None, None, None, 1234);
    assert [a, b, a][..2] == [a, b];
    assert [a, b][..1] == [a];
    assert [a][..0] == [];
    assert Tally([a], [2345]) == ErrorCounter([2345], map[2345 := 1]);
    assert Tally([a, b], [2345]) == ErrorCounter([2345], map[2345 := 1]);
  }

  /** The count message for two diagnostics with code 2345. */
  lemma FoundTextExample()
    ensures Text(Found(2, 2345)) == "found 2 diagnostics with code 2345"
  {
    CodeSuffixExample();
    assert NatToString(2) == "2";
    assert Text(Found(2, 2345)) == "found " + ("2" + " diagnostics with code 2345");
    FoundTextLiteral();
  }

  lemma FoundTextLiteral()
    ensures "found " + ("2" + " diagnostics with code 2345") == "found 2 diagnostics with code 2345"
  {
    assert "2" + " diagnostics with code 2345" == "2 diagnostics with code 2345";
  }

  lemma CodeSuffixExample()
    ensures CodeSuffix(2345) == " diagnostics with code 2345"
  {
    Digits2345();
  }

  /** Codes {2345, 1234} filtered by {9999}: nothing matches, "no diagnostics found with codes 9999". */
  lemma NoMatchExample()
    ensures var a, b := Diagnostic(None, None, None, 2345), Diagnostic(None, None, None, 1234);
      && KeepCodes([a, b], [9999]) == []
      && Text(NoMatch([9999])) == "no diagnostics found with codes 9999"
  {
    var a, b := Diagnostic(None, None, None, 2345), Diagnostic(None, None, None, 1234);
    assert [a, b][..1] == [a];
    assert NatToString(9999) == "9999" by {
      assert NatToString(99) == "99";
      assert NatToString(999) == "999";
    }
  }
}
