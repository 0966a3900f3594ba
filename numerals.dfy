/**
 * How JavaScript turns the integers in the messages into text: `String(n)` for an
 * integer is its decimal digits, with a leading `-` when negative, and an array's
 * `toString()` joins its elements with commas.
 */
module Numerals {
  import opened Sequences

  function DigitChar(d: nat): (c: char)
    requires d < 10
    ensures '0' <= c <= '9'
  {
    ('0' as int + d) as char
  }

  function DigitValue(c: char): (d: nat)
    requires '0' <= c <= '9'
    ensures d < 10
  {
    (c as int - '0' as int) as nat
  }

  predicate IsDigits(s: string)
  {
    forall i :: 0 <= i < |s| ==> '0' <= s[i] <= '9'
  }

  /** The decimal digits of `n`, most significant first, with no leading zero. */
  function NatToString(n: nat): (s: string)
    ensures s != [] && IsDigits(s)
    ensures |s| > 1 ==> s[0] != '0'
  {
    if n < 10 then [DigitChar(n)] else NatToString(n / 10) + [DigitChar(n % 10)]
  }

  function IntToString(i: int): (s: string)
    ensures s != []
    ensures i < 0 <==> s[0] == '-'
  {
    if i < 0 then "-" + NatToString(-i) else NatToString(i)
  }

  /** Reads decimal digits back into a number. */
  function ParseDigits(s: string): nat
    requires IsDigits(s)
  {
    if s == [] then 0 else 10 * ParseDigits(s[..|s| - 1]) + DigitValue(s[|s| - 1])
  }

  lemma DigitRoundTrip(d: nat)
    requires d < 10
    ensures DigitValue(DigitChar(d)) == d
  {
  }

  /** Reading the digits back gives the number. */
  lemma {:induction false} NatToStringRoundTrip(n: nat)
    ensures ParseDigits(NatToString(n)) == n
  {
    DigitRoundTrip(n % 10);
    if n >= 10 {
      NatToStringRoundTrip(n / 10);
      var s := NatToString(n);
      assert s[..|s| - 1] == NatToString(n / 10);
    }
  }

  /** Distinct numbers print differently. */
  lemma NatToStringInjective(m: nat, n: nat)
    requires NatToString(m) == NatToString(n)
    ensures m == n
  {
    NatToStringRoundTrip(m);
    NatToStringRoundTrip(n);
  }

  /** `Array.prototype.toString` on integers: the elements, comma-separated. */
  function JoinInts(xs: seq<int>): (s: string)
    ensures xs == [] <==> s == []
    ensures |xs| == 1 ==> s == IntToString(xs[0])
  {
    if xs == [] then ""
    else if |xs| == 1 then IntToString(xs[0])
    else JoinInts(xs[..|xs| - 1]) + "," + IntToString(xs[|xs| - 1])
  }

  /** Appending a code appends a comma and that code's text. */
  lemma JoinIntsSnoc(xs: seq<int>, x: int)
    requires xs != []
    ensures JoinInts(xs + [x]) == JoinInts(xs) + "," + IntToString(x)
  {
    assert (xs + [x])[..|xs|] == xs;
  }

  /** Read from the front: the first code's text, a comma, then the rest joined. */
  lemma {:induction false} JoinIntsFront(xs: seq<int>)
    requires |xs| >= 2
    ensures JoinInts(xs) == IntToString(xs[0]) + "," + JoinInts(xs[1..])
  {
    if |xs| == 2 {
      assert xs[..1] == [xs[0]];
      assert xs[1..] == [xs[1]];
    } else {
      JoinIntsFront(xs[..|xs| - 1]);
      JoinIntsFrontStep(xs);
    }
  }

  /** The inductive step of JoinIntsFront: the claim for all but the last code extends to all. */
  lemma JoinIntsFrontStep(xs: seq<int>)
    requires |xs| > 2
    requires JoinInts(xs[..|xs| - 1]) == IntToString(xs[0]) + "," + JoinInts(xs[..|xs| - 1][1..])
    ensures JoinInts(xs) == IntToString(xs[0]) + "," + JoinInts(xs[1..])
  {
    var n := |xs|;
    var a, b, c := IntToString(xs[0]), JoinInts(xs[1..n - 1]), IntToString(xs[n - 1]);
    TailOfPrefix(xs, n - 1);
    assert JoinInts(xs) == a + "," + b + "," + c;
    assert JoinInts(xs[1..]) == b + "," + c by {
      var rest := xs[1..];
      assert JoinInts(rest) == JoinInts(rest[..n - 2]) + "," + IntToString(rest[n - 2]);
    }
    assert a + "," + b + "," + c == (a + ",") + (b + "," + c) by {
      AppendRegroup(a + ",", b, ",");
      AppendRegroup(a + ",", b + ",", c);
    }
  }

  lemma JoinExample()
    ensures JoinInts([2345, 1234]) == "2345,1234"
  {
    Digits2345();
    Digits1234();
    assert [2345, 1234][..1] == [2345];
  }

  lemma Digits2345()
    ensures NatToString(2345) == "2345"
  {
    assert NatToString(2) == "2";
    assert NatToString(23) == "23";
    assert NatToString(234) == "234";
  }

  lemma Digits1234()
    ensures NatToString(1234) == "1234"
  {
    assert NatToString(1) == "1";
    assert NatToString(12) == "12";
    assert NatToString(123) == "123";
  }
}
