/** Small facts about sequences shared by the modules that model JavaScript's ordered Map. */
module Sequences {
  /** The first position of `x` in `s`, or `|s|` when it does not occur. */
  function FirstIndex<T(==)>(s: seq<T>, x: T): (r: nat)
    ensures r <= |s|
    ensures r < |s| ==> s[r] == x
    ensures forall i :: 0 <= i < r ==> s[i] != x
    ensures r == |s| <==> x !in s
  {
    if s == [] then 0 else if s[0] == x then 0 else 1 + FirstIndex(s[1..], x)
  }

  /** Appending an element leaves the first positions of the elements already there. */
  lemma {:induction false} FirstIndexAppend<T>(s: seq<T>, n: T, k: T)
    ensures k in s ==> FirstIndex(s + [n], k) == FirstIndex(s, k)
    ensures k !in s && k == n ==> FirstIndex(s + [n], k) == |s|
  {
    if s != [] && s[0] != k {
      assert (s + [n])[1..] == s[1..] + [n];
      FirstIndexAppend(s[1..], n, k);
    }
  }

  /** The elements of `keys` stand in the order of their first occurrence in `s`. */
  ghost predicate InFirstOccurrenceOrder<T>(s: seq<T>, keys: seq<T>)
  {
    forall i, j :: 0 <= i < j < |keys| ==> FirstIndex(s, keys[i]) < FirstIndex(s, keys[j])
  }

  /** Appending `x` to `s`, and to `keys` when it is new there, keeps the order. */
  lemma FirstOccurrenceOrderAppend<T>(s: seq<T>, keys: seq<T>, x: T)
    requires InFirstOccurrenceOrder(s, keys)
    requires forall k :: k in keys ==> k in s
    requires x !in keys ==> x !in s
    ensures InFirstOccurrenceOrder(s + [x], keys)
    ensures x !in keys ==> InFirstOccurrenceOrder(s + [x], keys + [x])
  {
    forall k | k in keys
      ensures FirstIndex(s + [x], k) == FirstIndex(s, k)
    {
      FirstIndexAppend(s, x, k);
    }
    if x !in keys {
      FirstIndexAppend(s, x, x);
      var keys' := keys + [x];
      forall i, j | 0 <= i < j < |keys'|
        ensures FirstIndex(s + [x], keys'[i]) < FirstIndex(s + [x], keys'[j])
      {
        assert keys'[i] in keys;
        if j < |keys| {
          assert keys'[j] in keys;
        }
      }
    }
  }

  /** Concatenation regroups: appending in two steps is appending the joined tail. */
  lemma AppendRegroup<T>(a: seq<T>, b: seq<T>, c: seq<T>)
    ensures a + b + c == a + (b + c)
  {
  }

  /** Dropping the first element and cutting at `n` commute. */
  lemma TailOfPrefix<T>(s: seq<T>, n: nat)
    requires 1 <= n <= |s|
    ensures s[..n][1..] == s[1..n]
    ensures s[1..][..n - 1] == s[1..n]
  {
  }

  lemma PrefixStep<T>(done: seq<T>, items: seq<T>, j: nat)
    requires j <= |items|
    ensures done + items[..0] == done
    ensures j < |items| ==> done + items[..j + 1] == (done + items[..j]) + [items[j]]
  {
    assert items[..0] == [];
    if j < |items| {
      assert items[..j + 1] == items[..j] + [items[j]];
    }
  }
}
