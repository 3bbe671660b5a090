/**
 * Sequence facts shared by the log aggregation: how often a value occurs,
 * and the order in which a Python dict remembers its keys (the order of
 * first insertion).
 */
module Collections {

  /** Number of positions of `xs` holding `x`. */
  function Occurrences<T(==)>(xs: seq<T>, x: T): (n: nat)
    ensures n <= |xs|
    ensures n > 0 <==> x in xs
  {
    if xs == [] then 0
    else
      assert xs == xs[..|xs| - 1] + [xs[|xs| - 1]];
      Occurrences(xs[..|xs| - 1], x) + (if xs[|xs| - 1] == x then 1 else 0)
  }

  predicate Distinct<T(==)>(xs: seq<T>)
  {
    forall i, j :: 0 <= i < j < |xs| ==> xs[i] != xs[j]
  }

  /**
   * The values of `xs` without repeats, each where it first occurs: the keys
   * of a dict filled by walking `xs`, in the dict's iteration order.
   */
  function FirstSeen<T(==)>(xs: seq<T>): (ks: seq<T>)
    ensures Distinct(ks)
    ensures forall i :: 0 <= i < |ks| ==> ks[i] in xs
    ensures forall i :: 0 <= i < |xs| ==> xs[i] in ks
  {
    if xs == [] then []
    else
      var ks := FirstSeen(xs[..|xs| - 1]);
      assert xs == xs[..|xs| - 1] + [xs[|xs| - 1]];
      if xs[|xs| - 1] in ks then ks else ks + [xs[|xs| - 1]]
  }

  /** Position of the first occurrence of `x` in `xs`. */
  function FirstIndex<T(==)>(xs: seq<T>, x: T): (k: nat)
    requires x in xs
    ensures k < |xs| && xs[k] == x
    ensures forall m :: 0 <= m < k ==> xs[m] != x
  {
    if xs[0] == x then 0 else 1 + FirstIndex(xs[1..], x)
  }

  /** A first occurrence inside a prefix is the first occurrence in the whole sequence. */
  lemma FirstIndexOfPrefix<T>(xs: seq<T>, n: nat, x: T)
    requires n <= |xs| && x in xs[..n]
    ensures FirstIndex(xs, x) == FirstIndex(xs[..n], x)
  {
    var k0 := FirstIndex(xs[..n], x);
    assert xs[k0] == x;
    assert forall m :: 0 <= m < k0 ==> xs[m] == xs[..n][m];
  }

  /** A value missing from all but the last position first occurs there. */
  lemma FirstIndexOfLast<T>(xs: seq<T>)
    requires xs != [] && xs[|xs| - 1] !in xs[..|xs| - 1]
    ensures FirstIndex(xs, xs[|xs| - 1]) == |xs| - 1
  {
    assert forall m :: 0 <= m < |xs| - 1 ==> xs[m] == xs[..|xs| - 1][m];
  }

  /** The keys of FirstSeen are ordered by where they first occur in `xs`. */
  lemma {:induction false} FirstSeenOrder<T>(xs: seq<T>)
    ensures forall i, j :: 0 <= i < j < |FirstSeen(xs)| ==>
      FirstIndex(xs, FirstSeen(xs)[i]) < FirstIndex(xs, FirstSeen(xs)[j])
  {
    if xs != [] {
      var n := |xs| - 1;
      var init, ks := xs[..n], FirstSeen(xs);
      var ks0 := FirstSeen(init);
      FirstSeenOrder(init);
      assert ks == if xs[n] in ks0 then ks0 else ks0 + [xs[n]];
      forall i, j | 0 <= i < j < |ks|
        ensures FirstIndex(xs, ks[i]) < FirstIndex(xs, ks[j])
      {
        assert ks[i] == ks0[i] && ks0[i] in init;
        FirstIndexOfPrefix(xs, n, ks[i]);
        if j < |ks0| {
          assert ks[j] == ks0[j] && ks0[j] in init;
          FirstIndexOfPrefix(xs, n, ks[j]);
        } else {
          assert ks[j] == xs[n] && xs[n] !in ks0;
          FirstIndexOfLast(xs);
        }
      }
    }
  }

  /** Sum, over the keys `ks`, of how often each occurs in `xs`. */
  function OccurrenceSum<T(==)>(xs: seq<T>, ks: seq<T>): nat
  {
    if ks == [] then 0 else Occurrences(xs, ks[0]) + OccurrenceSum(xs, ks[1..])
  }

  /** A value that occurs once in distinct keys is counted once. */
  lemma {:induction false} OccurrencesOfDistinct<T>(ks: seq<T>, x: T)
    requires Distinct(ks)
    ensures Occurrences(ks, x) == if x in ks then 1 else 0
  {
    if ks != [] {
      var init := ks[..|ks| - 1];
      OccurrencesOfDistinct(init, x);
      if ks[|ks| - 1] == x {
        assert x !in init;
      }
    }
  }

  /** Appending one value to `xs` adds, over the keys, how often the keys hold it. */
  lemma {:induction false} OccurrenceSumSnoc<T>(xs: seq<T>, x: T, ks: seq<T>)
    ensures OccurrenceSum(xs + [x], ks) == OccurrenceSum(xs, ks) + Occurrences(ks, x)
  {
    if ks != [] {
      OccurrenceSumSnoc(xs, x, ks[1..]);
      assert (xs + [x])[..|xs|] == xs;
      OccurrencesFront(ks, x);
    }
  }

  /** Occurrences counted from the front. */
  lemma {:induction false} OccurrencesFront<T>(xs: seq<T>, x: T)
    requires xs != []
    ensures Occurrences(xs, x) == (if xs[0] == x then 1 else 0) + Occurrences(xs[1..], x)
  {
    if |xs| > 1 {
      var n := |xs| - 1;
      OccurrencesFront(xs[..n], x);
      assert xs[..n][1..] == xs[1..][..n - 1];
    }
  }

  /**
   * When the keys are distinct and cover every value of `xs`, their
   * occurrence counts add up to the length of `xs`.
   */
  lemma {:induction false} OccurrenceSumIsLength<T>(xs: seq<T>, ks: seq<T>)
    requires Distinct(ks)
    requires forall i :: 0 <= i < |xs| ==> xs[i] in ks
    ensures OccurrenceSum(xs, ks) == |xs|
  {
    if xs == [] {
      OccurrenceSumOfEmpty(xs, ks);
    } else {
      var n := |xs| - 1;
      assert xs == xs[..n] + [xs[n]];
      OccurrenceSumIsLength(xs[..n], ks);
      OccurrenceSumSnoc(xs[..n], xs[n], ks);
      OccurrencesOfDistinct(ks, xs[n]);
    }
  }

  lemma {:induction false} OccurrenceSumOfEmpty<T>(xs: seq<T>, ks: seq<T>)
    requires xs == []
    ensures OccurrenceSum(xs, ks) == 0
  {
    if ks != [] {
      OccurrenceSumOfEmpty(xs, ks[1..]);
    }
  }
}
