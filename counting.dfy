/**
 * `Counter(xs).most_common(1)[0][0]`: a Counter counts the elements into a
 * dict whose keys keep the order in which each element was first seen, and
 * `most_common(1)` takes `max` over those keys by count, which keeps the
 * first of equally frequent keys.
 */
module Counting {
  import opened Wrappers

  /** How often `x` occurs in `xs`. */
  function Occurrences<T(==,!new)>(xs: seq<T>, x: T): nat
  {
    if xs == [] then 0
    else Occurrences(xs[..|xs| - 1], x) + (if xs[|xs| - 1] == x then 1 else 0)
  }

  /** Where `x` occurs first in `xs`. */
  function FirstIndex<T(==,!new)>(xs: seq<T>, x: T): (i: nat)
    requires x in xs
    ensures i < |xs| && xs[i] == x
    ensures forall j :: 0 <= j < i ==> xs[j] != x
  {
    if x in xs[..|xs| - 1] then FirstIndex(xs[..|xs| - 1], x) else |xs| - 1
  }

  lemma {:induction false} OccursIffPositive<T(!new)>(xs: seq<T>, x: T)
    ensures x in xs <==> Occurrences(xs, x) > 0
  {
    if xs != [] {
      var p := xs[..|xs| - 1];
      assert xs == p + [xs[|xs| - 1]];
      OccursIffPositive(p, x);
    }
  }

  /** A Counter: the distinct elements in first-seen order and each one's count. */
  datatype Counter<T> = Counter(keys: seq<T>, counts: map<T, nat>)

  /** `Counter(xs)`: one pass over `xs`, inserting unseen elements at the end with count 1. */
  function CountElements<T(==,!new)>(xs: seq<T>): (c: Counter<T>)
  {
    if xs == [] then Counter([], map[])
    else
      var c := CountElements(xs[..|xs| - 1]);
      var x := xs[|xs| - 1];
      if x in c.counts then Counter(c.keys, c.counts[x := c.counts[x] + 1])
      else Counter(c.keys + [x], c.counts[x := 1])
  }

  /** What the Counter holds: exactly the elements of `xs`, each with its count, keys in first-seen order. */
  ghost predicate CounterOf<T(!new)>(xs: seq<T>, c: Counter<T>)
  {
    && (forall x :: x in c.keys <==> x in xs)
    && (forall x :: x in c.counts <==> x in xs)
    && (forall x :: x in c.counts ==> c.counts[x] == Occurrences(xs, x))
    && (forall i, j :: 0 <= i < j < |c.keys| ==> FirstIndex(xs, c.keys[i]) < FirstIndex(xs, c.keys[j]))
  }

  lemma {:induction false} CountElementsKeys<T(!new)>(xs: seq<T>)
    ensures forall x :: x in CountElements(xs).keys <==> x in xs
    ensures forall x :: x in CountElements(xs).counts <==> x in xs
  {
    if xs != [] {
      var p, x := xs[..|xs| - 1], xs[|xs| - 1];
      CountElementsKeys(p);
      assert xs == p + [x];
    }
  }

  lemma {:induction false} CountElementsCounts<T(!new)>(xs: seq<T>)
    ensures forall x :: x in CountElements(xs).counts ==> CountElements(xs).counts[x] == Occurrences(xs, x)
  {
    if xs != [] {
      var p := xs[..|xs| - 1];
      CountElementsCounts(p);
      CountElementsKeys(p);
      OccursIffPositiveAll(p);
    }
  }

  lemma OccursIffPositiveAll<T(!new)>(xs: seq<T>)
    ensures forall x :: x !in xs ==> Occurrences(xs, x) == 0
  {
    forall x | x !in xs ensures Occurrences(xs, x) == 0 {
      OccursIffPositive(xs, x);
    }
  }

  lemma {:induction false} CountElementsOrder<T(!new)>(xs: seq<T>)
    ensures forall x :: x in CountElements(xs).keys ==> x in xs
    ensures forall i, j :: 0 <= i < j < |CountElements(xs).keys| ==>
      FirstIndex(xs, CountElements(xs).keys[i]) < FirstIndex(xs, CountElements(xs).keys[j])
  {
    CountElementsKeys(xs);
    if xs != [] {
      var p, x := xs[..|xs| - 1], xs[|xs| - 1];
      CountElementsOrder(p);
      CountElementsKeys(p);
      var c0, c := CountElements(p), CountElements(xs);
      forall i, j | 0 <= i < j < |c.keys|
        ensures FirstIndex(xs, c.keys[i]) < FirstIndex(xs, c.keys[j])
      {
        if j < |c0.keys| {
          assert c.keys[i] == c0.keys[i] && c.keys[j] == c0.keys[j];
          assert FirstIndex(xs, c0.keys[i]) == FirstIndex(p, c0.keys[i]);
          assert FirstIndex(xs, c0.keys[j]) == FirstIndex(p, c0.keys[j]);
        } else {
          assert x !in c0.counts && c.keys == c0.keys + [x];
          assert c.keys[i] == c0.keys[i] && c.keys[j] == x;
          assert FirstIndex(xs, c0.keys[i]) == FirstIndex(p, c0.keys[i]);
        }
      }
    }
  }

  lemma CountElementsCorrect<T(!new)>(xs: seq<T>)
    ensures CounterOf(xs, CountElements(xs))
  {
    CountElementsKeys(xs);
    CountElementsCounts(xs);
    CountElementsOrder(xs);
  }

  /**
   * `max(keys, key=counts.get)`: the position of the first key whose count is
   * not exceeded by any other; a later key replaces the best so far only when
   * its count is strictly larger.
   */
  function FirstMaxIndex<T(!new)>(keys: seq<T>, counts: map<T, nat>): (k: nat)
    requires |keys| > 0 && forall x :: x in keys ==> x in counts
    ensures k < |keys|
    ensures forall i :: 0 <= i < |keys| ==> counts[keys[i]] <= counts[keys[k]]
    ensures forall i :: 0 <= i < k ==> counts[keys[i]] < counts[keys[k]]
  {
    if |keys| == 1 then 0
    else
      var best := FirstMaxIndex(keys[..|keys| - 1], counts);
      if counts[keys[|keys| - 1]] > counts[keys[best]] then |keys| - 1 else best
  }

  /** `Counter(xs).most_common(1)[0][0]`, `None` where the source raises IndexError. */
  function MostCommon<T(==,!new)>(xs: seq<T>): (r: Option<T>)
    ensures r.None? <==> xs == []
    ensures r.Some? ==> r.value in xs
  {
    if xs == [] then None
    else
      var c := CountElements(xs);
      CountElementsCorrect(xs);
      assert xs[0] in c.keys;
      Some(c.keys[FirstMaxIndex(c.keys, c.counts)])
  }

  /** The first element of `xs`, in order of first occurrence, among those occurring most often. */
  ghost predicate IsFirstMode<T(!new)>(xs: seq<T>, m: T)
  {
    && m in xs
    && (forall y :: y in xs ==> Occurrences(xs, y) <= Occurrences(xs, m))
    && (forall j :: 0 <= j < FirstIndex(xs, m) ==> Occurrences(xs, xs[j]) < Occurrences(xs, m))
  }

  /**
   * The most common element occurs at least as often as any other, and every
   * element seen before its first occurrence occurs strictly less often.
   */
  lemma {:induction false} MostCommonIsFirstMode<T(!new)>(xs: seq<T>)
    requires xs != []
    ensures IsFirstMode(xs, MostCommon(xs).value)
  {
    var c := CountElements(xs);
    CountElementsKeys(xs);
    CountElementsCounts(xs);
    CountElementsOrder(xs);
    assert xs[0] in c.keys;
    var k := FirstMaxIndex(c.keys, c.counts);
    var m := c.keys[k];
    assert MostCommon(xs).value == m;
    forall y | y in xs
      ensures Occurrences(xs, y) <= Occurrences(xs, m)
    {
      var i :| 0 <= i < |c.keys| && c.keys[i] == y;
      assert c.counts[c.keys[i]] <= c.counts[c.keys[k]];
    }
    forall j | 0 <= j < FirstIndex(xs, m)
      ensures Occurrences(xs, xs[j]) < Occurrences(xs, m)
    {
      var y := xs[j];
      assert y in c.keys;
      var i :| 0 <= i < |c.keys| && c.keys[i] == y;
      assert FirstIndex(xs, y) <= j;
      if k < i {
        assert false;
      }
      assert i != k;
      assert c.counts[c.keys[i]] < c.counts[c.keys[k]];
    }
  }

  /** The first mode is unique: the tie-break leaves no choice. */
  lemma FirstModeUnique<T(!new)>(xs: seq<T>, m1: T, m2: T)
    requires IsFirstMode(xs, m1) && IsFirstMode(xs, m2)
    ensures m1 == m2
  {
  }
}
