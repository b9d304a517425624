/**
 * The observation table: the five CSV columns `Date, Temperature, Condition,
 * Humidity, WindSpeed` as a record, the table as a sequence of records in
 * file (insertion) order, and the boolean-mask selection `df[mask]` that every
 * query uses.
 */
module Tables {
  import opened Calendar

  /** The six labels the form and the generator use. */
  datatype Condition = Sunny | Cloudy | Rainy | Stormy | Windy | Foggy

  datatype Observation = Observation(
    date: CalendarDate,
    temperature: int,
    condition: Condition,
    humidity: int,
    windSpeed: int)

  type Table = seq<Observation>

  /**
   * The two near-duplicate implementations: streamlit_app.py (NumPy draws,
   * one fixed CSV file) and utils.py (`random` draws, one CSV file per year,
   * season names capitalised).
   */
  datatype Copy = StreamlitApp | Utils

  /** `s[mask]`: the elements satisfying `p`, in their original order. */
  function Filter<T(!new)>(s: seq<T>, p: T -> bool): (r: seq<T>)
    ensures |r| <= |s|
    ensures forall x :: x in r <==> x in s && p(x)
  {
    if s == [] then []
    else (if p(s[0]) then [s[0]] else []) + Filter(s[1..], p)
  }

  /** Selection distributes over concatenation, so it keeps relative order. */
  lemma {:induction false} FilterAppend<T(!new)>(a: seq<T>, b: seq<T>, p: T -> bool)
    ensures Filter(a + b, p) == Filter(a, p) + Filter(b, p)
  {
    if a != [] {
      assert (a + b)[0] == a[0] && (a + b)[1..] == a[1..] + b;
      FilterAppend(a[1..], b, p);
      var head := if p(a[0]) then [a[0]] else [];
      assert Filter(a + b, p) == head + (Filter(a[1..], p) + Filter(b, p));
    } else {
      assert a + b == b;
    }
  }

  /** Only the predicate's values on the elements matter. */
  lemma {:induction false} FilterSame<T(!new)>(s: seq<T>, p: T -> bool, q: T -> bool)
    requires forall x :: x in s ==> (p(x) <==> q(x))
    ensures Filter(s, p) == Filter(s, q)
  {
    if s != [] {
      FilterSame(s[1..], p, q);
    }
  }

  /** A mask true on every element keeps the whole sequence. */
  lemma {:induction false} FilterKeepsAll<T(!new)>(s: seq<T>, p: T -> bool)
    requires forall x :: x in s ==> p(x)
    ensures Filter(s, p) == s
  {
    if s != [] {
      FilterKeepsAll(s[1..], p);
    }
  }

  /** A mask false on every element keeps nothing. */
  lemma {:induction false} FilterKeepsNone<T(!new)>(s: seq<T>, p: T -> bool)
    requires forall x :: x in s ==> !p(x)
    ensures Filter(s, p) == []
  {
    if s != [] {
      FilterKeepsNone(s[1..], p);
    }
  }

  /**
   * Selecting by a disjunction of two exclusive masks gives, as a multiset,
   * the two selections together: every element is in exactly one of them.
   */
  lemma {:induction false} FilterDisjointUnion<T(!new)>(s: seq<T>, p: T -> bool, q: T -> bool, pq: T -> bool)
    requires forall x :: pq(x) <==> p(x) || q(x)
    requires forall x :: !(p(x) && q(x))
    ensures multiset(Filter(s, pq)) == multiset(Filter(s, p)) + multiset(Filter(s, q))
  {
    if s != [] {
      FilterDisjointUnion(s[1..], p, q, pq);
    }
  }
}
