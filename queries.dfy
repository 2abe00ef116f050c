/**
 * The store's views: the stream filters of the category view, of the
 * monthly and yearly reports, and the removeIf of deletion. Each is an
 * order-preserving filter of the stored list.
 */
module Queries {
  import opened Text
  import opened Ledger

  /** Stream.filter(p).collect(toList()): the elements that satisfy p, in order. */
  function Filter<T(!new)>(s: seq<T>, p: T -> bool): (r: seq<T>)
    ensures |r| <= |s|
    ensures forall x :: x in r <==> x in s && p(x)
  {
    if s == [] then []
    else
      assert s == [s[0]] + s[1..];
      (if p(s[0]) then [s[0]] else []) + Filter(s[1..], p)
  }

  /** Filtering commutes with concatenation: the kept elements keep their relative order. */
  lemma {:induction false} FilterAppend<T(!new)>(a: seq<T>, b: seq<T>, p: T -> bool)
    ensures Filter(a + b, p) == Filter(a, p) + Filter(b, p)
  {
    if a == [] {
      assert a + b == b;
    } else {
      assert (a + b)[0] == a[0];
      assert (a + b)[1..] == a[1..] + b;
      FilterAppend(a[1..], b, p);
    }
  }

  /** A filter keeps everything when every element passes. */
  lemma {:induction false} FilterKeepsAll<T(!new)>(s: seq<T>, p: T -> bool)
    requires forall i :: 0 <= i < |s| ==> p(s[i])
    ensures Filter(s, p) == s
  {
    if s != [] {
      FilterKeepsAll(s[1..], p);
    }
  }

  /** A filter keeps nothing when no element passes. */
  lemma {:induction false} FilterKeepsNone<T(!new)>(s: seq<T>, p: T -> bool)
    requires forall i :: 0 <= i < |s| ==> !p(s[i])
    ensures Filter(s, p) == []
  {
    if s != [] {
      FilterKeepsNone(s[1..], p);
    }
  }

  /** Two filters that agree on every element give the same result. */
  lemma {:induction false} FilterCongruent<T(!new)>(s: seq<T>, p: T -> bool, q: T -> bool)
    requires forall x :: p(x) == q(x)
    ensures Filter(s, p) == Filter(s, q)
  {
    if s != [] {
      FilterCongruent(s[1..], p, q);
    }
  }

  /** Filtering twice is filtering once by the conjunction. */
  lemma {:induction false} FilterFilter<T(!new)>(s: seq<T>, p: T -> bool, q: T -> bool, both: T -> bool)
    requires forall x :: both(x) == (p(x) && q(x))
    ensures Filter(Filter(s, p), q) == Filter(s, both)
  {
    if s != [] {
      FilterFilter(s[1..], p, q, both);
      var head := if p(s[0]) then [s[0]] else [];
      FilterAppend(head, Filter(s[1..], p), q);
    }
  }

  /** A filter and its complement share out the elements between them. */
  lemma {:induction false} FilterComplementLength<T(!new)>(s: seq<T>, p: T -> bool, notP: T -> bool)
    requires forall x :: notP(x) == !p(x)
    ensures |Filter(s, p)| + |Filter(s, notP)| == |s|
  {
    if s != [] {
      FilterComplementLength(s[1..], p, notP);
    }
  }

  // ---------------------------------------------------------------------
  // The tests the source filters by

  function CategoryMatches(query: string): Transaction -> bool
  {
    (t: Transaction) => EqualsIgnoreCase(t.category, query)
  }

  function InMonthOfYear(month: int, year: int): Transaction -> bool
  {
    (t: Transaction) => t.date.month == month && t.date.year == year
  }

  function InYear(year: int): Transaction -> bool
  {
    (t: Transaction) => t.date.year == year
  }

  function InMonth(month: int): Transaction -> bool
  {
    (t: Transaction) => t.date.month == month
  }

  function HasId(id: string): Transaction -> bool
  {
    (t: Transaction) => t.id == id
  }

  function HasOtherId(id: string): Transaction -> bool
  {
    (t: Transaction) => t.id != id
  }

  // ---------------------------------------------------------------------
  // Views

  /** viewTransactionsByCategory: the transactions whose category equals the query ignoring case. */
  function ByCategory(ts: seq<Transaction>, query: string): (r: seq<Transaction>)
    ensures forall t :: t in r <==> t in ts && EqualsIgnoreCase(t.category, query)
  {
    Filter(ts, CategoryMatches(query))
  }

  /** The transactions of generateMonthlyReport: dated in the given month of the given year. */
  function ByMonth(ts: seq<Transaction>, month: int, year: int): (r: seq<Transaction>)
    ensures forall t :: t in r <==> t in ts && t.date.month == month && t.date.year == year
  {
    Filter(ts, InMonthOfYear(month, year))
  }

  /** The transactions of generateYearlyReport: dated in the given year. */
  function ByYear(ts: seq<Transaction>, year: int): (r: seq<Transaction>)
    ensures forall t :: t in r <==> t in ts && t.date.year == year
  {
    Filter(ts, InYear(year))
  }

  /** removeIf(t -> t.getId().equals(id)): every transaction with another id, in order. */
  function RemoveId(ts: seq<Transaction>, id: string): (r: seq<Transaction>)
    ensures forall t :: t in r <==> t in ts && t.id != id
  {
    Filter(ts, HasOtherId(id))
  }

  /**
   * Deletion removes every transaction carrying the id, not only the
   * first: the list shrinks by the number of matches, so it shrinks iff
   * some transaction carries the id.
   */
  lemma RemoveIdCount(ts: seq<Transaction>, id: string)
    ensures |RemoveId(ts, id)| == |ts| - |Filter(ts, HasId(id))|
    ensures |RemoveId(ts, id)| < |ts| <==> exists t :: t in ts && t.id == id
  {
    FilterComplementLength(ts, HasId(id), HasOtherId(id));
    var hits := Filter(ts, HasId(id));
    if hits != [] {
      assert hits[0] in hits;
    }
  }

  /** The month loop of the yearly report filters the year's list by month: the same as the monthly view. */
  lemma ByMonthWithinYear(ts: seq<Transaction>, month: int, year: int)
    ensures Filter(ByYear(ts, year), InMonth(month)) == ByMonth(ts, month, year)
  {
    FilterFilter(ts, InYear(year), InMonth(month), InMonthOfYear(month, year));
  }

  /** A query in lower case finds a category stored with a capital letter. */
  lemma LowerCaseQueryFindsCategory(t: Transaction)
    requires t.category == "Food"
    ensures ByCategory([t], "food") == [t]
  {
    assert EqualsIgnoreCase(t.category, "food");
    FilterKeepsAll([t], CategoryMatches("food"));
  }
}
