/**
 * Python's `sorted(..., key=lambda x: x['price_per_kg'])`: a stable sort
 * of records in ascending order of their price per kilogram, returning a
 * new list.
 */
module Sorting {
  import opened Records

  /** Non-decreasing by price per kilogram. */
  predicate SortedByUnitPrice(s: seq<Record>) {
    forall i, j :: 0 <= i < j < |s| ==> s[i].pricePerKg <= s[j].pricePerKg
  }

  /** The records of `s` whose price per kilogram is exactly `k`, in their order in `s`. */
  function WithUnitPrice(s: seq<Record>, k: real): (r: seq<Record>)
    ensures |r| <= |s|
  {
    if s == [] then []
    else (if s[0].pricePerKg == k then [s[0]] else []) + WithUnitPrice(s[1..], k)
  }

  /** `WithUnitPrice` selects records of `s`, and only those priced at `k`. */
  lemma {:induction false} WithUnitPriceMembers(s: seq<Record>, k: real, x: Record)
    requires x in WithUnitPrice(s, k)
    ensures x in s && x.pricePerKg == k
  {
    if s[0] != x || s[0].pricePerKg != k {
      WithUnitPriceMembers(s[1..], k, x);
    }
  }

  /**
   * Stability: for every price per kilogram, `r` holds the records of `s`
   * with that price in the order they have in `s`.
   */
  ghost predicate KeepsTies(s: seq<Record>, r: seq<Record>) {
    forall k :: WithUnitPrice(r, k) == WithUnitPrice(s, k)
  }

  lemma {:induction false} WithUnitPriceConcat(a: seq<Record>, b: seq<Record>, k: real)
    ensures WithUnitPrice(a + b, k) == WithUnitPrice(a, k) + WithUnitPrice(b, k)
  {
    if a != [] {
      assert (a + b)[1..] == a[1..] + b;
      WithUnitPriceConcat(a[1..], b, k);
    } else {
      assert a + b == b;
    }
  }

  lemma {:induction false} WithUnitPriceNone(s: seq<Record>, k: real)
    requires forall j :: 0 <= j < |s| ==> s[j].pricePerKg != k
    ensures WithUnitPrice(s, k) == []
  {
    if s != [] {
      WithUnitPriceNone(s[1..], k);
    }
  }

  /**
   * Putting `x` after every record that is not dearer than it and before
   * every dearer one adds `x` at the end of its own tie group.
   */
  lemma InsertKeepsTies(r: seq<Record>, p: nat, x: Record, k: real)
    requires p <= |r|
    requires forall j :: p <= j < |r| ==> x.pricePerKg < r[j].pricePerKg
    ensures WithUnitPrice(r[..p] + [x] + r[p..], k) == WithUnitPrice(r + [x], k)
  {
    assert r == r[..p] + r[p..];
    WithUnitPriceConcat(r[..p] + [x], r[p..], k);
    WithUnitPriceConcat(r[..p], [x], k);
    WithUnitPriceConcat(r, [x], k);
    WithUnitPriceConcat(r[..p], r[p..], k);
    if k == x.pricePerKg {
      WithUnitPriceNone(r[p..], k);
    }
  }

  /**
   * The position at which insertion sort puts `x` into the sorted `r`:
   * after every record that is not dearer than `x`.
   */
  method InsertionPoint(r: seq<Record>, x: Record) returns (p: nat)
    requires SortedByUnitPrice(r)
    ensures p <= |r|
    ensures forall j :: 0 <= j < p ==> r[j].pricePerKg <= x.pricePerKg
    ensures forall j :: p <= j < |r| ==> x.pricePerKg < r[j].pricePerKg
  {
    p := 0;
    while p < |r| && r[p].pricePerKg <= x.pricePerKg
      invariant p <= |r|
      invariant forall j :: 0 <= j < p ==> r[j].pricePerKg <= x.pricePerKg
    {
      p := p + 1;
    }
  }

  /** Inserting the next input record at its insertion point keeps the sort's three invariants. */
  lemma InsertStep(s: seq<Record>, i: nat, r: seq<Record>, p: nat)
    requires i < |s| && p <= |r|
    requires SortedByUnitPrice(r) && multiset(r) == multiset(s[..i]) && KeepsTies(s[..i], r)
    requires forall j :: 0 <= j < p ==> r[j].pricePerKg <= s[i].pricePerKg
    requires forall j :: p <= j < |r| ==> s[i].pricePerKg < r[j].pricePerKg
    ensures var r' := r[..p] + [s[i]] + r[p..];
      SortedByUnitPrice(r') && multiset(r') == multiset(s[..i + 1]) && KeepsTies(s[..i + 1], r')
  {
    var x := s[i];
    var r' := r[..p] + [x] + r[p..];
    assert s[..i + 1] == s[..i] + [x];
    assert r == r[..p] + r[p..];
    forall k
      ensures WithUnitPrice(r', k) == WithUnitPrice(s[..i + 1], k)
    {
      InsertKeepsTies(r, p, x, k);
      WithUnitPriceConcat(r, [x], k);
      WithUnitPriceConcat(s[..i], [x], k);
    }
    InsertSorted(r, p, x);
  }

  /** A record put between the records not dearer than it and the dearer ones keeps a sorted sequence sorted. */
  lemma InsertSorted(r: seq<Record>, p: nat, x: Record)
    requires p <= |r| && SortedByUnitPrice(r)
    requires forall j :: 0 <= j < p ==> r[j].pricePerKg <= x.pricePerKg
    requires forall j :: p <= j < |r| ==> x.pricePerKg < r[j].pricePerKg
    ensures SortedByUnitPrice(r[..p] + [x] + r[p..])
  {
    var r' := r[..p] + [x] + r[p..];
    forall a, b | 0 <= a < b < |r'|
      ensures r'[a].pricePerKg <= r'[b].pricePerKg
    {
      assert r'[a] == (if a < p then r[a] else if a == p then x else r[a - 1]);
      assert r'[b] == (if b < p then r[b] else if b == p then x else r[b - 1]);
    }
  }

  /** A stable ascending sort on the price per kilogram (insertion sort). */
  method StableSort(s: seq<Record>) returns (r: seq<Record>)
    ensures |r| == |s|
    ensures SortedByUnitPrice(r)
    ensures multiset(r) == multiset(s)
    ensures KeepsTies(s, r)
  {
    r := [];
    for i := 0 to |s|
      invariant |r| == i
      invariant SortedByUnitPrice(r)
      invariant multiset(r) == multiset(s[..i])
      invariant KeepsTies(s[..i], r)
    {
      var p := InsertionPoint(r, s[i]);
      InsertStep(s, i, r, p);
      r := r[..p] + [s[i]] + r[p..];
    }
    assert s[..|s|] == s;
  }

  /** The first record's own price per kilogram selects it. */
  lemma WithHeadUnitPrice(s: seq<Record>)
    requires s != []
    ensures WithUnitPrice(s, s[0].pricePerKg) != []
  {
  }

  /** In a sorted sequence the first record is not dearer than any record in it. */
  lemma SortedHeadIsLeast(s: seq<Record>, x: Record)
    requires SortedByUnitPrice(s) && x in s
    ensures s[0].pricePerKg <= x.pricePerKg
  {
    var j :| 0 <= j < |s| && s[j] == x;
  }

  /** Of two sequences that keep each other's ties, the second starts no dearer than the first. */
  lemma HeadNotDearer(a: seq<Record>, b: seq<Record>)
    requires a != [] && SortedByUnitPrice(b)
    requires KeepsTies(a, b)
    ensures b != [] && b[0].pricePerKg <= a[0].pricePerKg
  {
    var k := a[0].pricePerKg;
    WithHeadUnitPrice(a);
    assert WithUnitPrice(b, k) == WithUnitPrice(a, k);
    var y := WithUnitPrice(b, k)[0];
    WithUnitPriceMembers(b, k, y);
    SortedHeadIsLeast(b, y);
  }

  /** Two sequences that keep each other's ties and start at the same price start alike and keep ties after it. */
  lemma TailsKeepTies(a: seq<Record>, b: seq<Record>)
    requires a != [] && b != [] && a[0].pricePerKg == b[0].pricePerKg
    requires KeepsTies(a, b)
    ensures a[0] == b[0] && KeepsTies(a[1..], b[1..])
  {
    var k0 := a[0].pricePerKg;
    assert WithUnitPrice(a, k0) == WithUnitPrice(b, k0);
    assert WithUnitPrice(a, k0)[0] == a[0] && WithUnitPrice(b, k0)[0] == b[0];
    forall k
      ensures WithUnitPrice(b[1..], k) == WithUnitPrice(a[1..], k)
    {
      assert WithUnitPrice(a, k) == WithUnitPrice(b, k);
      if k == k0 {
        assert WithUnitPrice(a[1..], k) == WithUnitPrice(a, k)[1..];
        assert WithUnitPrice(b[1..], k) == WithUnitPrice(b, k)[1..];
      } else {
        assert WithUnitPrice(a[1..], k) == WithUnitPrice(a, k);
        assert WithUnitPrice(b[1..], k) == WithUnitPrice(b, k);
      }
    }
  }

  /**
   * A stable sort has only one possible result: two sorted sequences that
   * hold the same records in the same order for every price per kilogram
   * are equal.
   */
  lemma {:induction false} SortedTiesUnique(a: seq<Record>, b: seq<Record>)
    requires SortedByUnitPrice(a) && SortedByUnitPrice(b)
    requires KeepsTies(a, b)
    ensures a == b
  {
    if a != [] {
      HeadNotDearer(a, b);
      HeadNotDearer(b, a);
      TailsKeepTies(a, b);
      SortedTiesUnique(a[1..], b[1..]);
      assert a == [a[0]] + a[1..] && b == [b[0]] + b[1..];
    } else if b != [] {
      HeadNotDearer(b, a);
      assert false;
    }
  }
}
