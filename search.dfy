/**
 * The product search: a case-insensitive substring test on the product
 * name, and how its results relate to the full sorted table.
 */
module Search {
  import opened Text
  import opened Records
  import opened Sorting

  /** `text.lower() in item['product'].lower()`. */
  predicate Matches(r: Record, text: string): (b: bool)
    ensures b <==> exists i: nat :: OccursAt(Lower(text), Lower(r.product), i)
    ensures b ==> |text| <= |r.product|
  {
    IsSubstringAt(Lower(text), Lower(r.product));
    assert IsSubstring(Lower(text), Lower(r.product)) <==> exists i: nat :: OccursAt(Lower(text), Lower(r.product), i);
    IsSubstring(Lower(text), Lower(r.product))
  }

  /** The records of `s` that match `text`, in their order in `s`. */
  function Matching(s: seq<Record>, text: string): (r: seq<Record>)
    ensures |r| <= |s|
    ensures forall x :: x in r <==> x in s && Matches(x, text)
  {
    if s == [] then []
    else (if Matches(s[0], text) then [s[0]] else []) + Matching(s[1..], text)
  }

  lemma {:induction false} MatchingConcat(a: seq<Record>, b: seq<Record>, text: string)
    ensures Matching(a + b, text) == Matching(a, text) + Matching(b, text)
  {
    if a == [] {
      assert a + b == b;
    } else {
      assert (a + b)[1..] == a[1..] + b;
      MatchingConcat(a[1..], b, text);
    }
  }

  /** Appending a record appends it to the matches exactly when it matches. */
  lemma MatchingSnoc(s: seq<Record>, x: Record, text: string)
    ensures Matching(s + [x], text) == Matching(s, text) + (if Matches(x, text) then [x] else [])
  {
    MatchingConcat(s, [x], text);
    assert [x][1..] == [];
  }

  /** The empty search text matches every record, so the filter keeps everything. */
  lemma {:induction false} EmptyTextMatchesAll(s: seq<Record>)
    ensures Matching(s, "") == s
  {
    if s != [] {
      EmptyIsSubstring(Lower(s[0].product));
      EmptyTextMatchesAll(s[1..]);
    }
  }

  /** Searching for a text and for its lowercase form finds the same records. */
  lemma {:induction false} SearchIgnoresCase(s: seq<Record>, text: string)
    ensures Matching(s, Lower(text)) == Matching(s, text)
  {
    LowerIdempotent(text);
    if s != [] {
      SearchIgnoresCase(s[1..], text);
    }
  }

  /** Example: "мол" finds "Молоко 1л". */
  lemma MatchesExample(r: Record)
    requires r.product == "Молоко 1л"
    ensures Matches(r, "мол")
  {
    var p := Lower(r.product);
    assert p[..3] == [LowerChar(r.product[0]), LowerChar(r.product[1]), LowerChar(r.product[2])];
    assert Lower("мол") == "мол";
    OccursIsSubstring("мол", p, 0);
  }

  /** A sub-sequence chosen by the search keeps a sorted sequence sorted. */
  lemma {:induction false} MatchingKeepsSorted(s: seq<Record>, text: string)
    requires SortedByUnitPrice(s)
    ensures SortedByUnitPrice(Matching(s, text))
  {
    if s != [] {
      MatchingKeepsSorted(s[1..], text);
      var rest := Matching(s[1..], text);
      forall x | x in rest
        ensures s[0].pricePerKg <= x.pricePerKg
      {
        var j :| 0 <= j < |s[1..]| && s[1..][j] == x;
        assert s[j + 1] == x;
      }
    }
  }

  /** Selecting by price and selecting by search text commute. */
  lemma {:induction false} MatchingWithUnitPrice(s: seq<Record>, text: string, k: real)
    ensures WithUnitPrice(Matching(s, text), k) == Matching(WithUnitPrice(s, k), text)
  {
    if s != [] {
      MatchingWithUnitPrice(s[1..], text, k);
      var head := if Matches(s[0], text) then [s[0]] else [];
      WithUnitPriceConcat(head, Matching(s[1..], text), k);
      MatchingConcat(if s[0].pricePerKg == k then [s[0]] else [], WithUnitPrice(s[1..], k), text);
    }
  }

  /**
   * Searching and then sorting gives the same sequence as sorting the
   * whole store and then keeping the matches: every search result is the
   * matching part of the exported table, in the same order.
   */
  lemma SearchAgreesWithTable(s: seq<Record>, table: seq<Record>, found: seq<Record>, text: string)
    requires SortedByUnitPrice(table) && KeepsTies(s, table)
    requires SortedByUnitPrice(found) && KeepsTies(Matching(s, text), found)
    ensures Matching(table, text) == found
  {
    MatchingKeepsSorted(table, text);
    forall k
      ensures WithUnitPrice(found, k) == WithUnitPrice(Matching(table, text), k)
    {
      MatchingWithUnitPrice(table, text, k);
      MatchingWithUnitPrice(s, text, k);
    }
    SortedTiesUnique(Matching(table, text), found);
  }
}
