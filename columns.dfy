/**
 * The header heuristic: which column holds the product name, the price
 * and the weight. Every header is lowercased and looked up in three fixed
 * lists of Russian synonyms; the last header of each role wins.
 */
module Columns {
  import opened Wrappers
  import opened Text

  datatype Role = Product | Price | Weight

  const ProductNames: seq<string> := ["товар", "название", "наименование", "продукт"]
  const PriceNames: seq<string> := ["розница", "цена"]
  const WeightNames: seq<string> := ["вес", "масса", "фасовка"]

  /** The synonym list of a role. */
  function Synonyms(role: Role): seq<string> {
    match role
    case Product => ProductNames
    case Price => PriceNames
    case Weight => WeightNames
  }

  /**
   * The role a header takes: its lowercase form is looked up in the
   * product list, then the price list, then the weight list.
   */
  function Classify(header: string): Option<Role> {
    var h := Lower(header);
    if h in ProductNames then Some(Product)
    else if h in PriceNames then Some(Price)
    else if h in WeightNames then Some(Weight)
    else None
  }

  /**
   * The three lists share no word, so the order of the lookups does not
   * matter: a header has a role exactly when its lowercase form is in that
   * role's list.
   */
  lemma ClassifyIff(header: string, role: Role)
    ensures Classify(header) == Some(role) <==> Lower(header) in Synonyms(role)
  {
  }

  /** The synonyms are written in lowercase, so a header spelled like one in any case matches. */
  lemma SynonymsAreLowercase(role: Role, i: nat)
    requires i < |Synonyms(role)|
    ensures Lower(Synonyms(role)[i]) == Synonyms(role)[i]
  {
    LowerOfLowercase(Synonyms(role)[i]);
  }

  /** Column indices for the three roles, each absent when no header has that role. */
  datatype ColumnMap = ColumnMap(product: Option<nat>, price: Option<nat>, weight: Option<nat>) {

    /** The product or the price column is missing: the resolver reports this. */
    predicate Incomplete() {
      product.None? || price.None?
    }
  }

  /** The position of the last header with role `role`, if there is one. */
  function LastIndex(headers: seq<string>, role: Role): (r: Option<nat>)
    ensures r.Some? ==> r.value < |headers| && Classify(headers[r.value]) == Some(role)
  {
    if headers == [] then None
    else if Classify(headers[|headers| - 1]) == Some(role) then Some(|headers| - 1)
    else LastIndex(headers[..|headers| - 1], role)
  }

  /** `LastIndex` finds the largest matching position, and nothing when no header matches. */
  lemma {:induction false} LastIndexIsLast(headers: seq<string>, role: Role)
    ensures LastIndex(headers, role).Some? ==>
      forall j :: LastIndex(headers, role).value < j < |headers| ==> Classify(headers[j]) != Some(role)
    ensures LastIndex(headers, role).None? <==>
      forall j :: 0 <= j < |headers| ==> Classify(headers[j]) != Some(role)
  {
    if headers != [] && Classify(headers[|headers| - 1]) != Some(role) {
      var init := headers[..|headers| - 1];
      LastIndexIsLast(init, role);
      assert forall j :: 0 <= j < |init| ==> init[j] == headers[j];
    }
  }

  /** The column map the resolver computes for a header row. */
  function Resolve(headers: seq<string>): (m: ColumnMap)
    ensures m.product.Some? ==> m.product.value < |headers|
    ensures m.price.Some? ==> m.price.value < |headers|
    ensures m.weight.Some? ==> m.weight.value < |headers|
    ensures m.product.Some? && m.price.Some? ==> m.product != m.price
    ensures m.product.Some? && m.weight.Some? ==> m.product != m.weight
    ensures m.price.Some? && m.weight.Some? ==> m.price != m.weight
  {
    ColumnMap(LastIndex(headers, Product), LastIndex(headers, Price), LastIndex(headers, Weight))
  }

  /** The resolver reports a problem exactly when no header names the product or none names the price. */
  lemma IncompleteIff(headers: seq<string>)
    ensures Resolve(headers).Incomplete() <==>
      (forall j :: 0 <= j < |headers| ==> Classify(headers[j]) != Some(Product)) ||
      (forall j :: 0 <= j < |headers| ==> Classify(headers[j]) != Some(Price))
  {
    LastIndexIsLast(headers, Product);
    LastIndexIsLast(headers, Price);
  }

  /** Header rows whose headers agree position by position up to case resolve alike. */
  lemma {:induction false} ResolveIgnoresCase(a: seq<string>, b: seq<string>)
    requires |a| == |b|
    requires forall i :: 0 <= i < |a| ==> Lower(a[i]) == Lower(b[i])
    ensures Resolve(a) == Resolve(b)
  {
    forall role: Role
      ensures LastIndex(a, role) == LastIndex(b, role)
    {
      LastIndexAgrees(a, b, role);
    }
  }

  lemma {:induction false} LastIndexAgrees(a: seq<string>, b: seq<string>, role: Role)
    requires |a| == |b|
    requires forall i :: 0 <= i < |a| ==> Lower(a[i]) == Lower(b[i])
    ensures LastIndex(a, role) == LastIndex(b, role)
  {
    if a != [] {
      var n := |a| - 1;
      assert Classify(a[n]) == Classify(b[n]);
      LastIndexAgrees(a[..n], b[..n], role);
    }
  }

  /** Example: the header row `Название,Цена,Вес` puts product, price and weight in columns 0, 1 and 2. */
  lemma ResolveExample(h: seq<string>)
    requires h == ["Название", "Цена", "Вес"]
    ensures Resolve(h) == ColumnMap(Some(0), Some(1), Some(2))
  {
    assert Lower(h[0]) == "название";
    assert Lower(h[1]) == "цена";
    assert Lower(h[2]) == "вес";
    ClassifyIff(h[0], Product);
    ClassifyIff(h[1], Price);
    ClassifyIff(h[2], Weight);
    assert h[..2][..1] == h[..1] && h[..1][..0] == [];
    assert LastIndex(h[..1], Product) == Some(0);
    assert LastIndex(h[..2], Product) == Some(0);
    assert LastIndex(h[..2], Price) == Some(1);
  }

  /** Example: with two price headers the later one wins, and without a name header the product is absent. */
  lemma ResolveLastPriceWins(h: seq<string>)
    requires h == ["Цена", "вес", "РОЗНИЦА"]
    ensures Resolve(h) == ColumnMap(None, Some(2), Some(1))
  {
    assert Lower(h[0]) == "цена";
    assert Lower(h[1]) == "вес";
    assert Lower(h[2]) == "розница";
    ClassifyIff(h[0], Price);
    ClassifyIff(h[1], Weight);
    ClassifyIff(h[2], Price);
    assert h[..2][..1] == h[..1] && h[..1][..0] == [];
    assert LastIndex(h[..1], Product) == None;
    assert LastIndex(h[..2], Product) == None;
    assert LastIndex(h, Product) == None;
    assert LastIndex(h[..2], Weight) == Some(1);
  }
}
