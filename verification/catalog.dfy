/** The immutable product catalog and its read-only queries: lookup of a
    product by id (first match in catalog order) and case-insensitive text
    search over name and description (an order-preserving filter). */
module Catalog {
  import opened Optional
  import opened Text

  /** A price: `units` whole units and `nanos` billionths of the currency. */
  datatype Money = Money(currencyCode: string, units: int, nanos: int)

  datatype Product = Product(
    id: string,
    name: string,
    description: string,
    picture: string,
    priceUsd: Money,
    categories: seq<string>)

  /** Some product of `catalog` carries `id`. */
  predicate HasId(catalog: seq<Product>, id: string) {
    exists i :: 0 <= i < |catalog| && catalog[i].id == id
  }

  /** Position `i` holds the earliest product of `catalog` whose id is `id`. */
  predicate IsFirstMatch(catalog: seq<Product>, id: string, i: int) {
    && 0 <= i < |catalog|
    && catalog[i].id == id
    && forall j :: 0 <= j < i ==> catalog[j].id != id
  }

  /** No two positions of `catalog` share an id. */
  predicate UniqueIds(catalog: seq<Product>) {
    forall i, j :: 0 <= i < |catalog| && 0 <= j < |catalog| && catalog[i].id == catalog[j].id ==> i == j
  }

  /** The position at which a linear scan from the front stops: the first
      product carrying `id`, or None when no product does. */
  function FirstMatch(catalog: seq<Product>, id: string): (r: Option<nat>)
    ensures r.Some? ==> IsFirstMatch(catalog, id, r.value)
    ensures r.None? <==> !HasId(catalog, id)
  {
    if catalog == [] then
      None
    else if catalog[0].id == id then
      Some(0)
    else
      match FirstMatch(catalog[1..], id)
      case None =>
        assert forall i :: 1 <= i < |catalog| ==> catalog[i] == catalog[1..][i - 1];
        None
      case Some(k) =>
        assert forall j :: 1 <= j < k + 1 ==> catalog[j] == catalog[1..][j - 1];
        Some(k + 1)
  }

  /** There is at most one first match. */
  lemma FirstMatchIsUnique(catalog: seq<Product>, id: string, i: int, j: int)
    requires IsFirstMatch(catalog, id, i) && IsFirstMatch(catalog, id, j)
    ensures i == j
  {
  }

  /** The product the lookup loop settles on, if any. */
  function Lookup(catalog: seq<Product>, id: string): (r: Option<Product>)
    ensures r.Some? <==> HasId(catalog, id)
    ensures r.Some? ==> r.value.id == id && r.value in catalog
    ensures r.Some? ==> exists i :: IsFirstMatch(catalog, id, i) && catalog[i] == r.value
  {
    match FirstMatch(catalog, id)
    case None => None
    case Some(i) => Some(catalog[i])
  }

  /** A product with no earlier product of the same id is what a lookup of
      its id returns, whatever duplicates follow it: the earliest wins. */
  lemma LookupReturnsEarliest(catalog: seq<Product>, i: int)
    requires 0 <= i < |catalog|
    requires forall j :: 0 <= j < i ==> catalog[j].id != catalog[i].id
    ensures Lookup(catalog, catalog[i].id) == Some(catalog[i])
  {
    var id := catalog[i].id;
    assert IsFirstMatch(catalog, id, i);
    var k := FirstMatch(catalog, id).value;
    FirstMatchIsUnique(catalog, id, i, k);
  }

  /** With unique ids, every product of the catalog is found by its id. */
  lemma LookupFindsEveryProduct(catalog: seq<Product>, i: int)
    requires UniqueIds(catalog)
    requires 0 <= i < |catalog|
    ensures Lookup(catalog, catalog[i].id) == Some(catalog[i])
  {
    LookupReturnsEarliest(catalog, i);
  }

  /** When two positions share an id, a lookup of that id returns a
      product from the earlier position or before, never one found only
      further on. */
  lemma LookupShadowsLaterDuplicate(catalog: seq<Product>, i: int, j: int)
    requires 0 <= i < j < |catalog|
    requires catalog[i].id == catalog[j].id
    ensures exists k :: 0 <= k <= i && Lookup(catalog, catalog[j].id) == Some(catalog[k])
  {
    var k := FirstMatch(catalog, catalog[j].id).value;
    assert k <= i;
  }

  /** The search predicate: the lower-cased query occurs in the lower-cased
      name or in the lower-cased description. */
  predicate Matches(p: Product, query: string) {
    var q := ToLower(query);
    Contains(ToLower(p.name), q) || Contains(ToLower(p.description), q)
  }

  /** The products of `catalog` that match `query`, in catalog order. */
  function Search(catalog: seq<Product>, query: string): (r: seq<Product>)
    ensures |r| <= |catalog|
    ensures forall p :: p in r <==> p in catalog && Matches(p, query)
  {
    if catalog == [] then
      []
    else
      Kept(catalog[0], query) + Search(catalog[1..], query)
  }

  /** Every matching product occurs in the result as often as in the
      catalog, and no other product occurs at all. */
  lemma {:induction false} SearchMultiplicity(catalog: seq<Product>, query: string)
    ensures forall p :: multiset(Search(catalog, query))[p] == if Matches(p, query) then multiset(catalog)[p] else 0
  {
    if catalog != [] {
      SearchMultiplicity(catalog[1..], query);
      assert catalog == [catalog[0]] + catalog[1..];
      assert multiset(catalog) == multiset([catalog[0]]) + multiset(catalog[1..]);
      assert multiset(Search(catalog, query)) == multiset(Kept(catalog[0], query)) + multiset(Search(catalog[1..], query));
    }
  }

  /** What search keeps of one product. */
  function Kept(p: Product, query: string): (r: seq<Product>)
  {
    if Matches(p, query) then [p] else []
  }

  lemma SearchUnfold(catalog: seq<Product>, query: string)
    requires catalog != []
    ensures Search(catalog, query) == Kept(catalog[0], query) + Search(catalog[1..], query)
  {
  }

  /** `sub` can be obtained from `s` by deleting elements. */
  predicate IsSubsequence<T(==)>(sub: seq<T>, s: seq<T>)
    decreases |s|
  {
    || sub == []
    || (&& s != []
        && ((sub[0] == s[0] && IsSubsequence(sub[1..], s[1..])) || IsSubsequence(sub, s[1..])))
  }

  /** Search results keep catalog order. Together with the multiplicities
      stated by `SearchMultiplicity`, this pins the result down to the filter
      of the catalog by `Matches` (see `SearchDetermined`). */
  lemma {:induction false} SearchIsSubsequence(catalog: seq<Product>, query: string)
    ensures IsSubsequence(Search(catalog, query), catalog)
  {
    if catalog != [] {
      SearchIsSubsequence(catalog[1..], query);
      var r := Search(catalog, query);
      if Matches(catalog[0], query) {
        assert r[0] == catalog[0] && r[1..] == Search(catalog[1..], query);
      } else {
        assert r == Search(catalog[1..], query);
      }
    }
  }

  /** A subsequence holds no element more often than the sequence does. */
  lemma {:induction false} SubsequenceMultiset<T>(sub: seq<T>, s: seq<T>)
    requires IsSubsequence(sub, s)
    ensures multiset(sub) <= multiset(s)
    decreases |s|
  {
    if sub != [] {
      assert s == [s[0]] + s[1..];
      if sub[0] == s[0] && IsSubsequence(sub[1..], s[1..]) {
        SubsequenceMultiset(sub[1..], s[1..]);
        assert sub == [sub[0]] + sub[1..];
      } else {
        SubsequenceMultiset(sub, s[1..]);
      }
    }
  }

  /** Order and multiplicities determine the search result: any subsequence
      of the catalog holding every matching product as often as the catalog
      does, and no other product, is the search result. */
  lemma {:induction false} SearchDetermined(catalog: seq<Product>, query: string, r: seq<Product>)
    requires IsSubsequence(r, catalog)
    requires forall p :: multiset(r)[p] == if Matches(p, query) then multiset(catalog)[p] else 0
    ensures r == Search(catalog, query)
    decreases |catalog|
  {
    if catalog == [] {
      assert r == [];
    } else {
      var c0, rest := catalog[0], catalog[1..];
      assert catalog == [c0] + rest;
      assert multiset(catalog) == multiset{c0} + multiset(rest);
      SearchUnfold(catalog, query);
      if Matches(c0, query) {
        assert multiset(r)[c0] == multiset(rest)[c0] + 1;
        if !(r[0] == c0 && IsSubsequence(r[1..], rest)) {
          SubsequenceMultiset(r, rest);
          assert false;
        }
        assert r == [c0] + r[1..];
        assert multiset(r) == multiset{c0} + multiset(r[1..]);
        SearchDetermined(rest, query, r[1..]);
      } else {
        assert multiset(r)[c0] == 0;
        if r != [] {
          assert r[0] in multiset(r);
        }
        SearchDetermined(rest, query, r);
      }
    }
  }

  /** Searching a concatenation concatenates the searches: results from an
      earlier part of the catalog always precede those from a later part. */
  lemma {:induction false} SearchConcat(a: seq<Product>, b: seq<Product>, query: string)
    ensures Search(a + b, query) == Search(a, query) + Search(b, query)
  {
    if a == [] {
      assert a + b == b;
    } else {
      var ab := a + b;
      assert ab[0] == a[0] && ab[1..] == a[1..] + b;
      calc {
        Search(ab, query);
      == { SearchUnfold(ab, query); }
        Kept(a[0], query) + Search(a[1..] + b, query);
      == { SearchConcat(a[1..], b, query); }
        Kept(a[0], query) + (Search(a[1..], query) + Search(b, query));
      == 
        (Kept(a[0], query) + Search(a[1..], query)) + Search(b, query);
      == { SearchUnfold(a, query); }
        Search(a, query) + Search(b, query);
      }
    }
  }

  /** When every product matches, search returns the catalog unchanged. */
  lemma {:induction false} SearchAllMatch(catalog: seq<Product>, query: string)
    requires forall i :: 0 <= i < |catalog| ==> Matches(catalog[i], query)
    ensures Search(catalog, query) == catalog
  {
    if catalog != [] {
      SearchAllMatch(catalog[1..], query);
    }
  }

  /** The empty query is contained in every name, so it returns the whole
      catalog. */
  lemma SearchEmptyQuery(catalog: seq<Product>)
    ensures Search(catalog, "") == catalog
  {
    forall i | 0 <= i < |catalog|
      ensures Matches(catalog[i], "")
    {
      EmptyIsContained(ToLower(catalog[i].name));
    }
    SearchAllMatch(catalog, "");
  }

  /** Search is empty exactly when no product matches. */
  lemma SearchEmptyIffNoMatch(catalog: seq<Product>, query: string)
    ensures Search(catalog, query) == [] <==> forall i :: 0 <= i < |catalog| ==> !Matches(catalog[i], query)
  {
    var r := Search(catalog, query);
    if r != [] {
      assert r[0] in r;
    }
    if exists i :: 0 <= i < |catalog| && Matches(catalog[i], query) {
      var i :| 0 <= i < |catalog| && Matches(catalog[i], query);
      assert catalog[i] in catalog;
      assert catalog[i] in r;
    }
  }

  /** Queries that agree after lower-casing give the same results; in
      particular a query and its lower-cased form do. */
  lemma SearchIgnoresQueryCase(catalog: seq<Product>, q1: string, q2: string)
    requires ToLower(q1) == ToLower(q2)
    ensures Search(catalog, q1) == Search(catalog, q2)
  {
    if catalog != [] {
      SearchIgnoresQueryCase(catalog[1..], q1, q2);
    }
  }

  lemma SearchLowerCasedQuery(catalog: seq<Product>, query: string)
    ensures Search(catalog, ToLower(query)) == Search(catalog, query)
  {
    ToLowerIdempotent(query);
    SearchIgnoresQueryCase(catalog, ToLower(query), query);
  }
}
