/** The storefront grid's filters (app/products/page.tsx): a free-text search
    plus category, scent, size and price-range selections, applied together. */
module ProductFilters {
  import opened Wrappers
  import opened Seqs
  import opened Text
  import opened Products

  /** The selections on the page. The three selects hold either "all" or an
      enumeration value; the price bounds are in cents. */
  datatype Filters = Filters(
    query: string,
    category: string,
    scentType: string,
    size: string,
    priceLow: int,
    priceHigh: int)

  /** The value that turns a select off. */
  const All := "all"

  /** The search test: an empty query matches everything; otherwise the
      lower-cased query must occur in the lower-cased name, description,
      scent type (when there is one) or category. */
  function SearchMatch(p: Product, query: string): (r: bool)
    ensures r <==> query == "" || exists field | field in SearchFields(p) :: Includes(Lower(field), Lower(query))
  {
    var q := Lower(query);
    assert forall field :: field in SearchFields(p) <==>
      field == p.name || field == p.description ||
      (p.scentType.Some? && field == ScentName(p.scentType.value)) ||
      field == CategoryName(p.category);
    assert p.name in SearchFields(p) && p.description in SearchFields(p);
    assert CategoryName(p.category) in SearchFields(p);
    assert p.scentType.Some? ==> ScentName(p.scentType.value) in SearchFields(p);
    query == "" ||
    Includes(Lower(p.name), q) ||
    Includes(Lower(p.description), q) ||
    (p.scentType.Some? && Includes(Lower(ScentName(p.scentType.value)), q)) ||
    Includes(Lower(CategoryName(p.category)), q)
  }

  /** The texts the search looks in: name, description, the scent type when
      there is one, and the category. */
  function SearchFields(p: Product): seq<string> {
    [p.name, p.description] +
    (if p.scentType.Some? then [ScentName(p.scentType.value)] else []) +
    [CategoryName(p.category)]
  }

  /** The conjunction of the five tests. A select other than "all" matches
      exactly the products whose field parses to the selected value. */
  function Matches(p: Product, f: Filters): (r: bool)
    ensures r <==>
      && SearchMatch(p, f.query)
      && (f.category == All || ParseCategory(f.category) == Some(p.category))
      && (f.scentType == All || (p.scentType.Some? && ParseScent(f.scentType) == p.scentType))
      && (f.size == All || ParseSize(f.size) == Some(p.size))
      && f.priceLow <= p.price <= f.priceHigh
  {
    CategoryRoundTrip(p.category);
    SizeRoundTrip(p.size);
    && SearchMatch(p, f.query)
    && (f.category == All || CategoryName(p.category) == f.category)
    && (f.scentType == All || (p.scentType.Some? &&
          (ScentRoundTrip(p.scentType.value); ScentName(p.scentType.value) == f.scentType)))
    && (f.size == All || SizeName(p.size) == f.size)
    && f.priceLow <= p.price <= f.priceHigh
  }

  /** `filteredProducts`: the loaded products passing every test, in the order
      they were loaded. */
  function FilteredProducts(products: seq<Product>, f: Filters): (r: seq<Product>)
    ensures forall p :: p in r <==> p in products && Matches(p, f)
    ensures forall p :: multiset(r)[p] == if Matches(p, f) then multiset(products)[p] else 0
    ensures IsSubseq(r, products)
    ensures |r| <= |products|
  {
    Filter(products, (p: Product) => Matches(p, f))
  }

  /** A non-empty query matches exactly when its lower-cased text is a
      substring of one of the four lower-cased fields. */
  lemma SearchMatchIsSubstring(p: Product, query: string)
    requires query != ""
    ensures SearchMatch(p, query) <==>
      IsSubstring(Lower(query), Lower(p.name)) ||
      IsSubstring(Lower(query), Lower(p.description)) ||
      (p.scentType.Some? && IsSubstring(Lower(query), Lower(ScentName(p.scentType.value)))) ||
      IsSubstring(Lower(query), Lower(CategoryName(p.category)))
  {
    var q := Lower(query);
    IncludesIsSubstring(Lower(p.name), q);
    IncludesIsSubstring(Lower(p.description), q);
    if p.scentType.Some? {
      IncludesIsSubstring(Lower(ScentName(p.scentType.value)), q);
    }
    IncludesIsSubstring(Lower(CategoryName(p.category)), q);
  }

  /** A specific scent selection rejects every product without a scent type. */
  lemma UnscentedFailsScentFilter(p: Product, f: Filters)
    requires p.scentType.None? && f.scentType != All
    ensures !Matches(p, f)
  {
  }

  /** `clearFilters`: empty query, every select on "all", price 0 to 50 dollars. */
  function ClearFilters(): (r: Filters)
    ensures r.query == "" && r.category == All && r.scentType == All && r.size == All
    ensures r.priceLow == 0 && r.priceHigh == 5000
  {
    Filters("", All, All, All, 0, 5000)
  }

  /** With the filters cleared, a product is shown exactly when its price lies
      in the inclusive default range. */
  lemma ClearedFiltersOnlyLimitPrice(products: seq<Product>)
    ensures forall p :: p in FilteredProducts(products, ClearFilters()) <==>
      p in products && 0 <= p.price <= 5000
  {
  }

  /** The price bounds are inclusive at both ends. */
  lemma PriceBoundsInclusive(p: Product, f: Filters)
    requires f.query == "" && f.category == All && f.scentType == All && f.size == All
    requires p.price == f.priceLow || p.price == f.priceHigh
    requires f.priceLow <= f.priceHigh
    ensures Matches(p, f)
  {
  }
}
