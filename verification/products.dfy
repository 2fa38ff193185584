/** The product record and its enumerations (lib/products.ts), plus the
    id-keyed list helpers the client state machines share. Prices are
    integer cents. */
module Products {
  import opened Wrappers
  import opened Seqs

  datatype Category = Scented | Decorative | Seasonal
  datatype Scent = Floral | Citrus | Woody | Vanilla | Fresh | Spicy
  datatype Size = Small | Medium | Large

  /** The string a category is stored and compared as. */
  function CategoryName(c: Category): string {
    match c
    case Scented => "scented"
    case Decorative => "decorative"
    case Seasonal => "seasonal"
  }

  /** The category a string names, if it names one. */
  function ParseCategory(s: string): (r: Option<Category>)
    ensures r.Some? ==> CategoryName(r.value) == s
    ensures r.None? ==> forall c :: CategoryName(c) != s
  {
    if s == "scented" then Some(Scented)
    else if s == "decorative" then Some(Decorative)
    else if s == "seasonal" then Some(Seasonal)
    else None
  }

  /** The string a scent type is stored and compared as. */
  function ScentName(t: Scent): string {
    match t
    case Floral => "floral"
    case Citrus => "citrus"
    case Woody => "woody"
    case Vanilla => "vanilla"
    case Fresh => "fresh"
    case Spicy => "spicy"
  }

  /** The scent type a string names, if it names one. */
  function ParseScent(s: string): (r: Option<Scent>)
    ensures r.Some? ==> ScentName(r.value) == s
    ensures r.None? ==> forall t :: ScentName(t) != s
  {
    if s == "floral" then Some(Floral)
    else if s == "citrus" then Some(Citrus)
    else if s == "woody" then Some(Woody)
    else if s == "vanilla" then Some(Vanilla)
    else if s == "fresh" then Some(Fresh)
    else if s == "spicy" then Some(Spicy)
    else None
  }

  /** The string a size is stored and compared as. */
  function SizeName(z: Size): string {
    match z
    case Small => "small"
    case Medium => "medium"
    case Large => "large"
  }

  /** The size a string names, if it names one. */
  function ParseSize(s: string): (r: Option<Size>)
    ensures r.Some? ==> SizeName(r.value) == s
    ensures r.None? ==> forall z :: SizeName(z) != s
  {
    if s == "small" then Some(Small)
    else if s == "medium" then Some(Medium)
    else if s == "large" then Some(Large)
    else None
  }

  /** A category reads back as itself from its own name. */
  lemma CategoryRoundTrip(c: Category)
    ensures ParseCategory(CategoryName(c)) == Some(c)
  {
  }

  /** A scent type reads back as itself from its own name. */
  lemma ScentRoundTrip(t: Scent)
    ensures ParseScent(ScentName(t)) == Some(t)
  {
  }

  /** A size reads back as itself from its own name. */
  lemma SizeRoundTrip(z: Size)
    ensures ParseSize(SizeName(z)) == Some(z)
  {
  }

  /** A catalog record. `price` and `originalPrice` are in cents. */
  datatype Product = Product(
    id: string,
    name: string,
    description: string,
    price: int,
    originalPrice: Option<int>,
    images: seq<string>,
    category: Category,
    scentType: Option<Scent>,
    size: Size,
    burnTime: string,
    inStock: bool,
    featured: Option<bool>)

  /** Some item of `items` has id `id` (`items.some(item => item.id === id)`). */
  predicate HasId(items: seq<Product>, id: string) {
    exists i | 0 <= i < |items| :: items[i].id == id
  }

  /** No two items of `items` share an id. */
  predicate DistinctIds(items: seq<Product>) {
    forall i, j | 0 <= i < j < |items| :: items[i].id != items[j].id
  }

  /** The position `items.find(item => item.id === id)` stops at: the first
      item with that id, or none. */
  function IndexOfId(items: seq<Product>, id: string): (r: Option<nat>)
    ensures r.Some? ==> r.value < |items| && items[r.value].id == id
    ensures r.Some? ==> forall j | 0 <= j < r.value :: items[j].id != id
    ensures r.None? <==> !HasId(items, id)
  {
    if |items| == 0 then None
    else if items[0].id == id then Some(0)
    else match IndexOfId(items[1..], id)
      case None => None
      case Some(k) => Some(k + 1)
  }

  /** `items.filter(item => item.id !== id)`: every item with that id dropped,
      the others kept in order. */
  function WithoutId(items: seq<Product>, id: string): (r: seq<Product>)
    ensures forall p :: p in r <==> p in items && p.id != id
    ensures IsSubseq(r, items)
    ensures !HasId(items, id) ==> r == items
  {
    if |items| == 0 then []
    else
      var rest := WithoutId(items[1..], id);
      assert items == [items[0]] + items[1..];
      if items[0].id == id then rest
      else
        assert ([items[0]] + rest)[1..] == rest;
        [items[0]] + rest
  }

  /** The filter keeps every item with another id as often as it occurs, and
      no item with the id. */
  lemma {:induction false} WithoutIdCounts(items: seq<Product>, id: string)
    ensures forall p :: multiset(WithoutId(items, id))[p] == if p.id != id then multiset(items)[p] else 0
  {
    if |items| > 0 {
      WithoutIdCounts(items[1..], id);
      assert items == [items[0]] + items[1..];
      assert multiset(items) == multiset{items[0]} + multiset(items[1..]);
    }
  }

  /** After the filter no item has the id, and a list without duplicate ids
      keeps that property. */
  lemma WithoutIdDropsId(items: seq<Product>, id: string)
    ensures !HasId(WithoutId(items, id), id)
    ensures DistinctIds(items) ==> DistinctIds(WithoutId(items, id))
  {
    var r := WithoutId(items, id);
    if DistinctIds(items) {
      SubseqMembers(r, items);
      SubseqKeepsDistinctIds(r, items);
    }
  }

  /** The filter leaves the presence of every other id as it was. */
  lemma WithoutIdOtherIds(items: seq<Product>, id: string)
    ensures forall other | other != id :: HasId(WithoutId(items, id), other) <==> HasId(items, other)
  {
    var r := WithoutId(items, id);
    forall other | other != id
      ensures HasId(r, other) <==> HasId(items, other)
    {
      if HasId(items, other) {
        var k :| 0 <= k < |items| && items[k].id == other;
        assert items[k] in r;
      }
      if HasId(r, other) {
        var k :| 0 <= k < |r| && r[k].id == other;
        assert r[k] in items;
      }
    }
  }

  /** Appending an item adds its id and no other. */
  lemma AppendIds(items: seq<Product>, p: Product)
    ensures forall id :: HasId(items + [p], id) <==> HasId(items, id) || id == p.id
  {
    forall id | HasId(items + [p], id)
      ensures HasId(items, id) || id == p.id
    {
      var k :| 0 <= k < |items| + 1 && (items + [p])[k].id == id;
      if k < |items| {
        assert items[k].id == id;
      }
    }
    forall id | HasId(items, id)
      ensures HasId(items + [p], id)
    {
      var k :| 0 <= k < |items| && items[k].id == id;
      assert (items + [p])[k].id == id;
    }
    assert (items + [p])[|items|].id == p.id;
  }

  /** A subsequence of a list without duplicate ids has none either. */
  lemma {:induction false} SubseqKeepsDistinctIds(a: seq<Product>, b: seq<Product>)
    requires IsSubseq(a, b) && DistinctIds(b)
    ensures DistinctIds(a)
    decreases |b|
  {
    if |a| > 0 {
      assert DistinctIds(b[1..]);
      if a[0] == b[0] && IsSubseq(a[1..], b[1..]) {
        SubseqKeepsDistinctIds(a[1..], b[1..]);
        SubseqMembers(a[1..], b[1..]);
        forall j | 0 < j < |a|
          ensures a[0].id != a[j].id
        {
          assert a[j] == a[1..][j - 1];
          assert a[j] in b[1..];
          var m :| 0 <= m < |b[1..]| && b[1..][m] == a[j];
          assert b[0].id != b[m + 1].id;
        }
      } else {
        SubseqKeepsDistinctIds(a, b[1..]);
      }
    }
  }

  /** In a list without duplicate ids, removing a present id drops exactly
      one item. */
  lemma {:induction false} WithoutIdLength(items: seq<Product>, id: string)
    requires DistinctIds(items) && HasId(items, id)
    ensures |WithoutId(items, id)| == |items| - 1
  {
    assert items == [items[0]] + items[1..];
    if items[0].id != id {
      assert HasId(items[1..], id) by {
        var k :| 0 <= k < |items| && items[k].id == id;
        assert items[1..][k - 1].id == id;
      }
      assert DistinctIds(items[1..]);
      WithoutIdLength(items[1..], id);
    }
  }

  /** Removing an id from a list that lacks it, with one such item appended,
      leaves the original list. */
  lemma {:induction false} WithoutIdAppend(items: seq<Product>, p: Product)
    requires !HasId(items, p.id)
    ensures WithoutId(items + [p], p.id) == items
  {
    if |items| == 0 {
      assert [p][1..] == [];
    } else {
      assert (items + [p])[1..] == items[1..] + [p];
      assert !HasId(items[1..], p.id);
      WithoutIdAppend(items[1..], p);
      assert (items + [p])[0] == items[0] && items[0].id != p.id;
      assert items == [items[0]] + items[1..];
    }
  }
}
