/** The "Recently Viewed" section (components/recently-viewed.tsx): it treats
    stored entries as loosely typed records, normalises scent type and size
    before handing them to the cart or the wishlist, and shows at most four. */
module RecentPanel {
  import opened Wrappers
  import opened Products
  import opened Wishlist
  import opened CartIntents
  import Seqs

  /** A stored entry as the component sees it: scent type and size are plain
      strings that may be missing or outside their enumerations. */
  datatype LooseProduct = LooseProduct(
    id: string,
    name: string,
    description: string,
    price: int,
    originalPrice: Option<int>,
    images: seq<string>,
    category: Category,
    scentType: Option<string>,
    size: Option<string>,
    burnTime: string,
    inStock: bool,
    featured: Option<bool>)

  /** A typed product seen as a loose record. */
  function Loosen(p: Product): (r: LooseProduct)
    ensures r.id == p.id
    ensures r.scentType.Some? <==> p.scentType.Some?
    ensures r.size == Some(SizeName(p.size))
  {
    LooseProduct(p.id, p.name, p.description, p.price, p.originalPrice, p.images,
      p.category, if p.scentType.Some? then Some(ScentName(p.scentType.value)) else None,
      Some(SizeName(p.size)), p.burnTime, p.inStock, p.featured)
  }

  /** The mapping both handlers apply: a scent type outside the six values
      (or missing, or empty) becomes absent; a size outside the three values
      (or missing, or empty) becomes "small"; everything else is copied. */
  function Normalise(lp: LooseProduct): (r: Product)
    ensures r.scentType.Some? <==> lp.scentType.Some? && ParseScent(lp.scentType.value).Some?
    ensures r.scentType.Some? ==> ScentName(r.scentType.value) == lp.scentType.value
    ensures lp.size.Some? && ParseSize(lp.size.value).Some? ==> SizeName(r.size) == lp.size.value
    ensures lp.size.None? || ParseSize(lp.size.value).None? ==> r.size == Small
    ensures r.id == lp.id && r.name == lp.name && r.description == lp.description
    ensures r.price == lp.price && r.originalPrice == lp.originalPrice
    ensures r.images == lp.images && r.category == lp.category
    ensures r.burnTime == lp.burnTime && r.inStock == lp.inStock && r.featured == lp.featured
  {
    var scent := if lp.scentType.Some? then ParseScent(lp.scentType.value) else None;
    var size := if lp.size.Some? then ParseSize(lp.size.value).GetOr(Small) else Small;
    Product(lp.id, lp.name, lp.description, lp.price, lp.originalPrice, lp.images,
      lp.category, scent, size, lp.burnTime, lp.inStock, lp.featured)
  }

  /** A well-typed product passes through the mapping unchanged. */
  lemma NormaliseLoosen(p: Product)
    ensures Normalise(Loosen(p)) == p
  {
    SizeRoundTrip(p.size);
    if p.scentType.Some? {
      ScentRoundTrip(p.scentType.value);
    }
  }

  /** Normalising twice is normalising once. */
  lemma NormaliseIdempotent(lp: LooseProduct)
    ensures Normalise(Loosen(Normalise(lp))) == Normalise(lp)
  {
    NormaliseLoosen(Normalise(lp));
  }

  /** The "Add" button: ADD_ITEM with the normalised product, one unit. */
  function AddToCart(lp: LooseProduct): (r: CartAction)
    ensures r == AddItem(Normalise(lp), 1)
    ensures r.product.id == lp.id
    ensures r.product.size == Small || (lp.size.Some? && SizeName(r.product.size) == lp.size.value)
  {
    AddOne(Normalise(lp))
  }

  /** A click on the Add button, which is disabled for an entry that is out of
      stock. It acts as the shared card button on the normalised product. */
  function PressAddToCart(lp: LooseProduct): (r: Option<CartAction>)
    ensures r.Some? <==> lp.inStock
    ensures r.Some? ==> r.value == AddToCart(lp)
    ensures r == PressAdd(RecentCard, Normalise(lp))
  {
    if lp.inStock then Some(AddToCart(lp)) else None
  }

  /** The heart button: remove by id when saved, otherwise add the normalised
      product. */
  function ToggleWishlist(w: WishlistState, lp: LooseProduct): (r: WishlistState)
    ensures IsInWishlist(w, lp.id) ==> !IsInWishlist(r, lp.id)
    ensures !IsInWishlist(w, lp.id) ==> IsInWishlist(r, lp.id) && r.items == w.items + [Normalise(lp)]
  {
    MembershipAfterAddAndRemove(w, Normalise(lp), lp.id);
    if IsInWishlist(w, lp.id) then Reduce(w, RemoveFromWishlist(lp.id))
    else Reduce(w, AddToWishlist(Normalise(lp)))
  }

  /** The panel's toggle is the product grid's toggle applied to the same
      normalised product the cart receives. */
  lemma ToggleMatchesCartPath(w: WishlistState, lp: LooseProduct)
    ensures ToggleWishlist(w, lp) == Toggle(w, AddToCart(lp).product)
  {
  }

  /** What the section renders. */
  datatype Panel =
    | Hidden
    | Shown(cards: seq<LooseProduct>, showingNote: Option<nat>)

  /** Nothing for an empty list; otherwise the first four entries, plus the
      "Showing 4 of N" note when there are more than four. */
  function Render(viewed: seq<LooseProduct>): (r: Panel)
    ensures r.Hidden? <==> |viewed| == 0
    ensures r.Shown? ==> r.cards <= viewed && |r.cards| == if |viewed| < 4 then |viewed| else 4
    ensures r.Shown? ==> (r.showingNote.Some? <==> |viewed| > 4)
    ensures r.Shown? && r.showingNote.Some? ==> r.showingNote.value == |viewed|
  {
    if |viewed| == 0 then Hidden
    else Shown(Seqs.Take(viewed, 4), if |viewed| > 4 then Some(|viewed|) else None)
  }
}
