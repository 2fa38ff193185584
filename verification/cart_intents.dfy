/** The cart actions the pages dispatch. The cart reducer that consumes them
    is not part of this model; only the intents are. */
module CartIntents {
  import opened Wrappers
  import opened Products

  /** ADD_ITEM, the only action the modelled buttons dispatch. */
  datatype CartAction = AddItem(product: Product, quantity: int)

  /** The "Add to cart" buttons that dispatch a single unit: on a products-grid
      card, in the quick-view dialog, on a related-products card, on a
      recently-viewed card, and on a wishlist-page card. */
  datatype AddButton = GridCard | QuickView | RelatedCard | RecentCard | WishlistCard

  /** What each of these buttons dispatches: ADD_ITEM for exactly one unit. */
  function AddOne(p: Product): (r: CartAction)
    ensures r.product == p && r.quantity == 1
  {
    AddItem(p, 1)
  }

  /** Every button except the wishlist page's carries `disabled` when the
      product is out of stock. */
  function AddEnabled(b: AddButton, p: Product): (r: bool)
    ensures r <==> p.inStock || b == WishlistCard
  {
    !b.WishlistCard? ==> p.inStock
  }

  /** A click on an Add button: one unit of the product when the button is
      enabled, nothing when it is disabled. */
  function PressAdd(b: AddButton, p: Product): (r: Option<CartAction>)
    ensures r.Some? <==> AddEnabled(b, p)
    ensures r.Some? ==> r.value.product == p && r.value.quantity == 1
  {
    if AddEnabled(b, p) then Some(AddOne(p)) else None
  }

  /** An out-of-stock product reaches the cart only from the wishlist page,
      and an in-stock product from every button. */
  lemma OutOfStockOnlyFromWishlist(b: AddButton, p: Product)
    ensures !p.inStock ==> (PressAdd(b, p).Some? <==> b == WishlistCard)
    ensures p.inStock ==> PressAdd(b, p) == Some(AddItem(p, 1))
  {
  }
}
