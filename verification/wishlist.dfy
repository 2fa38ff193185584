/** The wishlist reducer (lib/wishlist-context.tsx): an ordered list of
    products with set semantics keyed by product id, and a cached count. */
module Wishlist {
  import opened Seqs
  import opened Products

  datatype WishlistState = WishlistState(items: seq<Product>, itemCount: int)

  datatype WishlistAction =
    | AddToWishlist(product: Product)
    | RemoveFromWishlist(productId: string)
    | ClearWishlist
    | LoadWishlist(loaded: seq<Product>)

  /** The state the provider starts from. */
  const Empty := WishlistState([], 0)

  /** The cached count agrees with the list. */
  predicate CountAgrees(s: WishlistState) {
    s.itemCount == |s.items|
  }

  /** `isInWishlist(id)`: some saved item carries the id. It agrees with the
      `find` the ADD branch uses to detect a saved product. */
  function IsInWishlist(s: WishlistState, id: string): (b: bool)
    ensures b <==> exists p :: p in s.items && p.id == id
    ensures b <==> IndexOfId(s.items, id).Some?
  {
    assert forall i | 0 <= i < |s.items| :: s.items[i] in s.items;
    HasId(s.items, id)
  }

  /** `wishlistReducer(state, action)`. */
  function Reduce(s: WishlistState, a: WishlistAction): (r: WishlistState)
    // ADD of an id already present hands back the very same state.
    ensures a.AddToWishlist? && HasId(s.items, a.product.id) ==> r == s
    // ADD of a new id appends it after the earlier items.
    ensures a.AddToWishlist? && !HasId(s.items, a.product.id) ==>
      |r.items| == |s.items| + 1 && r.items[..|s.items|] == s.items &&
      r.items[|s.items|] == a.product
    // REMOVE drops exactly the items with that id, keeping the rest in order.
    ensures a.RemoveFromWishlist? ==>
      (forall p :: p in r.items <==> p in s.items && p.id != a.productId) &&
      (forall p :: multiset(r.items)[p] == if p.id != a.productId then multiset(s.items)[p] else 0) &&
      IsSubseq(r.items, s.items) &&
      (!HasId(s.items, a.productId) ==> r.items == s.items)
    ensures a.ClearWishlist? ==> r.items == [] && r.itemCount == 0
    ensures a.LoadWishlist? ==> r.items == a.loaded
    // The count is recomputed by every transition that builds a new list.
    ensures !(a.AddToWishlist? && HasId(s.items, a.product.id)) ==> CountAgrees(r)
    ensures CountAgrees(s) ==> CountAgrees(r)
  {
    match a
    case AddToWishlist(p) =>
      if IndexOfId(s.items, p.id).Some? then s
      else
        var items := s.items + [p];
        WishlistState(items, |items|)
    case RemoveFromWishlist(id) =>
      WithoutIdCounts(s.items, id);
      var items := WithoutId(s.items, id);
      WishlistState(items, |items|)
    case ClearWishlist =>
      WishlistState([], 0)
    case LoadWishlist(loaded) =>
      WishlistState(loaded, |loaded|)
  }

  /** Every transition except LOAD keeps ids distinct. */
  lemma ReduceKeepsDistinctIds(s: WishlistState, a: WishlistAction)
    requires DistinctIds(s.items) && !a.LoadWishlist?
    ensures DistinctIds(Reduce(s, a).items)
  {
    match a
    case AddToWishlist(p) =>
      if !HasId(s.items, p.id) {
        var items := s.items + [p];
        forall i, j | 0 <= i < j < |items|
          ensures items[i].id != items[j].id
        {
          if j == |s.items| {
            assert items[i] == s.items[i];
          }
        }
      }
    case RemoveFromWishlist(id) =>
      WithoutIdDropsId(s.items, id);
    case ClearWishlist =>
    case LoadWishlist(_) =>
  }

  /** LOAD does no de-duplication: a loaded list with a repeated id stays so. */
  lemma LoadKeepsDuplicates(s: WishlistState, p: Product)
    ensures Reduce(s, LoadWishlist([p, p])).items == [p, p]
    ensures !DistinctIds(Reduce(s, LoadWishlist([p, p])).items)
  {
    assert Reduce(s, LoadWishlist([p, p])).items[0].id == Reduce(s, LoadWishlist([p, p])).items[1].id;
  }

  /** ADD is idempotent. */
  lemma AddIdempotent(s: WishlistState, p: Product)
    ensures Reduce(Reduce(s, AddToWishlist(p)), AddToWishlist(p)) == Reduce(s, AddToWishlist(p))
  {
    var r := Reduce(s, AddToWishlist(p));
    assert r.items[|r.items| - 1] == p || HasId(s.items, p.id);
    if !HasId(s.items, p.id) {
      assert r.items[|s.items|].id == p.id;
    }
  }

  /** Membership answers yes for the product just added and no for the id just
      removed. */
  lemma MembershipAfterAddAndRemove(s: WishlistState, p: Product, id: string)
    ensures IsInWishlist(Reduce(s, AddToWishlist(p)), p.id)
    ensures !IsInWishlist(Reduce(s, RemoveFromWishlist(id)), id)
  {
    if !HasId(s.items, p.id) {
      assert Reduce(s, AddToWishlist(p)).items[|s.items|].id == p.id;
    }
    WithoutIdDropsId(s.items, id);
  }

  /** The state after dispatching `actions` in order. */
  function ReduceAll(s: WishlistState, actions: seq<WishlistAction>): WishlistState
    decreases |actions|
  {
    if |actions| == 0 then s else ReduceAll(Reduce(s, actions[0]), actions[1..])
  }

  /** Replaying actions none of which is LOAD from a well-formed state keeps the
      count in step with the list and the ids distinct. */
  lemma {:induction false} ReplayKeepsInvariant(s: WishlistState, actions: seq<WishlistAction>)
    requires CountAgrees(s) && DistinctIds(s.items)
    requires forall i | 0 <= i < |actions| :: !actions[i].LoadWishlist?
    ensures CountAgrees(ReduceAll(s, actions)) && DistinctIds(ReduceAll(s, actions).items)
    decreases |actions|
  {
    if |actions| > 0 {
      ReduceKeepsDistinctIds(s, actions[0]);
      ReplayKeepsInvariant(Reduce(s, actions[0]), actions[1..]);
    }
  }

  /** From the empty wishlist the provider starts with, any run of ADD, REMOVE
      and CLEAR keeps the count in step with the list and the ids distinct. */
  lemma ReplayFromEmpty(actions: seq<WishlistAction>)
    requires forall i | 0 <= i < |actions| :: !actions[i].LoadWishlist?
    ensures CountAgrees(ReduceAll(Empty, actions)) && DistinctIds(ReduceAll(Empty, actions).items)
  {
    ReplayKeepsInvariant(Empty, actions);
  }

  /** The product-grid heart button (`handleWishlistToggle`): remove the
      product if its id is saved, otherwise add it. */
  function Toggle(s: WishlistState, p: Product): (r: WishlistState)
    ensures IsInWishlist(r, p.id) <==> !IsInWishlist(s, p.id)
    ensures forall id | id != p.id :: IsInWishlist(r, id) <==> IsInWishlist(s, id)
  {
    if IsInWishlist(s, p.id) then
      WithoutIdDropsId(s.items, p.id);
      WithoutIdOtherIds(s.items, p.id);
      Reduce(s, RemoveFromWishlist(p.id))
    else
      AppendIds(s.items, p);
      Reduce(s, AddToWishlist(p))
  }

  /** Two toggles restore membership of every id; starting from a product that
      was not saved they restore the list itself. */
  lemma ToggleTwice(s: WishlistState, p: Product)
    ensures forall id :: IsInWishlist(Toggle(Toggle(s, p), p), id) <==> IsInWishlist(s, id)
    ensures !IsInWishlist(s, p.id) ==> Toggle(Toggle(s, p), p).items == s.items
  {
    if !IsInWishlist(s, p.id) {
      var once := Toggle(s, p);
      assert once.items == s.items + [p];
      assert WithoutId(once.items, p.id) == s.items by {
        WithoutIdAppend(s.items, p);
      }
    }
  }
}
