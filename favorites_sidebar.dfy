/**
 * The handlers of `src/components/favorites/FavoritesSidebar.tsx`. The error toast of the stock
 * guard is the boolean `outOfStock` the handler returns.
 */
module FavoritesSidebar {
  import opened Store

  /** `handleAddToCart`: an out-of-stock product is refused with an error and the cart is left
      alone; otherwise `addToCart` runs once. The favourites are never touched. */
  method HandleAddToCart(store: AppStore, p: Product) returns (outOfStock: bool)
    requires store.Valid()
    modifies store`cart
    ensures store.Valid()
    ensures outOfStock <==> !p.inStock
    ensures outOfStock ==> store.cart == old(store.cart)
    ensures !outOfStock ==> store.cart == AddLine(old(store.cart), p)
    ensures store.favorites == old(store.favorites)
  {
    if !p.inStock {
      return true;
    }
    store.AddToCart(p);
    outOfStock := false;
  }

  /** `handleRemoveFromFavorites`: the product stops being a favourite; the other favourites
      stay, in order. */
  method HandleRemoveFromFavorites(store: AppStore, id: string)
    requires store.Valid()
    modifies store`favorites
    ensures store.Valid()
    ensures store.favorites == RemoveFavorite(old(store.favorites), id)
    ensures !IsFavorite(store.favorites, id)
    ensures forall x :: x in store.favorites <==> x in old(store.favorites) && x.id != id
    ensures store.cart == old(store.cart)
  {
    RemoveFavoriteSpec(store.favorites, id);
    store.RemoveFromFavorites(id);
  }
}
