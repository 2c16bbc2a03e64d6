/**
 * `src/components/products/ProductCard.tsx`: the two badge switches, the stock-guarded add to
 * cart and the favourite toggle. The 500 ms pause before `addToCart` and the loading flag around
 * it are not modelled; the handler is one step.
 */
module ProductCard {
  import opened Seqs
  import opened Store

  /** The badge component's variants that the card uses. */
  datatype BadgeVariant = Default | Destructive | Secondary

  /** `getBadgeVariant`. */
  function GetBadgeVariant(badge: string): (r: BadgeVariant)
    ensures r == Destructive <==> badge == "hit"
    ensures r == Secondary <==> badge == "sale"
    ensures r == Default <==> badge != "hit" && badge != "sale"
  {
    match badge
    case "new" => Default
    case "hit" => Destructive
    case "sale" => Secondary
    case _ => Default
  }

  /** `getBadgeText`: the three known badges get a Russian label, anything else is shown as is. */
  function GetBadgeText(badge: string): (r: string)
    ensures r == badge <==> badge != "new" && badge != "hit" && badge != "sale"
  {
    match badge
    case "new" => "Новинка"
    case "hit" => "Хит"
    case "sale" => "Скидка"
    case _ => badge
  }

  /** The three known badges get three different labels. */
  lemma BadgeTextsDiffer()
    ensures GetBadgeText("new") != GetBadgeText("hit")
    ensures GetBadgeText("new") != GetBadgeText("sale")
    ensures GetBadgeText("hit") != GetBadgeText("sale")
  {
  }

  /** What `handleToggleFavorite` does to the favourites. */
  function ToggleFavorite(favorites: seq<Product>, p: Product): seq<Product> {
    if IsFavorite(favorites, p.id) then RemoveFavorite(favorites, p.id) else AddFavorite(favorites, p)
  }

  /** A toggle flips whether the product is a favourite and keeps the ids distinct. */
  lemma ToggleFlips(favorites: seq<Product>, p: Product)
    ensures IsFavorite(ToggleFavorite(favorites, p), p.id) <==> !IsFavorite(favorites, p.id)
    ensures DistinctFavorites(favorites) ==> DistinctFavorites(ToggleFavorite(favorites, p))
  {
    RemoveFavoriteSpec(favorites, p.id);
    AddFavoriteSpec(favorites, p);
  }

  /** Two toggles restore membership; starting from a non-favourite they restore the list itself. */
  lemma ToggleTwice(favorites: seq<Product>, p: Product)
    ensures IsFavorite(ToggleFavorite(ToggleFavorite(favorites, p), p), p.id) == IsFavorite(favorites, p.id)
    ensures !IsFavorite(favorites, p.id) ==> ToggleFavorite(ToggleFavorite(favorites, p), p) == favorites
  {
    ToggleFlips(favorites, p);
    ToggleFlips(ToggleFavorite(favorites, p), p);
    if !IsFavorite(favorites, p.id) {
      var keep := (item: Product) => item.id != p.id;
      assert ToggleFavorite(favorites, p) == favorites + [p];
      assert (favorites + [p])[|favorites|].id == p.id;
      FilterConcat(favorites, [p], keep);
      FilterKeepsAll(favorites, keep);
      assert Filter([p], keep) == [];
    }
  }

  /** `handleAddToCart`: nothing for an out-of-stock product, one `addToCart` otherwise. */
  method HandleAddToCart(store: AppStore, p: Product)
    requires store.Valid()
    modifies store`cart
    ensures store.Valid()
    ensures !p.inStock ==> store.cart == old(store.cart)
    ensures p.inStock ==> store.cart == AddLine(old(store.cart), p)
  {
    if !p.inStock {
      return;
    }
    store.AddToCart(p);
  }

  /** `handleToggleFavorite`: remove the product when it is a favourite, add it otherwise. */
  method HandleToggleFavorite(store: AppStore, p: Product)
    requires store.Valid()
    modifies store`favorites
    ensures store.Valid()
    ensures store.favorites == ToggleFavorite(old(store.favorites), p)
    ensures IsFavorite(store.favorites, p.id) <==> !IsFavorite(old(store.favorites), p.id)
  {
    ToggleFlips(store.favorites, p);
    if IsFavorite(store.favorites, p.id) {
      store.RemoveFromFavorites(p.id);
    } else {
      store.AddToFavorites(p);
    }
  }
}
