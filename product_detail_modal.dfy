/**
 * `src/components/products/ProductDetailModal.tsx`: the quantity selector, the add-to-cart loop
 * that calls the store's `addToCart` once per unit, the favourite toggle and the displayed total.
 * The selected-image index and the mock image list are display only.
 */
module ProductDetailModal {
  import opened Store
  import ProductCard

  /** `quantity` calls of `addToCart(product)`, each on the cart the previous one left. */
  function AddN(cart: seq<CartItem>, p: Product, n: nat): seq<CartItem>
    decreases n
  {
    if n == 0 then cart else AddLine(AddN(cart, p, n - 1), p)
  }

  /** Repeated adds keep the cart valid and the product in it. */
  lemma {:induction false} AddNValid(cart: seq<CartItem>, p: Product, n: nat)
    requires ValidCart(cart)
    ensures ValidCart(AddN(cart, p, n))
    ensures n > 0 ==> InCart(AddN(cart, p, n), p.id)
    decreases n
  {
    if n > 0 {
      AddNValid(cart, p, n - 1);
      AddLineValid(AddN(cart, p, n - 1), p);
    }
  }

  /** A product already on line `k` has that line grown by `n`; every other line is unchanged. */
  lemma {:induction false} AddNExisting(cart: seq<CartItem>, p: Product, k: nat, n: nat)
    requires ValidCart(cart) && k < |cart| && cart[k].product.id == p.id
    ensures var r := AddN(cart, p, n);
            && |r| == |cart|
            && r[k] == cart[k].(quantity := cart[k].quantity + n)
            && forall i :: 0 <= i < |cart| && i != k ==> r[i] == cart[i]
    decreases n
  {
    if n > 0 {
      AddNExisting(cart, p, k, n - 1);
      AddNValid(cart, p, n - 1);
      AddExisting(AddN(cart, p, n - 1), p, k);
    }
  }

  /** A product not yet in the cart ends up on one new last line with quantity `n`. */
  lemma {:induction false} AddNNew(cart: seq<CartItem>, p: Product, n: nat)
    requires ValidCart(cart) && !InCart(cart, p.id) && n > 0
    ensures AddN(cart, p, n) == cart + [CartItem(p, n)]
    decreases n
  {
    if n == 1 {
      AddNew(cart, p);
    } else {
      AddNNew(cart, p, n - 1);
      var prev := cart + [CartItem(p, n - 1)];
      AddNValid(cart, p, n - 1);
      AddExisting(prev, p, |cart|);
      assert AddN(cart, p, n) == cart + [CartItem(p, n)];
    }
  }

  /** The total shown under the selector: `product.price * quantity`. */
  function DisplayedTotal(p: Product, quantity: int): int {
    p.price * quantity
  }

  /** For a product not yet in the cart, the displayed total is exactly what adding it grows the
      cart total by. */
  lemma DisplayedTotalIsCartIncrease(cart: seq<CartItem>, p: Product, n: nat)
    requires ValidCart(cart) && !InCart(cart, p.id) && n > 0
    ensures Total(AddN(cart, p, n)) == Total(cart) + DisplayedTotal(p, n)
  {
    AddNNew(cart, p, n);
    TotalAppend(cart, CartItem(p, n));
  }

  /** The dialog's own state: the selected quantity. */
  class DetailModal {
    var quantity: int

    ghost predicate Valid()
      reads this
    {
      quantity >= 1
    }

    /** `useState(1)`. */
    constructor ()
      ensures Valid() && quantity == 1
    {
      quantity := 1;
    }

    /** The − button: `setQuantity(Math.max(1, quantity - 1))`. */
    method Decrement()
      requires Valid()
      modifies this`quantity
      ensures Valid()
      ensures quantity == if old(quantity) > 1 then old(quantity) - 1 else 1
    {
      quantity := if quantity - 1 > 1 then quantity - 1 else 1;
    }

    /** The + button: `setQuantity(quantity + 1)`. */
    method Increment()
      requires Valid()
      modifies this`quantity
      ensures Valid()
      ensures quantity == old(quantity) + 1
    {
      quantity := quantity + 1;
    }

    /** `handleAddToCart`: `addToCart(product)` `quantity` times, then the quantity goes back to 1. */
    method HandleAddToCart(store: AppStore, p: Product)
      requires Valid() && store.Valid()
      modifies this`quantity, store`cart
      ensures Valid() && store.Valid()
      ensures store.cart == AddN(old(store.cart), p, old(quantity))
      ensures quantity == 1
    {
      var i := 0;
      while i < quantity
        invariant 0 <= i <= quantity
        invariant store.Valid()
        invariant store.cart == AddN(old(store.cart), p, i)
        invariant quantity == old(quantity)
      {
        store.AddToCart(p);
        i := i + 1;
      }
      quantity := 1;
    }

    /** `handleFavoriteToggle`: the same toggle as the product card's. */
    method HandleFavoriteToggle(store: AppStore, p: Product)
      requires store.Valid()
      modifies store`favorites
      ensures store.Valid()
      ensures store.favorites == ProductCard.ToggleFavorite(old(store.favorites), p)
    {
      ProductCard.ToggleFlips(store.favorites, p);
      if IsFavorite(store.favorites, p.id) {
        store.RemoveFromFavorites(p.id);
      } else {
        store.AddToFavorites(p);
      }
    }
  }
}
