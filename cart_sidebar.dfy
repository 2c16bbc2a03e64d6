/**
 * The handlers of `src/components/cart/CartSidebar.tsx`. They read the store and issue store
 * actions; `onOpenChange(false)` is the boolean a handler returns, true when it asks the sheet
 * to close. The −, + and trash buttons are rendered once per cart line, so each is given a line
 * of the cart by its index.
 */
module CartSidebar {
  import opened Store

  /** `handleCheckout`: an empty cart is left alone; otherwise the sheet is asked to close. The
      cart itself is not touched. */
  method HandleCheckout(store: AppStore) returns (close: bool)
    ensures close <==> store.cart != []
  {
    if |store.cart| == 0 {
      return false;
    }
    close := true;
  }

  /** `handleClearCart`. */
  method HandleClearCart(store: AppStore)
    requires store.Valid()
    modifies store`cart
    ensures store.Valid()
    ensures store.cart == [] && store.CartTotal() == 0
  {
    store.ClearCart();
  }

  /** The − button: `updateQuantity(item.id, item.quantity - 1)`. */
  method DecrementLine(store: AppStore, k: nat)
    requires store.Valid() && k < |store.cart|
    modifies store`cart
    ensures store.Valid()
    ensures store.cart == UpdateLine(old(store.cart), old(store.cart)[k].product.id, old(store.cart)[k].quantity - 1)
  {
    var item := store.cart[k];
    store.UpdateQuantity(item.product.id, item.quantity - 1);
  }

  /** The + button: `updateQuantity(item.id, item.quantity + 1)`. */
  method IncrementLine(store: AppStore, k: nat)
    requires store.Valid() && k < |store.cart|
    modifies store`cart
    ensures store.Valid()
    ensures store.cart == UpdateLine(old(store.cart), old(store.cart)[k].product.id, old(store.cart)[k].quantity + 1)
  {
    var item := store.cart[k];
    store.UpdateQuantity(item.product.id, item.quantity + 1);
  }

  /** The trash button: `removeFromCart(item.id)`. */
  method TrashLine(store: AppStore, k: nat)
    requires store.Valid() && k < |store.cart|
    modifies store`cart
    ensures store.Valid()
    ensures store.cart == old(store.cart)[..k] + old(store.cart)[k + 1..]
  {
    RemoveOneLine(store.cart, k);
    store.RemoveFromCart(store.cart[k].product.id);
  }

  /** What − does to line `k` of a valid cart: at quantity 1 the line disappears through the
      store's rule for quantities <= 0, above 1 that line alone loses one. */
  lemma DecrementEffect(cart: seq<CartItem>, k: nat)
    requires ValidCart(cart) && k < |cart|
    ensures var r := UpdateLine(cart, cart[k].product.id, cart[k].quantity - 1);
            && (cart[k].quantity == 1 ==> r == cart[..k] + cart[k + 1..] && !InCart(r, cart[k].product.id))
            && (cart[k].quantity > 1 ==>
                  |r| == |cart| && r[k] == cart[k].(quantity := cart[k].quantity - 1)
                  && forall i :: 0 <= i < |cart| && i != k ==> r[i] == cart[i])
  {
    var id := cart[k].product.id;
    UpdateLineSpec(cart, id, cart[k].quantity - 1);
    if cart[k].quantity == 1 {
      RemoveOneLine(cart, k);
      RemoveExactly(cart, id);
    }
  }

  /** What + does to line `k` of a valid cart: that line alone gains one. */
  lemma IncrementEffect(cart: seq<CartItem>, k: nat)
    requires ValidCart(cart) && k < |cart|
    ensures var r := UpdateLine(cart, cart[k].product.id, cart[k].quantity + 1);
            && |r| == |cart| && r[k] == cart[k].(quantity := cart[k].quantity + 1)
            && forall i :: 0 <= i < |cart| && i != k ==> r[i] == cart[i]
  {
    UpdateLineSpec(cart, cart[k].product.id, cart[k].quantity + 1);
  }
}
