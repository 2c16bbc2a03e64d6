/**
 * The application store of `src/lib/store.ts`: the cart (lines keyed by product id, each with a
 * quantity), the favourites (products keyed by id), the selected catalogue category and two
 * sidebar flags. Each action replaces a field with a new array built by `map`, `filter` or a
 * spread; those arrays are the functions below, and `AppStore`'s methods assign them.
 * Prices are whole сом (`nat`).
 */
module Store {
  import opened Wrappers
  import opened Seqs

  datatype Product = Product(
    id: string,
    title: string,
    price: nat,
    category: string,
    badge: Option<string>,
    inStock: bool)

  /** A `CartItem`: the product as it was when added, and its quantity. */
  datatype CartItem = CartItem(product: Product, quantity: int)

  /* ---------- cart ---------- */

  /** `cart.find(item => item.id === id)` finds something. */
  predicate InCart(cart: seq<CartItem>, id: string) {
    exists i :: 0 <= i < |cart| && cart[i].product.id == id
  }

  predicate DistinctIds(cart: seq<CartItem>) {
    forall i, j :: 0 <= i < j < |cart| ==> cart[i].product.id != cart[j].product.id
  }

  predicate PositiveQuantities(cart: seq<CartItem>) {
    forall i :: 0 <= i < |cart| ==> cart[i].quantity > 0
  }

  /** What every reachable cart satisfies: one line per product, every quantity positive. */
  predicate ValidCart(cart: seq<CartItem>) {
    DistinctIds(cart) && PositiveQuantities(cart)
  }

  /** `cart.map(item => item.id === id ? {...item, quantity: q} : item)`. */
  function SetLineQuantity(cart: seq<CartItem>, id: string, q: int): (r: seq<CartItem>)
    ensures |r| == |cart|
    ensures forall i :: 0 <= i < |cart| ==>
              r[i].product == cart[i].product
              && r[i].quantity == if cart[i].product.id == id then q else cart[i].quantity
  {
    seq(|cart|, i requires 0 <= i < |cart| =>
      if cart[i].product.id == id then cart[i].(quantity := q) else cart[i])
  }

  /** `cart.map(item => item.id === id ? {...item, quantity: item.quantity + 1} : item)`. */
  function IncrementLine(cart: seq<CartItem>, id: string): (r: seq<CartItem>)
    ensures |r| == |cart|
    ensures forall i :: 0 <= i < |cart| ==>
              r[i].product == cart[i].product
              && r[i].quantity == if cart[i].product.id == id then cart[i].quantity + 1 else cart[i].quantity
  {
    seq(|cart|, i requires 0 <= i < |cart| =>
      if cart[i].product.id == id then cart[i].(quantity := cart[i].quantity + 1) else cart[i])
  }

  /** `addToCart`: increment the product's line, or append a new line with quantity 1. */
  function AddLine(cart: seq<CartItem>, p: Product): seq<CartItem> {
    if InCart(cart, p.id) then IncrementLine(cart, p.id) else cart + [CartItem(p, 1)]
  }

  /** `removeFromCart`: `cart.filter(item => item.id !== id)`. */
  function RemoveLines(cart: seq<CartItem>, id: string): seq<CartItem> {
    Filter(cart, (item: CartItem) => item.product.id != id)
  }

  /** `updateQuantity`: a non-positive quantity removes the line, any other sets it. */
  function UpdateLine(cart: seq<CartItem>, id: string, q: int): seq<CartItem> {
    if q <= 0 then RemoveLines(cart, id) else SetLineQuantity(cart, id, q)
  }

  function LineTotal(item: CartItem): int {
    item.product.price * item.quantity
  }

  /** `cart.reduce((sum, item) => sum + item.price * item.quantity, 0)`. */
  function Total(cart: seq<CartItem>): int {
    if cart == [] then 0 else Total(cart[..|cart| - 1]) + LineTotal(cart[|cart| - 1])
  }

  /** Adding a product already in the cart adds one to that line only; order is kept. */
  lemma AddExisting(cart: seq<CartItem>, p: Product, k: nat)
    requires DistinctIds(cart) && k < |cart| && cart[k].product.id == p.id
    ensures var r := AddLine(cart, p);
            && |r| == |cart|
            && r[k] == cart[k].(quantity := cart[k].quantity + 1)
            && forall i :: 0 <= i < |cart| && i != k ==> r[i] == cart[i]
  {
  }

  /** Adding a product not in the cart appends one line of quantity 1. */
  lemma AddNew(cart: seq<CartItem>, p: Product)
    requires !InCart(cart, p.id)
    ensures AddLine(cart, p) == cart + [CartItem(p, 1)]
  {
  }

  /** Every action keeps the cart valid. */
  lemma AddLineValid(cart: seq<CartItem>, p: Product)
    requires ValidCart(cart)
    ensures ValidCart(AddLine(cart, p))
    ensures InCart(AddLine(cart, p), p.id)
  {
    if !InCart(cart, p.id) {
      var r := cart + [CartItem(p, 1)];
      assert r[|cart|].product.id == p.id;
    } else {
      var k :| 0 <= k < |cart| && cart[k].product.id == p.id;
      assert IncrementLine(cart, p.id)[k].product.id == p.id;
    }
  }

  /** `removeFromCart(id)` removes exactly the lines with that id and keeps the others in order. */
  lemma RemoveExactly(cart: seq<CartItem>, id: string)
    ensures var r := RemoveLines(cart, id);
            && !InCart(r, id)
            && (forall x :: x in r <==> x in cart && x.product.id != id)
            && IsSubsequence(r, cart)
  {
    var r := RemoveLines(cart, id);
    FilterIsSubsequence(cart, (item: CartItem) => item.product.id != id);
    forall i | 0 <= i < |r| ensures r[i].product.id != id {
      assert r[i] in r;
    }
  }

  /** A subsequence of a valid cart is a valid cart. */
  lemma {:induction false} SubsequenceValid(r: seq<CartItem>, cart: seq<CartItem>)
    requires ValidCart(cart) && IsSubsequence(r, cart)
    ensures ValidCart(r)
    decreases |cart|
  {
    if r != [] && cart != [] {
      assert ValidCart(cart[1..]);
      if r[0] == cart[0] {
        SubsequenceValid(r[1..], cart[1..]);
        // r[0] is cart[0], whose id no later line of cart repeats
        forall j | 0 < j < |r| ensures r[0].product.id != r[j].product.id {
          assert r[j] in r[1..];
          SubsequenceMembers(r[1..], cart[1..]);
          var m :| 0 <= m < |cart[1..]| && cart[1..][m] == r[j];
          assert cart[m + 1] == r[j];
        }
      } else {
        SubsequenceValid(r, cart[1..]);
      }
    }
  }

  lemma RemoveLinesValid(cart: seq<CartItem>, id: string)
    requires ValidCart(cart)
    ensures ValidCart(RemoveLines(cart, id))
  {
    RemoveExactly(cart, id);
    SubsequenceValid(RemoveLines(cart, id), cart);
  }

  /** In a cart with distinct ids, removing the id of line `k` removes that one line: the cart is
      one shorter, and the lines before and after `k` follow each other in order. */
  lemma {:induction false} RemoveOneLine(cart: seq<CartItem>, k: nat)
    requires DistinctIds(cart) && k < |cart|
    ensures RemoveLines(cart, cart[k].product.id) == cart[..k] + cart[k + 1..]
    decreases |cart|
  {
    var id := cart[k].product.id;
    if k == 0 {
      assert RemoveLines(cart, id) == RemoveLines(cart[1..], id);
      assert forall x :: x in cart[1..] ==> x.product.id != id;
      FilterKeepsAll(cart[1..], (item: CartItem) => item.product.id != id);
    } else {
      assert cart[0].product.id != id;
      assert RemoveLines(cart, id) == [cart[0]] + RemoveLines(cart[1..], id);
      assert DistinctIds(cart[1..]);
      assert cart[1..][k - 1] == cart[k];
      RemoveOneLine(cart[1..], k - 1);
      assert cart[1..][..k - 1] == cart[1..k];
      assert cart[1..][k..] == cart[k + 1..];
      assert cart[..k] == [cart[0]] + cart[1..k];
    }
  }

  /** `updateQuantity(id, q)`: with q <= 0 it is `removeFromCart(id)`; with q > 0 it sets that
      line's quantity only; for an absent id it changes nothing; the cart stays valid. */
  lemma UpdateLineSpec(cart: seq<CartItem>, id: string, q: int)
    requires ValidCart(cart)
    ensures q <= 0 ==> UpdateLine(cart, id, q) == RemoveLines(cart, id)
    ensures q > 0 ==> var r := UpdateLine(cart, id, q);
              && |r| == |cart|
              && forall i :: 0 <= i < |cart| ==>
                   r[i] == if cart[i].product.id == id then cart[i].(quantity := q) else cart[i]
    ensures !InCart(cart, id) ==> UpdateLine(cart, id, q) == cart
    ensures ValidCart(UpdateLine(cart, id, q))
  {
    if q <= 0 {
      RemoveLinesValid(cart, id);
      if !InCart(cart, id) {
        FilterKeepsAll(cart, (item: CartItem) => item.product.id != id);
      }
    }
  }

  /** The total of a cart with one more line at the end. */
  lemma TotalAppend(cart: seq<CartItem>, item: CartItem)
    ensures Total(cart + [item]) == Total(cart) + LineTotal(item)
  {
    assert (cart + [item])[..|cart|] == cart;
  }

  /** Adding one to the quantity of the line with id `id` adds that line's price to the total. */
  lemma {:induction false} TotalIncrement(cart: seq<CartItem>, id: string, k: nat)
    requires DistinctIds(cart) && k < |cart| && cart[k].product.id == id
    ensures Total(IncrementLine(cart, id)) == Total(cart) + cart[k].product.price
    decreases |cart|
  {
    var r := IncrementLine(cart, id);
    var n := |cart| - 1;
    assert r[..n] == IncrementLine(cart[..n], id);
    if k == n {
      TotalUnchanged(cart[..n], id);
    } else {
      TotalIncrement(cart[..n], id, k);
    }
  }

  /** Incrementing an id that no line has leaves the total alone. */
  lemma {:induction false} TotalUnchanged(cart: seq<CartItem>, id: string)
    requires !InCart(cart, id)
    ensures IncrementLine(cart, id) == cart
  {
  }

  /** `cartTotal` after `addToCart`: it grows by the price of the product's line (the price
      stored when the line was created, for a product already in the cart). */
  lemma TotalAfterAdd(cart: seq<CartItem>, p: Product)
    requires DistinctIds(cart)
    ensures !InCart(cart, p.id) ==> Total(AddLine(cart, p)) == Total(cart) + p.price
    ensures forall k :: 0 <= k < |cart| && cart[k].product.id == p.id ==>
              Total(AddLine(cart, p)) == Total(cart) + cart[k].product.price
  {
    if !InCart(cart, p.id) {
      TotalAppend(cart, CartItem(p, 1));
    }
    forall k | 0 <= k < |cart| && cart[k].product.id == p.id
      ensures Total(AddLine(cart, p)) == Total(cart) + cart[k].product.price
    {
      TotalIncrement(cart, p.id, k);
    }
  }

  /** With positive quantities the total is never negative; the empty cart totals 0. */
  lemma {:induction false} TotalNonNegative(cart: seq<CartItem>)
    requires PositiveQuantities(cart)
    ensures Total(cart) >= 0
    ensures cart == [] ==> Total(cart) == 0
    decreases |cart|
  {
    if cart != [] {
      TotalNonNegative(cart[..|cart| - 1]);
    }
  }

  /* ---------- favourites ---------- */

  /** `favorites.some(item => item.id === id)`. */
  predicate IsFavorite(favorites: seq<Product>, id: string) {
    exists i :: 0 <= i < |favorites| && favorites[i].id == id
  }

  predicate DistinctFavorites(favorites: seq<Product>) {
    forall i, j :: 0 <= i < j < |favorites| ==> favorites[i].id != favorites[j].id
  }

  /** `addToFavorites`: append unless a product with that id is already there. */
  function AddFavorite(favorites: seq<Product>, p: Product): seq<Product> {
    if IsFavorite(favorites, p.id) then favorites else favorites + [p]
  }

  /** `removeFromFavorites`: `favorites.filter(item => item.id !== id)`. */
  function RemoveFavorite(favorites: seq<Product>, id: string): seq<Product> {
    Filter(favorites, (item: Product) => item.id != id)
  }

  /** `addToFavorites` makes the product a favourite, never duplicates an id, and a second call
      changes nothing. */
  lemma AddFavoriteSpec(favorites: seq<Product>, p: Product)
    ensures IsFavorite(AddFavorite(favorites, p), p.id)
    ensures AddFavorite(AddFavorite(favorites, p), p) == AddFavorite(favorites, p)
    ensures DistinctFavorites(favorites) ==> DistinctFavorites(AddFavorite(favorites, p))
  {
    if !IsFavorite(favorites, p.id) {
      assert (favorites + [p])[|favorites|].id == p.id;
    }
  }

  /** `removeFromFavorites(id)` removes exactly that id and keeps the rest in order. */
  lemma RemoveFavoriteSpec(favorites: seq<Product>, id: string)
    ensures var r := RemoveFavorite(favorites, id);
            && !IsFavorite(r, id)
            && (forall x :: x in r <==> x in favorites && x.id != id)
            && IsSubsequence(r, favorites)
    ensures DistinctFavorites(favorites) ==> DistinctFavorites(RemoveFavorite(favorites, id))
  {
    var r := RemoveFavorite(favorites, id);
    FilterIsSubsequence(favorites, (item: Product) => item.id != id);
    forall i | 0 <= i < |r| ensures r[i].id != id {
      assert r[i] in r;
    }
    if DistinctFavorites(favorites) {
      DistinctSubsequence(r, favorites);
    }
  }

  lemma {:induction false} DistinctSubsequence(r: seq<Product>, s: seq<Product>)
    requires DistinctFavorites(s) && IsSubsequence(r, s)
    ensures DistinctFavorites(r)
    decreases |s|
  {
    if r != [] && s != [] {
      if r[0] == s[0] {
        DistinctSubsequence(r[1..], s[1..]);
        SubsequenceMembers(r[1..], s[1..]);
        forall j | 0 < j < |r| ensures r[0].id != r[j].id {
          assert r[j] in r[1..];
          var m :| 0 <= m < |s[1..]| && s[1..][m] == r[j];
          assert s[m + 1] == r[j];
        }
      } else {
        DistinctSubsequence(r, s[1..]);
      }
    }
  }

  /* ---------- `cartTotal` as zustand actually stores it ---------- */

  /** The `cartTotal` property of the state object: the getter of the object the store was created
      with, or the plain number a merge has stored in its place. */
  datatype TotalProperty = Getter | Stored(value: int)

  /** The part of the state object that bears on `cartTotal`. */
  datatype CartState = CartState(cart: seq<CartItem>, cartTotal: TotalProperty)

  /** The state the store starts from: an empty cart and the getter. */
  const InitialCartState := CartState([], Getter)

  /** Reading `state.cartTotal`: the getter folds the current cart; a stored number is itself. */
  function ReadCartTotal(s: CartState): int {
    match s.cartTotal
    case Getter => Total(s.cart)
    case Stored(v) => v
  }

  /** `set({cart})` as written: zustand builds the next state with `Object.assign({}, state,
      {cart})`, which reads the old state's `cartTotal` (running the getter on the old cart) and
      keeps the number it got. The property no longer follows the cart from then on. */
  function SetCartAsWritten(s: CartState, cart: seq<CartItem>): (r: CartState)
    ensures r.cart == cart
    ensures r.cartTotal.Stored?
    ensures ReadCartTotal(r) == ReadCartTotal(s)
  {
    CartState(cart, Stored(ReadCartTotal(s)))
  }

  /** After the first `addToCart` of a priced product, the store's `cartTotal` still reads 0
      while the cart's lines add up to the price; the total shown in the cart is stale. */
  lemma StaleCartTotalAfterAdd(p: Product)
    requires p.price > 0
    ensures var s := SetCartAsWritten(InitialCartState, AddLine([], p));
            ReadCartTotal(s) == 0 && Total(s.cart) == p.price && ReadCartTotal(s) != Total(s.cart)
  {
    AddNew([], p);
    TotalAppend([], CartItem(p, 1));
  }

  /** A series of `set({cart})` calls as written. */
  function SetCartsAsWritten(s: CartState, carts: seq<seq<CartItem>>): CartState
    decreases |carts|
  {
    if carts == [] then s else SetCartAsWritten(SetCartsAsWritten(s, carts[..|carts| - 1]), carts[|carts| - 1])
  }

  /** However many `set` calls follow, the stored number stays what the first one read. */
  lemma {:induction false} CartTotalFrozen(s: CartState, carts: seq<seq<CartItem>>)
    ensures ReadCartTotal(SetCartsAsWritten(s, carts)) == ReadCartTotal(s)
    decreases |carts|
  {
    if carts != [] {
      CartTotalFrozen(s, carts[..|carts| - 1]);
    }
  }

  /* ---------- the store ---------- */

  /** The zustand store: its state fields and the actions that replace them. */
  class AppStore {
    var cart: seq<CartItem>
    var favorites: seq<Product>
    var selectedCategory: string
    var isCartOpen: bool
    var isFavoritesOpen: bool

    ghost predicate Valid()
      reads this
    {
      ValidCart(cart) && DistinctFavorites(favorites)
    }

    /** The store's initial state. */
    constructor ()
      ensures Valid()
      ensures cart == [] && favorites == [] && selectedCategory == "all"
      ensures !isCartOpen && !isFavoritesOpen
    {
      cart := [];
      favorites := [];
      selectedCategory := "all";
      isCartOpen := false;
      isFavoritesOpen := false;
    }

    /** The `cartTotal` getter. */
    function CartTotal(): int
      reads this
    {
      Total(cart)
    }

    method AddToCart(p: Product)
      requires Valid()
      modifies this`cart
      ensures Valid()
      ensures cart == AddLine(old(cart), p)
    {
      AddLineValid(cart, p);
      cart := AddLine(cart, p);
    }

    method RemoveFromCart(id: string)
      requires Valid()
      modifies this`cart
      ensures Valid()
      ensures cart == RemoveLines(old(cart), id)
    {
      RemoveLinesValid(cart, id);
      cart := RemoveLines(cart, id);
    }

    method UpdateQuantity(id: string, q: int)
      requires Valid()
      modifies this`cart
      ensures Valid()
      ensures cart == UpdateLine(old(cart), id, q)
      ensures q <= 0 ==> cart == RemoveLines(old(cart), id)
    {
      UpdateLineSpec(cart, id, q);
      if q <= 0 {
        RemoveFromCart(id);
        return;
      }
      cart := SetLineQuantity(cart, id, q);
    }

    method ClearCart()
      requires Valid()
      modifies this`cart
      ensures Valid()
      ensures cart == [] && CartTotal() == 0
    {
      cart := [];
    }

    method AddToFavorites(p: Product)
      requires Valid()
      modifies this`favorites
      ensures Valid()
      ensures favorites == AddFavorite(old(favorites), p)
    {
      AddFavoriteSpec(favorites, p);
      if !IsFavorite(favorites, p.id) {
        favorites := favorites + [p];
      }
    }

    method RemoveFromFavorites(id: string)
      requires Valid()
      modifies this`favorites
      ensures Valid()
      ensures favorites == RemoveFavorite(old(favorites), id)
    {
      RemoveFavoriteSpec(favorites, id);
      favorites := RemoveFavorite(favorites, id);
    }

    method SetSelectedCategory(category: string)
      modifies this`selectedCategory
      ensures selectedCategory == category
    {
      selectedCategory := category;
    }

    method SetCartOpen(open: bool)
      modifies this`isCartOpen
      ensures isCartOpen == open
    {
      isCartOpen := open;
    }

    method SetFavoritesOpen(open: bool)
      modifies this`isFavoritesOpen
      ensures isFavoritesOpen == open
    {
      isFavoritesOpen := open;
    }
  }
}
