# 3D-printing marketplace: a verified model of its core

This project models, in Dafny, the core of a small marketplace and 3D-printing order site:

- **Upload endpoints.** Two back ends receive a model file. `public/api/upload.php` runs an ordered chain of checks, builds a sanitised stored name and builds a public URL. `server/server.js` uses a multer file filter, a generated stored name and an error middleware.
- **Client store.** `src/lib/store.ts` holds the cart, the favourites and the UI flags. Its callers are:
  - the cart sidebar and the favourites sidebar;
  - the product card and the product detail dialog;
  - the product list (category filter, title and empty state).
- **Consent-dependent storage.** `src/lib/cookieStorage.ts` keeps values in localStorage before cookie consent and in cookies after it. `src/components/cookies/CookieConsent.tsx` is the banner that grants or denies that consent.
- **Order wizard.** `src/pages/Order.tsx` covers material lookup, the reset rule and step visibility.
- **Gallery carousel.** `src/components/sections/Gallery.tsx` does index arithmetic over six items.

## Module layout

| file | module | what it holds |
|---|---|---|
| `wrappers.dfy` | `Wrappers` | `Option` |
| `text.dfy` | `Text` | character classes, `ToLower`, `lastIndexOf`, basename, decimal and hex rendering, JavaScript's `split` and `trim` |
| `seqs.dfy` | `Seqs` | `filter` and subsequences |
| `uri_component.dfy` | `UriComponent` | `encodeURIComponent` and `decodeURIComponent` over UTF-8 (ECMA-262 section 19.2.6, RFC 3629) |
| `php_upload.dfy` | `PhpUpload` | the upload script, as one method with early returns |
| `node_upload.dfy` | `NodeUpload` | the multer filter, the stored name, the route and the error middleware |
| `store.dfy` | `Store` | pure cart and favourites functions, and the class `AppStore` whose actions reassign its fields |
| `cart_sidebar.dfy` | `CartSidebar` | the sidebar's handlers |
| `favorites_sidebar.dfy` | `FavoritesSidebar` | the sidebar's handlers |
| `product_card.dfy` | `ProductCard` | the card's handlers and badge switches |
| `product_detail_modal.dfy` | `ProductDetailModal` | the quantity selector, the repeated add and the favourite toggle, in the class `DetailModal` |
| `products.dfy` | `Products` | filter, title and empty state |
| `cookie_storage.dfy` | `CookieStorage` | the cookie jar, the localStorage map, and the class `BrowserStorage` with the storage operations and the consent listener |
| `cookie_consent.dfy` | `CookieConsent` | the stored decision and the banner class |
| `order.dfy` | `Order` | the choice tables, the material lookup, the visibility predicates and the class `OrderForm` |
| `gallery.dfy` | `Gallery` | the slide functions and a run of user actions |

Environment inputs are parameters:

- **PHP script:** the field `Env` stands for content sniffing, `is_uploaded_file`, `is_dir`/`mkdir`, `move_uploaded_file`, the clock and the random source.
- **Node server:** `now` and `random` stand for `Date.now()` and `Math.round(Math.random() * 1E9)`.
- **Browser storage:** the constant `localAvailable` says whether localStorage answers or throws on every access. The constant `localWritable` says whether `setItem` throws while reads and removals still work, for example with a full quota.

## Model

| member | source | states |
|---|---|---|
| `PhpUpload.Handle` | public/api/upload.php:15-131 | The checks run in the script's order, each ending with its own status and error code: method (405), missing file, bad payload, transport error codes (413 for the two size codes), missing or non-positive size (400), size above 25 MiB (413; exactly 25 MiB passes), extension whitelist, tmp-file check, MIME policy (the response carries the MIME type), directory creation (500), move (500). Success happens exactly when every check passes. It returns the original name, the size, an allowed MIME type and the URL `<site base>/uploads/<stored name>`; the stored name ends in `.` plus the lower-cased extension |
| `PhpUpload.TransportRejection` | public/api/upload.php:28-40 | Only UPLOAD_ERR_OK passes. Exactly the INI_SIZE and FORM_SIZE codes give 413; every other code gives 400 with no MIME field |
| `PhpUpload.NoDotNoExtension` | public/api/upload.php:52-62 | A name without '.' has the empty extension, and the whitelist refuses it |
| `PhpUpload.StemAndExtension` | public/api/upload.php:103 | The base name splits into stem + "." + extension when it has a dot; otherwise the stem is the whole base name |
| `PhpUpload.EffectiveMime` | public/api/upload.php:77-84 | A failed or empty sniff becomes application/octet-stream; any other answer is kept unchanged; the result is never empty |
| `PhpUpload.CadFallbackAdmitsNothingExtra` | public/api/upload.php:86-92 | The CAD fallback (octet-stream or text/plain for stl, obj, dae, fbx) accepts exactly what the whitelist alone accepts |
| `PhpUpload.Sanitize` | public/api/upload.php:103 | Same length. Every output character is in `[A-Za-z0-9._-]`. Safe characters are kept and every other one becomes '_' |
| `PhpUpload.SafeBase` | public/api/upload.php:103-105 | The sanitised base has 1 to 80 safe characters: the sanitised stem cut at 80 characters, or "file" for an empty stem |
| `PhpUpload.StoredFileNameShape` | public/api/upload.php:111 | With a sanitised base and a whitelisted extension, the stored name has only RFC 3986 unreserved characters and ends in "." + ext, and `pathinfo` gives ext back |
| `PhpUpload.RawUrlEncodeUnreserved` | public/api/upload.php:123 | `rawurlencode` leaves unreserved text unchanged |
| `PhpUpload.RawUrlEncodeReserved` | public/api/upload.php:123 | `rawurlencode` changes any text that holds a reserved byte |
| `PhpUpload.SiteBase` | public/api/upload.php:120-122 | The site base path never ends in '/' |
| `PhpUpload.PublicUrl` | public/api/upload.php:123 | The URL ends in "/uploads/" followed by the encoded stored name |
| `PhpUpload.DirNameOfJoin` | public/api/upload.php:120 | `dirname("dir/script")` is `dir` when `dir` has no trailing slash |
| `PhpUpload.UrlUnderSubPath` | public/api/upload.php:118-123 | A script deployed at `<site>/api/<script>` serves uploads under `<site>/uploads/`. This also holds for `site` = "" (the domain root) |
| `NodeUpload.FilterExtension` | server/server.js:63 | The filter's extension always starts with '.' |
| `NodeUpload.NoDotNameIsExtension` | server/server.js:63 | A name without '.' is its own extension: '.' plus the whole name in lower case |
| `NodeUpload.FileNamedStlPasses` | server/server.js:63-65 | A file named "stl" passes the filter whatever its declared type |
| `NodeUpload.OctetStreamPassesAnyName` | server/server.js:42-66 | A file declared application/octet-stream passes whatever its name |
| `NodeUpload.FbxOnlyByType` | server/server.js:62-65 | A ".fbx" file passes exactly when its declared type is listed |
| `NodeUpload.ExtName` | server/server.js:33 | `path.extname` is "" or a '.' followed by text without '.' or '/'. It is a proper suffix of the base name |
| `NodeUpload.StemName` | server/server.js:34 | The stem has no '/', and stem + extension is the base name |
| `NodeUpload.StoredNameHasNoSlash` | server/server.js:30-36 | The generated name never contains '/', so it stays in the uploads directory |
| `NodeUpload.StoredNameKeepsExtension` | server/server.js:32-35 | The generated name ends in the original extension with its case kept, and `path.extname` gives it back |
| `NodeUpload.ErrorResponse` | server/server.js:142-164 | Status 400 exactly for a LIMIT_FILE_SIZE multer error or the bare "unsupported type" message; 500 otherwise; never success |
| `NodeUpload.FilterRejectionIsNotBareMessage` | server/server.js:68-157 | The filter's error message carries a suffix, so the middleware's exact comparison never matches it |
| `NodeUpload.ReceivedPart` | server/server.js:81-88 | multer hands the route a part only when it has a file name; a part with an empty name is dropped as if no file had been sent |
| `NodeUpload.HandleUpload` | server/server.js:72-115 | No file, or a part whose file name is empty, gives 400 "Файл не найден". A file under another field name gives 500, and so does a filter rejection. A filtered file over 100 MiB gives 400. Success happens exactly when the field is "file", the filter passes and the size fits. On success the response holds the generated name, the URL `/uploads/<name>`, the original name, the size and the type |
| `Text.Split` | src/lib/cookieStorage.ts:33 | `split` always gives at least one part, and no part contains the separator |
| `Text.JoinSplit` | src/lib/cookieStorage.ts:33 | Joining the parts of `split` with the separator gives the string back |
| `Text.TrimSpec` | src/lib/cookieStorage.ts:35 | `trim` returns a slice `s[a..b]` of its input. Only JavaScript whitespace lies before `a` and from `b` on, and the result neither starts nor ends with whitespace. So exactly the leading and trailing whitespace is removed |
| `UriComponent.EncodeUriComponent` | src/lib/cookieStorage.ts:25-27 | The encoding holds only unreserved characters, '%' and upper-case hex digits |
| `UriComponent.DecodeEncode` | src/lib/cookieStorage.ts:25-39 | `decodeURIComponent(encodeURIComponent(s)) == s` for every string |
| `UriComponent.LonePercentFails` | src/lib/cookieStorage.ts:38-42 | Decoding "%" or "%zz" throws |
| `Store.SetLineQuantity` | src/lib/store.ts:69-71 | The lines keep their order and products. The quantity changes on the lines with that id only |
| `Store.IncrementLine` | src/lib/store.ts:45-49 | The lines keep their order and products. Only the lines with that id gain one |
| `Store.AddExisting` | src/lib/store.ts:39-50 | Adding a product already on line k increments only that line by 1; every other line and the order stay |
| `Store.AddNew` | src/lib/store.ts:51-54 | Adding a new product appends one line with quantity 1 |
| `Store.AddLineValid` | src/lib/store.ts:39-56 | Adding keeps ids distinct and quantities positive, and the product is then in the cart |
| `Store.RemoveExactly` | src/lib/store.ts:57-61 | Removal drops exactly the lines with that id and keeps the rest in order (a subsequence) |
| `Store.RemoveLinesValid` | src/lib/store.ts:57-61 | Removal keeps the cart valid |
| `Store.RemoveOneLine` | src/lib/store.ts:59 | In a cart with distinct ids, removing line k's id gives the cart without line k |
| `Store.UpdateLineSpec` | src/lib/store.ts:62-73 | q <= 0 is `removeFromCart`. q > 0 sets that line's quantity only. An absent id changes nothing. The cart stays valid |
| `Store.TotalAppend` | src/lib/store.ts:35-38 | The total of a cart with one more line grows by that line's price times quantity |
| `Store.TotalIncrement` | src/lib/store.ts:35-50 | Incrementing the line of a product grows the total by its price |
| `Store.TotalUnchanged` | src/lib/store.ts:45-49 | Incrementing an id that is not in the cart changes nothing |
| `Store.TotalAfterAdd` | src/lib/store.ts:35-56 | `addToCart` grows the total by exactly the product's price, whether or not the product was already in the cart |
| `Store.TotalNonNegative` | src/lib/store.ts:35-38 | With positive quantities the total is non-negative; the empty cart totals 0 |
| `Store.SetCartAsWritten` | src/lib/store.ts:35-56 | As written, a `set({cart})` stores the number the getter gave on the old cart, and the stored `cartTotal` keeps that value |
| `Store.StaleCartTotalAfterAdd` | src/lib/store.ts:35-56 | After the first `addToCart` of a priced product, the stored `cartTotal` reads 0 while the cart adds up to the price |
| `Store.CartTotalFrozen` | src/lib/store.ts:35-74 | As written, no series of `set` calls changes the `cartTotal` that the first one stored |
| `Store.AddFavoriteSpec` | src/lib/store.ts:78-83 | After adding, the product is a favourite. Adding twice is adding once. Ids stay distinct |
| `Store.RemoveFavoriteSpec` | src/lib/store.ts:84-87 | Removal drops exactly that id, keeps the rest in order and keeps ids distinct |
| `Store.AppStore.constructor` | src/lib/store.ts:30-98 | The initial state: empty cart and favourites, category "all", both sheets closed |
| `Store.AppStore.AddToCart` | src/lib/store.ts:39-56 | The cart becomes the `addToCart` result, and the store stays valid |
| `Store.AppStore.RemoveFromCart` | src/lib/store.ts:57-61 | The cart becomes the filtered cart, and the store stays valid |
| `Store.AppStore.UpdateQuantity` | src/lib/store.ts:62-73 | The cart becomes the updated cart. A non-positive quantity removes the line |
| `Store.AppStore.ClearCart` | src/lib/store.ts:74 | The cart is empty and its total is 0 |
| `Store.AppStore.AddToFavorites` | src/lib/store.ts:78-83 | The favourites become the no-duplicate append |
| `Store.AppStore.RemoveFromFavorites` | src/lib/store.ts:84-87 | The favourites become the filtered list |
| `Store.AppStore.SetSelectedCategory` | src/lib/store.ts:93 | Sets the category; nothing else changes |
| `Store.AppStore.SetCartOpen` | src/lib/store.ts:95 | Sets the cart flag; nothing else changes |
| `Store.AppStore.SetFavoritesOpen` | src/lib/store.ts:97 | Sets the favourites flag; nothing else changes |
| `CartSidebar.HandleCheckout` | src/components/cart/CartSidebar.tsx:18-24 | Asks the sheet to close exactly when the cart is not empty; the cart is untouched |
| `CartSidebar.HandleClearCart` | src/components/cart/CartSidebar.tsx:26-29 | The cart is emptied and its total is 0 |
| `CartSidebar.DecrementLine` | src/components/cart/CartSidebar.tsx:84 | The − button is `updateQuantity(id, quantity - 1)` on that line |
| `CartSidebar.IncrementLine` | src/components/cart/CartSidebar.tsx:95 | The + button is `updateQuantity(id, quantity + 1)` on that line |
| `CartSidebar.TrashLine` | src/components/cart/CartSidebar.tsx:105 | The trash button removes exactly line k; the other lines stay in order |
| `CartSidebar.DecrementEffect` | src/components/cart/CartSidebar.tsx:84 | − at quantity 1 removes the line; above 1 it lowers that line alone by 1 |
| `CartSidebar.IncrementEffect` | src/components/cart/CartSidebar.tsx:95 | + raises that line alone by 1 |
| `FavoritesSidebar.HandleAddToCart` | src/components/favorites/FavoritesSidebar.tsx:17-25 | An out-of-stock product is refused with an error and the cart is unchanged; otherwise `addToCart` runs once; the favourites are unchanged |
| `FavoritesSidebar.HandleRemoveFromFavorites` | src/components/favorites/FavoritesSidebar.tsx:27-30 | The product stops being a favourite, the others stay, and the cart is unchanged |
| `ProductCard.GetBadgeVariant` | src/components/products/ProductCard.tsx:49-56 | destructive exactly for "hit", secondary exactly for "sale", default for everything else |
| `ProductCard.GetBadgeText` | src/components/products/ProductCard.tsx:58-65 | The badge is shown unchanged exactly when it is not one of new, hit, sale |
| `ProductCard.BadgeTextsDiffer` | src/components/products/ProductCard.tsx:58-65 | The three known badges get three different labels |
| `ProductCard.ToggleFlips` | src/components/products/ProductCard.tsx:39-47 | A toggle flips favourite membership and keeps ids distinct |
| `ProductCard.ToggleTwice` | src/components/products/ProductCard.tsx:39-47 | Two toggles restore membership. Starting from a non-favourite, they restore the list itself |
| `ProductCard.HandleAddToCart` | src/components/products/ProductCard.tsx:27-37 | Out of stock: nothing happens; otherwise one `addToCart` |
| `ProductCard.HandleToggleFavorite` | src/components/products/ProductCard.tsx:39-47 | Removes a favourite or adds a non-favourite, so membership flips |
| `ProductDetailModal.AddNValid` | src/components/products/ProductDetailModal.tsx:24-27 | Repeated adds keep the cart valid and put the product in it |
| `ProductDetailModal.AddNExisting` | src/components/products/ProductDetailModal.tsx:24-27 | n adds of a product already on line k grow that line by n and leave the others unchanged |
| `ProductDetailModal.AddNNew` | src/components/products/ProductDetailModal.tsx:24-27 | n adds of a new product append one line with quantity n |
| `ProductDetailModal.DisplayedTotalIsCartIncrease` | src/components/products/ProductDetailModal.tsx:202 | For a new product, the displayed `price * quantity` is exactly what the add grows the cart total by |
| `ProductDetailModal.DetailModal.constructor` | src/components/products/ProductDetailModal.tsx:16 | The quantity starts at 1 |
| `ProductDetailModal.DetailModal.Decrement` | src/components/products/ProductDetailModal.tsx:161 | `max(1, quantity - 1)`: never below 1 |
| `ProductDetailModal.DetailModal.Increment` | src/components/products/ProductDetailModal.tsx:171 | The quantity grows by 1 |
| `ProductDetailModal.DetailModal.HandleAddToCart` | src/components/products/ProductDetailModal.tsx:24-29 | The loop calls `addToCart` `quantity` times on successive carts, then the quantity is back to 1 |
| `ProductDetailModal.DetailModal.HandleFavoriteToggle` | src/components/products/ProductDetailModal.tsx:31-37 | The same toggle as the product card's |
| `Products.FilteredProductsSpec` | src/components/sections/Products.tsx:19-24 | "all" gives the catalogue. Any other category gives exactly that category's products, in catalogue order (a subsequence), never more than the catalogue |
| `Products.EmptyStateIffNoMatch` | src/components/sections/Products.tsx:53-74 | The empty state shows exactly when no product has the category (for "all", when the catalogue is empty) |
| `Products.CategoryTitle` | src/components/sections/Products.tsx:26-36 | The generic title appears exactly for a category outside the six known ones |
| `Products.CategoryTitlesDistinct` | src/components/sections/Products.tsx:26-36 | The six known categories get six different titles |
| `CookieStorage.SetCookieIn` | src/lib/cookieStorage.ts:17-28 | After a write the cookie holds the new value, and every other name keeps its value |
| `CookieStorage.RemoveCookieSpec` | src/lib/cookieStorage.ts:48-55 | An expired write deletes that name; the others keep their values |
| `CookieStorage.EncodedIsCookieValue` | src/lib/cookieStorage.ts:25-27 | What `encodeURIComponent` writes is a valid RFC 6265 cookie value |
| `CookieStorage.SetCookieWellFormed` | src/lib/cookieStorage.ts:17-28 | Writing a token name with a cookie-octet value keeps the jar well formed |
| `CookieStorage.FindInCookieString` | src/lib/cookieStorage.ts:30-46 | Scanning `document.cookie` for `key=` finds the value of the first cookie with exactly that name |
| `CookieStorage.GetCookieOfJar` | src/lib/cookieStorage.ts:30-46 | `getCookie` is the decoded value of that cookie, or null when there is none |
| `CookieStorage.KeyIsNotANamePrefix` | src/lib/cookieStorage.ts:32-36 | The key "a" is not found in the cookie "ab=1" |
| `CookieStorage.UndecodableValueIsRaw` | src/lib/cookieStorage.ts:37-42 | When decoding throws, the raw text is returned |
| `CookieStorage.ScanParts` | src/lib/cookieStorage.ts:33-45 | The loop returns the text after the prefix in the first trimmed part that starts with it, or null |
| `CookieStorage.SetThenGetWithConsent` | src/lib/cookieStorage.ts:83-98 | With consent, `setItem` then `getItem` gives the value back from the cookie. No localStorage copy is left, and consent still holds |
| `CookieStorage.SetThenGetWithoutConsent` | src/lib/cookieStorage.ts:83-98 | Without consent the cookies are untouched. When the write lands, `getItem` reads the value back. When `setItem` throws, `getItem` still gives what was stored before, and null when every access throws |
| `CookieStorage.SetConsentKeyRevokes` | src/lib/cookieStorage.ts:90-98 | With consent, `setItem` on the consent key deletes the consent from localStorage |
| `CookieStorage.RemoveItemClears` | src/lib/cookieStorage.ts:100-103 | After `removeItem` neither store holds the key |
| `CookieStorage.GrantedMigrationKeepsStore` | src/lib/cookieStorage.ts:109-118 | 'granted' moves the stored value into a cookie: the value reads back the same and the localStorage copy is gone. Without a value nothing changes |
| `CookieStorage.DeniedDeletesStoreCookie` | src/lib/cookieStorage.ts:119-123 | 'denied' deletes the store cookie and leaves localStorage alone |
| `CookieStorage.BrowserStorage.GetCookie` | src/lib/cookieStorage.ts:30-46 | Returns the `getCookie` value of the current cookie string |
| `CookieStorage.BrowserStorage.SetCookie` | src/lib/cookieStorage.ts:17-28 | The jar gets the encoded value under the key |
| `CookieStorage.BrowserStorage.RemoveCookie` | src/lib/cookieStorage.ts:48-55 | The jar loses the key |
| `CookieStorage.BrowserStorage.SetLocal` | src/lib/cookieStorage.ts:66-73 | localStorage gets the value. Nothing changes when localStorage throws or only its `setItem` throws |
| `CookieStorage.BrowserStorage.RemoveLocal` | src/lib/cookieStorage.ts:74-79 | localStorage loses the key, or nothing changes when it throws |
| `CookieStorage.BrowserStorage.GetItem` | src/lib/cookieStorage.ts:83-88 | Reads the cookie with consent, localStorage otherwise |
| `CookieStorage.BrowserStorage.SetItem` | src/lib/cookieStorage.ts:90-98 | With consent: the cookie is written and the localStorage copy removed. Without consent: localStorage only, and a failed write changes nothing |
| `CookieStorage.BrowserStorage.RemoveItem` | src/lib/cookieStorage.ts:100-103 | Both stores lose the key |
| `CookieStorage.BrowserStorage.OnConsentChanged` | src/lib/cookieStorage.ts:109-124 | The listener's migration ('granted') or deletion ('denied'); any other detail changes nothing |
| `CookieConsent.GetDecision` | src/components/cookies/CookieConsent.tsx:9-19 | 'granted' exactly when consent holds, 'denied' exactly for that stored string, and no decision for anything else or a throwing localStorage |
| `CookieConsent.ConsentBanner.constructor` | src/components/cookies/CookieConsent.tsx:22 | The banner starts hidden |
| `CookieConsent.ConsentBanner.Mount` | src/components/cookies/CookieConsent.tsx:24-29 | The banner shows when no decision is stored |
| `CookieConsent.ConsentBanner.Accept` | src/components/cookies/CookieConsent.tsx:31-51 | Hides the banner and runs the 'granted' migration. The stored decision becomes 'granted' when the write lands and stays as it was when `setItem` throws. Consent then holds exactly when localStorage answers and either the write landed or consent held before |
| `CookieConsent.ConsentBanner.Decline` | src/components/cookies/CookieConsent.tsx:53-72 | Hides the banner. The stored decision becomes 'denied' when the write lands and stays as it was otherwise. The store key is gone from both the cookie and localStorage. Consent remains only when the write failed and consent held before |
| `CookieConsent.AcceptKeepsStoredStore` | src/components/cookies/CookieConsent.tsx:31-51 | After Accept with a localStorage that reads and writes, a store value kept in localStorage reads back unchanged from its cookie |
| `CookieConsent.RefusedAcceptLeavesNoDecision` | src/components/cookies/CookieConsent.tsx:31-51 | When `setItem` throws, Accept leaves no decision and no consent, so the banner returns on the next mount. The listener still moves the store into its cookie, which `getItem` does not read without consent |
| `Order.FindChoiceSpec` | src/pages/Order.tsx:62-66 | `find` gives the first entry with that value; nothing exactly when no entry has it |
| `Order.FindEntry` | src/pages/Order.tsx:62-66 | In a table with distinct values, `find` of an entry's value gives that entry |
| `Order.TablesHaveDistinctValues` | src/pages/Order.tsx:31-58 | No value appears twice in either table |
| `Order.TablesOfferMaterials` | src/pages/Order.tsx:31-58 | Every entry of both tables lists at least one material |
| `Order.BeginnerMaterials` | src/pages/Order.tsx:61-63 | A beginner with a purpose gets that purpose's materials, or [] for an unknown purpose |
| `Order.ExpertMaterials` | src/pages/Order.tsx:64-66 | An expert with a technology gets that technology's materials, or [] for an unknown one |
| `Order.OtherSelectionsOfferNothing` | src/pages/Order.tsx:60-69 | Every other combination gets [] |
| `Order.BeginnerWithOnlyTechnology` | src/pages/Order.tsx:60-69 | A beginner with only "fdm" set gets []; an expert gets the fdm list |
| `Order.VisibleMaterialStepOffersMaterials` | src/pages/Order.tsx:217-233 | When the material card shows for a choice from its table, it offers a non-empty list |
| `Order.OrderForm.constructor` | src/pages/Order.tsx:18-29 | The initial state: nothing chosen, empty contact fields, quantity "1" |
| `Order.OrderForm.ResetForm` | src/pages/Order.tsx:85-98 | Clears purpose, technology, material and the model answer, and resets the contact fields (quantity "1"). The user type is kept and every later step is hidden |
| `Order.OrderForm.ChooseBeginner` | src/pages/Order.tsx:135-138 | Sets beginner and resets. Only the purpose step is shown after it |
| `Order.OrderForm.ChooseExpert` | src/pages/Order.tsx:150-153 | Sets expert and resets. Only the technology step is shown after it |
| `Order.OrderForm.SetPurpose` | src/pages/Order.tsx:174 | For a beginner the material step shows exactly when the purpose is non-empty |
| `Order.OrderForm.SetTechnology` | src/pages/Order.tsx:200 | For an expert the material step shows exactly when the technology is non-empty |
| `Order.OrderForm.SetMaterial` | src/pages/Order.tsx:226 | The model step shows exactly when a material is chosen |
| `Order.OrderForm.SetHasModel` | src/pages/Order.tsx:263-278 | Either answer shows the details step |
| `Order.OrderForm.SetName` | src/pages/Order.tsx:309 | Replaces the name and keeps the other fields |
| `Order.OrderForm.SetPhone` | src/pages/Order.tsx:319 | Replaces the phone and keeps the other fields |
| `Order.OrderForm.SetEmail` | src/pages/Order.tsx:332 | Replaces the email and keeps the other fields |
| `Order.OrderForm.SetQuantity` | src/pages/Order.tsx:344 | Replaces the quantity and keeps the other fields |
| `Order.OrderForm.SetDescription` | src/pages/Order.tsx:374 | Replaces the description and keeps the other fields |
| `Gallery.JsRem` | src/components/sections/Gallery.tsx:56-60 | JavaScript's `%`: the result is congruent to the dividend modulo the divisor, has the dividend's sign and is smaller in magnitude than the divisor |
| `Gallery.SlidesStayInRange` | src/components/sections/Gallery.tsx:55-61 | next and prev map [0, 6) into [0, 6) |
| `Gallery.SlidesWrap` | src/components/sections/Gallery.tsx:55-61 | next from 5 is 0 and prev from 0 is 5 |
| `Gallery.PrevNeedsTheAddedLength` | src/components/sections/Gallery.tsx:60 | Without adding the length first, prev from 0 would be -1 |
| `Gallery.SlidesAreInverse` | src/components/sections/Gallery.tsx:55-61 | `prev(next(i)) == i` and `next(prev(i)) == i` on every valid index |
| `Gallery.RunStaysInRange` | src/components/sections/Gallery.tsx:53-144 | From the initial 0, any series of arrow and thumbnail clicks keeps the index valid, and a thumbnail click selects that thumbnail |

## Left out

- Output and process control are not modelled: PHP's headers, `json_encode`, `exit` and `http_response_code`; express's `res.json`; console output; toasts; `alert`; JSX rendering.
- PHP's loose `(int)` casts of `$file['error']` and `$file['size']` are not modelled: the model receives them as integers. `preg_replace` returning null (upload.php line 122) is not modelled either: the model treats its result as a string.
- Names are treated as one character per byte. `DIRECTORY_SEPARATOR` is '/'. The '\\'-to-'/' replacement is modelled, but Windows drive letters are not.
- The parts of `server/server.js` outside the upload route are not modelled: the CORS and body-parser middleware, `GET /uploads/:filename`, `GET /api/health`, `listen`, and the start-up `mkdir`. multer's parsing is reduced to one optional file part. A part under another field name is LIMIT_UNEXPECTED_FILE, the filter runs before the size limit, and multiple files are not modelled.
- The zustand `persist` middleware is not part of this model: storage key, `partialize`, and how it serialises. As written, `src/lib/store.ts:99-106` persists under the key 'marketplace-storage' through zustand's default storage. The key 'marketplace-store-v1' that the consent code migrates and deletes is a different key.
- Store.AppStore.CartTotal: states the getter's intended value, `Total(cart)` of the current cart. As written, the value is frozen by the first merge; see "## Findings". The classes `AppStore` and `CartSidebar` use the intended definition. The as-written behaviour is modelled only by `SetCartAsWritten`. zustand's `persist` hydration, whose spread also reads the getter, is not modelled.
- Prices and quantities are integers. JavaScript's floating-point numbers are not modelled. A product keeps only the fields the handlers read: id, title, price, category, badge and inStock.
- The product catalogue `@/data/products` is not part of this model: the catalogue is a parameter. The count line under the product section title (`Products.tsx` line 48) is not modelled.
- The product card's 500 ms pause and loading flag are not modelled. The detail dialog's selected-image index and its mock image list are not modelled either.
- The server-side-rendering guards (`typeof window`, `typeof document`) are not modelled: the storage always runs in a browser.
- Cookie attributes are not modelled: `expires` (180 days), `path`, `SameSite` and `Secure`. A written cookie never expires. The jar is one list of name/value cookies, so domain and path scoping are left out.
- Text.ToLower: lower-cases ASCII letters only, where `server/server.js:63` uses JavaScript's full Unicode `toLowerCase`. The filter's verdict is the same either way: the only non-ASCII character that lower-cases to an ASCII letter is KELVIN SIGN, giving 'k', and no listed extension contains a 'k'.
- localStorage's `removeItem` is assumed to succeed whenever reads do. Only `setItem` can fail on its own, which is the quota case that `src/lib/cookieStorage.ts:66-73` and `CookieConsent.tsx:32-36, 54-58` catch.
- Strings are sequences of Unicode scalar values, so the URIError that `encodeURIComponent` throws on a lone surrogate cannot arise.
- The try/catch around `addEventListener` is not modelled. `dispatchEvent` is modelled as running the storage listener synchronously.
- The consent banner's no-op `setState` that re-persists the store is not modelled, and neither are its console warnings.
- `src/pages/Order.tsx`'s submit handler (`console.log` and `alert`) is not modelled. The order summary labels, the upload placeholder shown for `hasModel === 'yes'` and the back navigation are not modelled either.
- CookieStorage.FindInCookieString: proved only for cookie names that are RFC 6265 tokens and values made of cookie octets. A key or value holding ';', '=' or surrounding whitespace changes how `document.cookie` splits, and the first-match result is not claimed for it.
- CookieStorage.GetCookieOfJar: the same restriction to token names and cookie-octet values.
- CookieStorage.SetThenGetWithConsent: the same restriction. The key must also differ from the consent key; that case is `SetConsentKeyRevokes`.
- CookieStorage.RemoveItemClears: the same restriction to token names and cookie-octet values.

## Findings

| source | as written | input that shows it | evidently intended | confidence | as-written member | corrected member |
|---|---|---|---|---|---|---|
| src/lib/store.ts:35-38 | `cartTotal` is a getter in the object passed to zustand. zustand merges each `set` with `Object.assign({}, state, partial)`, which reads the getter once and stores a plain number. So the property stops following the cart, and the total shown at `CartSidebar.tsx:122` is stale | a fresh store, then `addToCart` of a product priced 100: `cartTotal` reads 0 while the cart holds 100 | `cartTotal` always equals the sum of price × quantity over the current cart | not executed; rests on zustand's documented shallow merge | `Store.StaleCartTotalAfterAdd` | `Store.TotalAfterAdd` |
