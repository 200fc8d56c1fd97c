# Shopping-cart state of the storefront script

The storefront's page script (`temp.js`) keeps one shopping cart for the life
of the page: a JavaScript `Map` from product id to quantity, filled at load
time from the `cart` slot of local storage, changed in place by four handlers
(add to cart, remove from cart, change quantity by ±1, clear) and written back
to the slot after every change. After each change it refreshes the item-count
badge, the total amount and the rows of the cart modal. Beyond those, add and
remove set the clicked button to a fixed state and refresh that product's
quantity label; a quantity change refreshes only the label; clear recomputes
every product's button but no label.

This project models that cart and what the page shows for it:

- `CartEntries` (`cart_entries.dfy`): the `Map` as its list of
  `[id, quantity]` entries in iteration order, `Map.set`, `Map.delete`,
  `cart.get(id) || 0`, the `reduce` sum, `new Map(pairs)`, and the
  transitions `Added` (add to cart) and `Changed` (change quantity), with the
  lemmas about them: which entries change, that positions are kept, that keys
  stay distinct and quantities positive, how the item count moves, and that
  writing the entries out and loading them back gives the same cart. `ToMap`
  is the plain dictionary the list stands for; `SetRefines` and
  `DeleteRefines` show that the list operations are dictionary update and
  removal.
- `CartStore` (`cart_store.dfy`): the page's cart as a `Cart` object with two
  fields, the entries and the persisted slot, and one method per handler. Its
  invariant says that the keys are distinct and that loading the slot as it
  stands gives back the cart in memory, so a reload at any moment restores
  the cart.
- `CartView` (`cart_view.dfy`): the projections. `UpdateButtons`,
  `UpdateTotalAmount` and `UpdateCartModal` are the loops of the script,
  proved against the functions `ButtonFor`, `TotalAmount` and `Rows`. The
  quantity label and the count badge are plain functions.
- `CartEvents` (`cart_events.dfy`): the clicks that change the cart and what
  each leaves on a product's button and quantity label. The two surfaces the
  script forgets to refresh are listed under Findings.

A few places where this model departs from a plain reading of the script:

- Loading: `JSON.parse(localStorage.getItem('cart')) || []` turns an absent
  slot into an empty cart. Text that does not parse makes `JSON.parse` throw
  at temp.js:1; the script has no fallback, so a corrupt slot is not an input
  here, and the slot is held as the list of pairs it encodes.
- Loading a list that repeats an id (only possible from a hand-edited slot)
  behaves as `new Map` does: the id keeps its first position and takes its
  last quantity. The script never writes such a list.
- The button state follows `cart.has(id)`, as the code does. `ButtonMatchesQuantity`
  shows that this is the same as "quantity above 0" when no zero or negative
  quantity is stored.
- Quantities are unbounded integers and prices are exact integers in the
  smallest currency unit (see Left out).

## Model

| member | source | states |
|---|---|---|
| CartEntries.QuantityOf | temp.js:97 | a product not in the cart reads as quantity 0 |
| CartEntries.QuantityAt | temp.js:97 | with distinct keys, the lookup returns the quantity stored beside the id |
| CartEntries.QuantityPositive | temp.js:84-88 | when every stored quantity is at least 1, a product is in the cart exactly when its quantity is at least 1 |
| CartEntries.Set | temp.js:35-37 | after `set` the id is present with the new value; a new id is appended at the end; an existing id keeps the length |
| CartEntries.SetKeepsOthers | temp.js:35-37 | `set` leaves the membership and quantity of every other id unchanged |
| CartEntries.SetInPlace | temp.js:37 | `set` on an existing id changes no other entry and no position |
| CartEntries.SetKeepsDistinct | temp.js:35-37 | `set` keeps keys distinct |
| CartEntries.SetKeepsPositive | temp.js:65 | setting a quantity of at least 1 keeps every stored quantity at least 1 |
| CartEntries.Delete | temp.js:49 | `delete` of an absent id changes nothing; of a present id removes one entry |
| CartEntries.DeleteKeepsOthers | temp.js:49 | `delete` leaves the membership and quantity of every other id unchanged |
| CartEntries.DeleteAt | temp.js:63 | with distinct keys, deleting the id at position i removes exactly that entry and keeps the others in order |
| CartEntries.DeleteRemoves | temp.js:49 | after `delete` the id is gone and the keys stay distinct |
| CartEntries.DeleteKeepsPositive | temp.js:63 | `delete` keeps every stored quantity at least 1 |
| CartEntries.TotalItemsSet | temp.js:110 | setting an id to v moves the item count by v minus its old quantity |
| CartEntries.TotalItemsDelete | temp.js:110 | deleting an id lowers the item count by its quantity |
| CartEntries.TotalItemsBounds | temp.js:110 | with positive quantities, the count is at least the number of entries and is 0 only for an empty cart |
| CartEntries.LoadIntoDistinct | temp.js:1 | `new Map(pairs)` yields distinct keys whatever the pairs |
| CartEntries.LoadSlotDistinct | temp.js:1 | whatever the slot holds, including nothing, the loaded cart has distinct keys |
| CartEntries.LoadIntoAppends | temp.js:1 | pairs with new, distinct ids are appended in their order |
| CartEntries.LoadRoundTrip | temp.js:39 | loading the entries that were written out rebuilds the same cart, in the same order |
| CartEntries.SetRefines | temp.js:35-37 | `set` on the entries is key update on the dictionary they stand for |
| CartEntries.DeleteRefines | temp.js:49 | `delete` on the entries is key removal on the dictionary they stand for |
| CartEntries.Added | temp.js:34-38 | adding raises the product's quantity by exactly 1; an absent product is appended with quantity 1 |
| CartEntries.AddedKeepsOthers | temp.js:34-38 | adding changes no other entry, position or quantity |
| CartEntries.AddKeepsInvariant | temp.js:34-38 | adding keeps keys distinct and never stores a zero or negative quantity when none was stored |
| CartEntries.AddRaisesCount | temp.js:34-38 | adding raises the item count by exactly 1 |
| CartEntries.RemoveKeepsInvariant | temp.js:48-49 | removing deletes the product whatever its quantity, keeps keys distinct and quantities positive |
| CartEntries.Changed | temp.js:59-66 | an absent product is left alone; otherwise a positive sum is stored as the new quantity |
| CartEntries.ChangedKeepsOthers | temp.js:59-66 | changing one product's quantity leaves every other product as it was |
| CartEntries.ChangeKeepsInvariant | temp.js:59-66 | for any amount, keys stay distinct and no zero or negative quantity is ever stored |
| CartEntries.ChangeDeletesAtZero | temp.js:61-63 | the product is deleted exactly when the old quantity plus the amount is 0 or less |
| CartEntries.ChangeMovesCount | temp.js:59-66 | the count moves by the amount, drops by the whole quantity on deletion, and stays put for an absent product |
| CartEntries.AddThenRemove | temp.js:33-57 | add then remove leaves the product absent; for a product not in the cart before, it gives back the same cart |
| CartStore.Cart.Load | temp.js:1 | the cart is the loaded slot; an absent slot gives an empty cart; the slot then reloads to the cart |
| CartStore.Cart.AddToCart | temp.js:33-45 | the new entries are `Added` of the old, the slot holds them, the count rises by 1, positivity is kept |
| CartStore.Cart.RemoveFromCart | temp.js:47-57 | a present product is deleted and the slot written; an absent one changes nothing, writes nothing and re-renders nothing |
| CartStore.Cart.ChangeQuantity | temp.js:59-73 | the new entries are `Changed` of the old; the slot is written only for a present product; the product survives exactly when the sum is positive |
| CartStore.Cart.Clear | temp.js:202-204 | the cart is emptied and the slot removed; the count is 0 |
| CartView.UpdateButtons | temp.js:81-90 | one state per button in document order, each the `ButtonFor` state of its product: "remove" exactly when the product is in the cart |
| CartView.ButtonMatchesQuantity | temp.js:84-88 | with positive quantities, the button shows removal exactly when the product's quantity is above 0 |
| CartView.QuantityLabelShows | temp.js:92-105 | a product on the page shows 0 when it is not in the cart, the empty cart included; with distinct keys, it otherwise shows the quantity stored beside its id |
| CartView.CountBadgeShowsItems | temp.js:107-112 | the badge shows the sum of quantities; with positive quantities, 0 exactly for an empty cart |
| CartView.UpdateTotalAmount | temp.js:114-128 | the label shows the sum of price times quantity over entries whose product is on the page, and nothing without a label |
| CartView.UpdateCartModal | temp.js:130-172 | the empty-cart message exactly when the cart has no entries, otherwise the rows of `Rows` |
| CartView.Rows | temp.js:155-172 | there are never more rows than entries |
| CartView.RowsAppend | temp.js:155-172 | rows follow cart order: the rows of two runs of entries are the first run's rows followed by the second's |
| CartView.RowsAllOnPage | temp.js:155-172 | with every product on the page, there is exactly one row per entry, at the entry's position |
| CartView.RowsAreTheEntriesOnPage | temp.js:155-172 | every row comes from an entry whose product is on the page, and every such entry has its row |
| CartView.TotalMatchesRows | temp.js:117-125 | the modal's sub-totals add up to the total amount; both skip the same missing products |
| CartEvents.DecrementLeavesStaleButton | temp.js:59-73 | as written, taking the last unit away leaves the button on "Remove from Cart" for a product no longer in the cart; in that concrete case its button and its increment control leave the cart as it is, and clearing the cart repairs the button so the next click adds the product |
| CartEvents.StaleButtonStuck | temp.js:47-73 | as written, for any cart and any event but clear, a product out of the cart whose button shows "Remove from Cart" stays out of the cart with its button stale; only clearing the cart or a page reload repairs it |
| CartEvents.FlippedButtonMatchesCart | temp.js:40-51 | with distinct keys, the fixed state add and remove write on the clicked button ("Remove from Cart" after adding, "Add to Cart" after removing) is the state cart membership calls for |
| CartEvents.ClearLeavesStaleLabel | temp.js:202-209 | as written, clearing leaves each quantity label showing its old number |
| CartEvents.AsWrittenKeepsSyncOnAddAndIncrement | temp.js:33-73 | as written, with distinct keys and positive quantities, product-button and increment clicks keep buttons and labels in step with the cart |
| CartEvents.CorrectedKeepsSync | temp.js:59-73 | with the two refreshes added, every click keeps every button and label in step with the cart |

## Findings

| source | as written | input that shows it | evidently intended | confidence | as-written member | corrected member |
|---|---|---|---|---|---|---|
| temp.js:59-73 | `changeQuantity` refreshes the quantity label, badge, total and modal but not the product's button | cart `{p: 1}`, button on "Remove from Cart"; click `.removeitem` on p: p is deleted, the button still says "Remove from Cart"; clicking it runs `removeFromCart`, which does nothing for an absent product, and `.additem` does nothing either, and no other event but clear changes that (`StaleButtonStuck`), so p cannot be added again until the cart is cleared (whose `updateButtons` at temp.js:205 recomputes the button) or the page reloads | the button follows cart membership after every change, as `updateButtons` (temp.js:81-90) computes it | high; not executed | CartEvents.DecrementLeavesStaleButton | CartEvents.CorrectedKeepsSync |
| temp.js:202-209 | the clear handler refreshes buttons, badge, total and modal but not the quantity labels | cart `{p: 2}` with p's label showing 2; click `#clearcart`: the cart is empty, the label still shows 2 | every quantity label reads 0 after clearing, as `updateQuantityDisplay` (temp.js:92-105) would show | medium; not executed | CartEvents.ClearLeavesStaleLabel | CartEvents.CorrectedKeepsSync |

`ShownAsWritten` is the script's behaviour; `ShownCorrected` adds the two
refreshes, and `CorrectedKeepsSync` proves every surface stays in step with
the cart under it. The cart itself is the same under both.

## Left out

- DOM querying and mutation (`closest`, `querySelector`, `createElement`, `innerHTML`, class and text updates): only the value each surface shows is modelled. Creating the quantity span when missing (temp.js:98-102) shows the same value as updating it, so both are one function.
- Event wiring and the modal's open, close, overlay and continue-shopping handlers (temp.js:8-31, 177-200) are UI plumbing; `CartEvents` keeps only the dispatch of each click to its cart handler.
- `CartEvents` keys the product surfaces by product, so it assumes one `.button` and one quantity label per product. The page may carry several buttons for a product (`CartView.Page.buttons` allows it); add and remove flip only the clicked one, so with several buttons per product `CorrectedKeepsSync` and `AsWrittenKeepsSyncOnAddAndIncrement` do not cover the others.
- The initial renders at page load (temp.js:4-6) are `UpdateButtons`, `CountBadge` and `UpdateTotalAmount` applied to the loaded cart. Page load renders no quantity label and no modal, so after a reload each label shows whatever the page markup holds until its product's first click; `CartEvents.InSync` judges only the labels written so far, which matches this.
- `localStorage` and `JSON.stringify`/`JSON.parse`: the slot is held as the list of pairs it encodes. Malformed slot text throws at temp.js:1 and is not modelled, because the script has no handling for it.
- Prices: `parseFloat` of the price text after stripping "Price : ₹" and the first comma, floating-point products and sums, `NaN` for unparsable text, and `toFixed(2)` with the `₹` prefix (temp.js:121-126, 159-168). Prices are exact integers in the smallest currency unit, so `TotalAmount` and the row sub-totals are exact; the rule that products missing from the page are skipped is kept.
- Quantities are unbounded integers; JavaScript numbers lose precision past 2^53, far beyond any cart.
- `updateCartModal` ends by calling `updateTotalAmount` (temp.js:174); that refresh is `UpdateTotalAmount` on its own. A missing `#cart-items` element makes `updateCartModal` throw; the model assumes it exists.
