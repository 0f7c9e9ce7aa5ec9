# Shopping-cart provider, modelled in Dafny

This project models the cart state of the RocketShoes storefront's `CartProvider`
(`src/hooks/useCart.tsx`). The provider holds an ordered list of cart items
(a product id, an `amount`, and the rest of the product record) and a storage
slot that mirrors it. It offers three operations:

- `addProduct(productId)` raises the amount of an item already in the cart by
  one, as long as the amount is below the stock. A product not yet in the cart
  is appended with amount 1.
- `removeProduct(productId)` filters the id out of the cart. Nothing filtered
  out counts as an error.
- `updateProductAmount({productId, amount})` sets the amount when it is
  positive and strictly below the stock. A non-positive amount is ignored.

Two modules make up the model:

- `CartLogic` (`cart_logic.dfy`) is the pure part. `Find`, `Increment` /
  `WithAmount`, `Without` and `+ [item]` are the `find`, the two `map`s, the
  `filter` and the spread-append of `useCart.tsx`. `AddProduct`, `RemoveProduct`
  and `UpdateProductAmount` compute an `Outcome` from the current cart: either
  `Saved(newCart)`, `Silent` (the early return for `amount <= 0`) or
  `Notify(notice)` (a toast). The lemmas state what each outcome does to the
  cart.
- `CartStore` (`cart_provider.dfy`) holds the class `CartProvider` with the
  fields `cart` and `stored`. Its constructor is the initial load. Its methods
  compute the outcome and commit it: a saved cart is written to the slot and
  to memory, and every other outcome leaves both untouched. `Mirrored()`
  (`cart == Load(stored)`) holds from construction on and is kept by every
  method.

The remote lookups are parameters of type `Lookup<T> = Found(value) | Failed`.
`stock` is the answer of `GET /stock/{id}` (its `amount`). `product` is the
answer of `GET /products/{id}`, which is used only when a new item is
appended. `Failed` stands for any rejected request: the source catches every
such error the same way.

Three points of the code that the model keeps as they are:

- The append branch never consults the stock (`src/hooks/useCart.tsx:44-46`).
  `AddAppendsNew` holds for every stock value, zero and negative included.
- The appended item takes its `id` from the fetched product record, not from
  the `productId` argument. `AddKeepsWellFormed` therefore assumes the catalogue
  answers with the product that was asked for. `AddForeignProductDuplicates`
  shows the cart it produces otherwise: two items with the same id.
- `find` returns the first item with the id, while `map` changes every item
  with it. On a cart with duplicate ids (possible through the storage slot, or
  through a catalogue answer for a different id), the stock check looks at the
  first item and the increment touches all of them. The model keeps this. The
  lemmas about exact effects assume one item per id (`Unique`).

## Model

| member | source | states |
|---|---|---|
| CartLogic.Message | src/hooks/useCart.tsx:48-97 | the text of each notice, as at lines 48, 55, 70, 93 and 97 |
| CartLogic.MessagesDistinct | src/hooks/useCart.tsx:48-97 | the four notice texts (lines 48, 55, 70, 93 and 97; out-of-stock shared by add and update) are pairwise different |
| CartLogic.Find | src/hooks/useCart.tsx:34 | the index found holds the id and no earlier item does; no index means no item has the id |
| CartLogic.Increment | src/hooks/useCart.tsx:38-43 | same length; each item with the id has its amount raised by one, every other item is kept in its place |
| CartLogic.WithAmount | src/hooks/useCart.tsx:84-88 | same length; each item with the id gets the new amount, every other item is kept in its place |
| CartLogic.Without | src/hooks/useCart.tsx:61 | the result keeps exactly the items without the id, and is shorter by the number of items with it |
| CartLogic.CountZeroIffAbsent | src/hooks/useCart.tsx:61-63 | the filter drops nothing exactly when no item has the id |
| CartLogic.FindUnique | src/hooks/useCart.tsx:34 | with one item per id, `find` returns the item holding the id |
| CartLogic.WithoutAbsent | src/hooks/useCart.tsx:61 | filtering an absent id returns the cart unchanged |
| CartLogic.WithoutAppend | src/hooks/useCart.tsx:61 | filtering distributes over concatenation, so it keeps the order of the items |
| CartLogic.WithoutDropsOne | src/hooks/useCart.tsx:61 | with one item per id, filtering a present id removes just that item and keeps the others in order |
| CartLogic.WithoutKeepsUnique | src/hooks/useCart.tsx:61 | filtering keeps at most one item per id |
| CartLogic.AddProduct | src/hooks/useCart.tsx:31-57 | never silent; only saves when the stock lookup succeeded; its only notifications are out-of-stock and the add error |
| CartLogic.AddIncrementsExisting | src/hooks/useCart.tsx:34-43 | an item with fewer units than the stock gets exactly one more, possibly reaching the stock; length, order and other items unchanged; the product lookup is not used |
| CartLogic.AddAppendsNew | src/hooks/useCart.tsx:44-46 | an absent id is appended at the end with amount 1 whatever the stock; earlier items untouched |
| CartLogic.AddRefusedAtStock | src/hooks/useCart.tsx:37-49 | when the first item with the id has at least as many units as the stock, the outcome is the out-of-stock notice |
| CartLogic.AddLookupFailure | src/hooks/useCart.tsx:33-56 | a failed stock lookup, or a failed product lookup for a new id, gives the add error |
| CartLogic.AddForeignProductDuplicates | src/hooks/useCart.tsx:44-46 | for every cart: when the id asked is absent and the catalogue answers with a product whose id is already in the cart, that product is appended as a second item with the id, so the cart no longer has one item per id |
| CartLogic.AddKeepsWellFormed | src/hooks/useCart.tsx:34-46 | a saved cart keeps one item per id and positive amounts, when the product lookup answers for the id asked |
| CartLogic.RemoveProduct | src/hooks/useCart.tsx:59-72 | either saves a strictly shorter cart or gives the removal error |
| CartLogic.RemoveOutcome | src/hooks/useCart.tsx:61-70 | removal saves exactly when the id is present, and saves the filtered cart; an absent id gives the removal error |
| CartLogic.RemovePresent | src/hooks/useCart.tsx:61-65 | with one item per id, the saved cart is the old one without that item, one shorter, order kept |
| CartLogic.RemoveKeepsWellFormed | src/hooks/useCart.tsx:61-65 | a saved cart keeps one item per id and positive amounts |
| CartLogic.UpdateProductAmount | src/hooks/useCart.tsx:74-99 | silent exactly when the amount is not positive; saves exactly when 0 < amount < stock; length kept; a notification is the update error on a failed lookup and out-of-stock otherwise |
| CartLogic.UpdateSetsAmount | src/hooks/useCart.tsx:83-91 | for 0 < amount < stock the item gets exactly that amount; length, order and other items unchanged |
| CartLogic.UpdateAbsentSavesSameCart | src/hooks/useCart.tsx:83-91 | an accepted amount for an absent id is a success that saves the cart unchanged |
| CartLogic.UpdateKeepsWellFormed | src/hooks/useCart.tsx:79-91 | a saved cart keeps one item per id and positive amounts |
| CartLogic.StockCeilingAsymmetry | src/hooks/useCart.tsx:37-40 | add lifts an item one below the stock to exactly the stock, while update (line 83) refuses that same amount |
| CartStore.CartProvider.constructor | src/hooks/useCart.tsx:25-29 | the initial cart is the stored one if the slot holds one, otherwise empty; the mirror holds |
| CartStore.CartProvider.Commit | src/hooks/useCart.tsx:52-53 | a saved cart becomes both the slot and the in-memory cart (as at lines 52-53, 64-65 and 90-91); any other outcome changes neither |
| CartStore.CartProvider.AddProduct | src/hooks/useCart.tsx:31-57 | the outcome is that of `CartLogic.AddProduct`; slot and cart mirror the new cart on success and are unchanged otherwise; well-formedness kept |
| CartStore.CartProvider.RemoveProduct | src/hooks/useCart.tsx:59-72 | the outcome is that of `CartLogic.RemoveProduct`; slot and cart mirror the new cart on success and are unchanged otherwise; well-formedness kept |
| CartStore.CartProvider.UpdateProductAmount | src/hooks/useCart.tsx:74-99 | the outcome is that of `CartLogic.UpdateProductAmount`; slot and cart mirror the new cart on success and are unchanged otherwise; well-formedness kept |

## Left out

- The React context, the provider's JSX and the `useCart` accessor (`src/hooks/useCart.tsx:22,101-114`) are UI framework plumbing.
- The HTTP client is not modelled. Each lookup is a `Lookup` parameter, and a failure covers every kind of rejected request alike.
- Toasts are not shown. The `Notice` in the outcome says which one would appear, and `CartLogic.Message` gives its text.
- JSON serialisation and the browser's storage are not modelled. The slot is an `Option` of a cart under the fixed key. A stored value that fails to parse, or an empty string, is not represented. A failing `localStorage.setItem` (a full quota, say) is not represented either: in the source it is caught (lines 54, 69 and 96), the operation shows its generic error and changes neither the slot nor the cart, whereas in the model a `Saved` outcome always commits.
- The `async` scheduling is not modelled. Operations run one after another, each to completion, on the cart as it was when they started.
- Product fields other than `id` are not interpreted. They travel as an opaque `details` payload, and the catalogue's own `amount` field (overwritten by 1 on append) is not represented.
- Numbers are mathematical integers. JavaScript's floating-point numbers, and comparisons with a missing stock `amount`, are not modelled.
