# vue-pizza store, modelled in Dafny

This project models the Vuex store of a pizza-ordering page
(`src/store/index.js`). The store holds four pieces of state:

- the product list (`pizzas`), which is replaced wholesale and sorted in place;
- the category filter (`category`);
- the sort selection (`sortBy`);
- the cart (`cartItems`). This is a JavaScript `Map` from a product key to a
  cart line, where a line is the product plus a `count`.

The mutations and getters are modelled:

- the cart engine: add, increment, decrement, delete, clear;
- the derived totals: number of pizzas, price, line items, line total;
- the sort engine.

The modules follow that structure:

- `options.dfy`, module `Options`: the optional value used for `null`/absent.
- `cart_table.dfy`, module `CartTable`: the JavaScript `Map` semantics the cart
  relies on. It is kept as a sequence of key/value slots in insertion order.
  `set` replaces a present key's value where it stands and appends an absent
  key; `delete` splices the pair out.
- `catalog.dfy`, module `Catalog`: the product record, the sort criteria, the
  comparator orders and the in-place sort of the product array.
- `cart.dfy`, module `CartEngine`: the cart transitions as functions on the
  table, the totals, and the lemmas about them.
- `store.dfy`, module `PizzaStore`: class `Store`, holding the state as fields.
  The mutations are methods that update the fields in place. The loop-based
  getters are methods proved against `CartEngine`'s functions.

The key of a cart line is the product record itself. In the source the key is
the JSON serialisation of the product without `count`. The model treats that
serialisation as injective, so two lines share a key exactly when their
products are equal. This holds for records with this model's field types
(whole numbers, strings, lists of whole numbers) written in one fixed field
order. It does not hold for JavaScript values in general: `NaN` and `null`
serialise alike, a field set to `undefined` is dropped, and equal records with
their fields in another order serialise differently.
`Store.Valid()` requires every line to be stored under its own product, with no
key twice.

The source does not keep "count at least 1" as an invariant on its own.
`INCREMENT_ITEM_PIZZA` stores the *passed* line's count plus one, and
`DECREMENT_ITEM_PIZZA` lowers the *passed* line's count, not the stored one.
When the key is absent, `INCREMENT_ITEM_PIZZA` always appends a new line, and
`DECREMENT_ITEM_PIZZA` appends one only when the passed count is above 1. The
store does not enforce a count of at least 1: it holds only while callers pass
counts of at least 0. The model states it that way, as a conditional
preservation.

## Model

| member | source | states |
|---|---|---|
| CartTable.Get | src/store/index.js:80 | a key is found exactly when it is among the keys, and the pair found is one of the table's pairs |
| CartTable.Set | src/store/index.js:117-120 | afterwards the key maps to the new value and every other key to what it mapped to before; a present key keeps its position, an absent key is appended; distinct keys stay distinct; no pair but the new one appears |
| CartTable.Delete | src/store/index.js:110 | on distinct keys the key is gone afterwards; every other key keeps its value; an absent key leaves the table as it was, a present one shortens it by exactly one |
| CartTable.DeleteIsWithout | src/store/index.js:106-111 | on distinct keys, deleting a key leaves exactly the pairs with other keys, in their original relative order |
| Catalog.SortPizzas | src/store/index.js:60-72 | after sorting, the array is in ascending order by the criterion and holds the same products, counted with multiplicity |
| Catalog.LeqTotal | src/store/index.js:60-72 | each of the three comparators orders any two products one way or the other |
| Catalog.LeqTransitive | src/store/index.js:60-72 | each of the three comparators is transitive |
| Catalog.NameLeqTotal | src/store/index.js:66 | the order used for names relates any two names |
| Catalog.NameLeqTransitive | src/store/index.js:66 | the order used for names is transitive |
| Catalog.NameLeqAntisymmetric | src/store/index.js:66 | two names ordered both ways are equal |
| CartEngine.Add | src/store/index.js:78-93 | an absent product is appended as one new line with count 1 and the rest is unchanged; a present product keeps its position and gets the stored count plus one; other keys untouched; key discipline and counts at least 1 are preserved |
| CartEngine.AddTotals | src/store/index.js:78-93 | one add raises the pizza count by exactly 1 and the price by the product's price |
| CartEngine.AddRepeatedly | src/store/index.js:85-91 | n adds of a product absent from the cart give one new line with count n; the totals rise by n pizzas and by that line's total |
| CartEngine.AddToEmpty | src/store/index.js:78-93 | from an empty cart, n adds of one product give a pizza count of n and a price of n times its price |
| CartEngine.Increment | src/store/index.js:112-121 | the key of the passed line maps to that line with count plus one; every other key is untouched; the key order is unchanged, or the key is appended if absent; counts stay at least 1 when the passed count is at least 0 |
| CartEngine.IncrementTotals | src/store/index.js:112-121 | incrementing a stored line adds one pizza and its unit price to the totals |
| CartEngine.Decrement | src/store/index.js:94-105 | with count above 1 the key maps to the passed line with count minus one, keeps its position (or is appended if absent) and other keys are untouched; with count at most 1 the cart is exactly unchanged, so no line is removed and no count drops below 1 |
| CartEngine.DecrementTotals | src/store/index.js:94-105 | decrementing a stored line above count 1 takes one pizza and its unit price off the totals; at count 1 both totals stay the same |
| CartEngine.Remove | src/store/index.js:106-111 | the passed line's key is absent afterwards; every other key keeps its line; key discipline and positive counts are preserved |
| CartEngine.RemoveKeepsOrder | src/store/index.js:106-111 | removing a line leaves all other lines in their original relative order |
| CartEngine.RemoveTotals | src/store/index.js:106-111 | removing a line lowers the totals by exactly that line's count and line total |
| CartEngine.SetTotals | src/store/index.js:14-33 | storing a line changes the recomputed totals by the difference between the new line and the one it replaces |
| CartEngine.DeleteTotals | src/store/index.js:14-33 | deleting a key lowers the recomputed totals by exactly the line stored there |
| CartEngine.LineTotal | src/store/index.js:43-47 | the total of one line is the unit price times the count: for a count of at least 0, the price of that many copies added up one by one |
| CartEngine.PriceIsSumOfLineTotals | src/store/index.js:43-47 | the cart price is the sum of the line totals (price times count) over the line items, in insertion order |
| CartEngine.CountBound | src/store/index.js:14-22 | when every count is at least 1, the number of pizzas is at least the number of lines |
| PizzaStore.Store.constructor | src/store/index.js:4-12 | initial state: empty product list, no category, sort selection rating with id 0, empty cart |
| PizzaStore.Store.GetPizza | src/store/index.js:50-52 | the product list becomes the given array; nothing else changes |
| PizzaStore.Store.SetCategory | src/store/index.js:53-55 | the category becomes the given one; nothing else changes |
| PizzaStore.Store.SetSort | src/store/index.js:56-77 | for "rating", "name" or "price": the same array, now sorted ascending and a permutation of before, with the selection set to the request's name and id; for any other name: products and selection unchanged |
| PizzaStore.Store.AddCart | src/store/index.js:78-93 | the cart becomes CartEngine.Add of the old cart; the other state is unchanged |
| PizzaStore.Store.DecrementItemPizza | src/store/index.js:94-105 | the cart becomes CartEngine.Decrement of the old cart; counts at least 1 are kept |
| PizzaStore.Store.DeleteCartItem | src/store/index.js:106-111 | the cart becomes CartEngine.Remove of the old cart |
| PizzaStore.Store.IncrementItemPizza | src/store/index.js:112-121 | the cart becomes CartEngine.Increment of the old cart |
| PizzaStore.Store.ClearCart | src/store/index.js:122-124 | the cart is empty, so the pizza count and price are 0 and the line items are empty |
| PizzaStore.Store.AddedPizzasCount | src/store/index.js:14-22 | the loop's result is the sum of all counts |
| PizzaStore.Store.AddedPizzasPrice | src/store/index.js:23-33 | the loop's result is the sum of price times count over all lines, which is the sum of the line totals |
| PizzaStore.Store.CartItemPizzas | src/store/index.js:34-42 | the result lists every cart line exactly once, in insertion order |

## Left out

- The async actions `getPizzaAction`, `getFilteredPizzas` and `getSortedPizzas` (src/store/index.js:127-149) are not modelled. They are HTTP requests, JSON decoding and console logging against an external service. Their effect on the state is the commits `GetPizza`, `SetCategory` and `SetSort`, which are modelled.
- The `createStore` wiring and Vue's reactivity (src/store/index.js:1-3, 151) are not modelled. Vuex is not part of this model.
- The exact text of `JSON.stringify` and its dependence on field order are not modelled. The key is the product record itself, an injective stand-in.
- `String.prototype.localeCompare` (src/store/index.js:66) is a foreign call. The model replaces it with lexicographic order by character code, proved total, transitive and antisymmetric. Locale collation is not modelled.
- Catalog.SortPizzas: states sorted and permutation only. It does not state that `Array.prototype.sort` is stable (equal elements keep their order), although the insertion sort used is.
- PizzaStore.Store.SetSort: states sorted and permutation only, as Catalog.SortPizzas does; the stability of `Array.prototype.sort` is not stated.
- Prices and ratings are integers. Floating-point arithmetic in the comparators and totals is not modelled.
- `DELETE_CART_ITEM` deletes `count` from the object its caller passed in (src/store/index.js:107). This side effect on a UI-owned object is not modelled; only the store's cart is.
- The category is a whole number or `null`; other JavaScript values the UI could pass are not modelled.
