/**
 * The pizza store's state and its synchronous operations: the mutations that
 * replace the product list, the category and the sort selection, the cart
 * mutations, and the getters that derive the cart's totals and line items.
 */
module PizzaStore {
  import opened Options
  import opened Catalog
  import opened CartTable
  import opened CartEngine

  class Store {
    /** The product list, sorted in place by SetSort. */
    var pizzas: array<Product>
    /** The active category filter; None stands for `null`. */
    var category: Option<int>
    /** The active sort selection. */
    var sortBy: SortSelection
    /** The cart, in insertion order. */
    var cartItems: Cart

    ghost predicate Valid()
      reads this
    {
      WellKeyed(cartItems)
    }

    /** The initial state: no products, no category, sorted by rating with id 0, an empty cart. */
    constructor ()
      ensures Valid()
      ensures pizzas.Length == 0 && category == None
      ensures sortBy == SortSelection("rating", 0) && cartItems == []
    {
      pizzas := new Product[0];
      category := None;
      sortBy := SortSelection("rating", 0);
      cartItems := [];
    }

    /** GET_PIZZA: the product list becomes the given one. */
    method GetPizza(newPizzas: array<Product>)
      requires Valid()
      modifies this
      ensures Valid()
      ensures pizzas == newPizzas
      ensures category == old(category) && sortBy == old(sortBy) && cartItems == old(cartItems)
    {
      pizzas := newPizzas;
    }

    /** SET_CATEGORY: records the category filter. */
    method SetCategory(categoryIndex: Option<int>)
      requires Valid()
      modifies this
      ensures Valid()
      ensures category == categoryIndex
      ensures pizzas == old(pizzas) && sortBy == old(sortBy) && cartItems == old(cartItems)
    {
      category := categoryIndex;
    }

    /**
     * SET_SORT: for a known criterion, sorts the product list in place in
     * ascending order and records the selection; for any other name, changes
     * nothing.
     */
    method SetSort(sortItem: SortItem)
      requires Valid()
      modifies this, pizzas
      ensures Valid()
      ensures pizzas == old(pizzas)
      ensures category == old(category) && cartItems == old(cartItems)
      ensures CriterionOf(sortItem.sortBy).Some? ==>
        && SortedBy(CriterionOf(sortItem.sortBy).value, pizzas[..])
        && multiset(pizzas[..]) == multiset(old(pizzas[..]))
        && sortBy == SortSelection(sortItem.sortBy, sortItem.id)
      ensures CriterionOf(sortItem.sortBy).None? ==>
        pizzas[..] == old(pizzas[..]) && sortBy == old(sortBy)
    {
      if sortItem.sortBy == "rating" {
        SortPizzas(pizzas, ByRating);
        sortBy := SortSelection(sortItem.sortBy, sortItem.id);
      } else if sortItem.sortBy == "name" {
        SortPizzas(pizzas, ByName);
        sortBy := SortSelection(sortItem.sortBy, sortItem.id);
      } else if sortItem.sortBy == "price" {
        SortPizzas(pizzas, ByPrice);
        sortBy := SortSelection(sortItem.sortBy, sortItem.id);
      }
    }

    /** ADD_CART: a new line with count 1, or the stored count plus one. */
    method AddCart(pizza: Product)
      requires Valid()
      modifies this
      ensures Valid()
      ensures cartItems == Add(old(cartItems), pizza)
      ensures CountsPositive(old(cartItems)) ==> CountsPositive(cartItems)
      ensures pizzas == old(pizzas) && category == old(category) && sortBy == old(sortBy)
    {
      var isPizzaAdded := Get(cartItems, pizza);
      if isPizzaAdded.None? {
        cartItems := Set(cartItems, pizza, CartEntry(pizza, 1));
      } else {
        var addedPizza := isPizzaAdded.value;
        cartItems := Set(cartItems, pizza, CartEntry(pizza, addedPizza.count + 1));
      }
    }

    /** DECREMENT_ITEM_PIZZA: lowers the line by one when its count exceeds one. */
    method DecrementItemPizza(pizza: CartEntry)
      requires Valid()
      modifies this
      ensures Valid()
      ensures cartItems == Decrement(old(cartItems), pizza)
      ensures CountsPositive(old(cartItems)) ==> CountsPositive(cartItems)
      ensures pizzas == old(pizzas) && category == old(category) && sortBy == old(sortBy)
    {
      var key := KeyOf(pizza);
      if pizza.count > 1 {
        cartItems := Set(cartItems, key, CartEntry(pizza.product, pizza.count - 1));
      }
    }

    /** DELETE_CART_ITEM: removes the line. */
    method DeleteCartItem(pizza: CartEntry)
      requires Valid()
      modifies this
      ensures Valid()
      ensures cartItems == Remove(old(cartItems), pizza)
      ensures CountsPositive(old(cartItems)) ==> CountsPositive(cartItems)
      ensures pizzas == old(pizzas) && category == old(category) && sortBy == old(sortBy)
    {
      var key := KeyOf(pizza);
      ghost var before := cartItems;
      cartItems := Delete(cartItems, key);
      assert cartItems == Remove(before, pizza);
    }

    /** INCREMENT_ITEM_PIZZA: stores the line with its count plus one. */
    method IncrementItemPizza(pizza: CartEntry)
      requires Valid()
      modifies this
      ensures Valid()
      ensures cartItems == Increment(old(cartItems), pizza)
      ensures CountsPositive(old(cartItems)) && pizza.count >= 0 ==> CountsPositive(cartItems)
      ensures pizzas == old(pizzas) && category == old(category) && sortBy == old(sortBy)
    {
      var key := KeyOf(pizza);
      ghost var before := cartItems;
      cartItems := Set(cartItems, key, CartEntry(pizza.product, pizza.count + 1));
      assert cartItems == Increment(before, pizza);
    }

    /** CLEAR_CART: empties the cart; every derived total is then zero. */
    method ClearCart()
      requires Valid()
      modifies this
      ensures Valid()
      ensures cartItems == []
      ensures TotalCount(cartItems) == 0 && TotalPrice(cartItems) == 0 && Values(cartItems) == []
      ensures pizzas == old(pizzas) && category == old(category) && sortBy == old(sortBy)
    {
      cartItems := [];
    }

    /** getAddedPizzasCount: the number of pizzas in the cart. */
    method AddedPizzasCount() returns (totalCount: int)
      ensures totalCount == TotalCount(cartItems)
    {
      totalCount := 0;
      var entries := Values(cartItems);
      for i := 0 to |entries|
        invariant totalCount == TotalCount(cartItems[..i])
      {
        assert cartItems[..i + 1] == cartItems[..i] + [cartItems[i]];
        TotalsAppend(cartItems[..i], [cartItems[i]]);
        totalCount := totalCount + entries[i].count;
      }
      assert cartItems[..|entries|] == cartItems;
    }

    /** getAddedPizzasPrice: the price of the cart, line total by line total. */
    method AddedPizzasPrice() returns (totalPrice: int)
      ensures totalPrice == TotalPrice(cartItems)
      ensures totalPrice == SumOfLineTotals(Values(cartItems))
    {
      totalPrice := 0;
      var entries := Values(cartItems);
      for i := 0 to |entries|
        invariant totalPrice == TotalPrice(cartItems[..i])
      {
        assert cartItems[..i + 1] == cartItems[..i] + [cartItems[i]];
        TotalsAppend(cartItems[..i], [cartItems[i]]);
        var pizzaTotalPrice := entries[i].product.price * entries[i].count;
        totalPrice := totalPrice + pizzaTotalPrice;
      }
      assert cartItems[..|entries|] == cartItems;
      PriceIsSumOfLineTotals(cartItems);
    }

    /** getCartItemPizzas: every cart line once, in insertion order. */
    method CartItemPizzas() returns (addedPizzas: seq<CartEntry>)
      ensures |addedPizzas| == |cartItems|
      ensures forall i :: 0 <= i < |cartItems| ==> addedPizzas[i] == cartItems[i].value
    {
      addedPizzas := [];
      for i := 0 to |cartItems|
        invariant |addedPizzas| == i
        invariant forall j :: 0 <= j < i ==> addedPizzas[j] == cartItems[j].value
      {
        addedPizzas := addedPizzas + [cartItems[i].value];
      }
    }
  }
}
