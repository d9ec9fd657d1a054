/**
 * The cart engine: the cart as an insertion-ordered table from a product to
 * its cart line, the transitions the store's mutations apply to it, and the
 * totals its getters derive from it.
 */
module CartEngine {
  import opened Options
  import opened Catalog
  import opened CartTable

  /** A cart line: a product together with the number of copies ordered. */
  datatype CartEntry = CartEntry(product: Product, count: int)

  /**
   * The cart. Its key is the product record without `count`; it stands for
   * the JSON serialisation of that record, which is injective, so two lines
   * share a key exactly when their products agree in every field.
   */
  type Cart = Table<Product, CartEntry>

  /** The key of a cart line: the line with its `count` dropped. */
  function KeyOf(e: CartEntry): Product
  {
    e.product
  }

  /** Every line is stored under its own product's key, and no key occurs twice. */
  ghost predicate WellKeyed(c: Cart)
  {
    DistinctKeys(c) && forall s :: s in c ==> s.value.product == s.key
  }

  /** No line has a count below one. */
  ghost predicate CountsPositive(c: Cart)
  {
    forall s :: s in c ==> s.value.count >= 1
  }

  /**
   * Adding a product: a new line with count 1 at the end of the cart, or the
   * stored count plus one for a product already in it.
   */
  function Add(c: Cart, p: Product): (r: Cart)
    ensures Get(c, p).None? ==> r == c + [Slot(p, CartEntry(p, 1))]
    ensures Get(c, p).Some? ==>
      Keys(r) == Keys(c) && Get(r, p) == Some(CartEntry(p, Get(c, p).value.count + 1))
    ensures forall k :: k != p ==> Get(r, k) == Get(c, k)
    ensures WellKeyed(c) ==> WellKeyed(r)
    ensures CountsPositive(c) ==> CountsPositive(r)
  {
    match Get(c, p)
    case None => Set(c, p, CartEntry(p, 1))
    case Some(added) => Set(c, p, CartEntry(p, added.count + 1))
  }

  /**
   * Incrementing the line `e`: the line stored under e's key becomes e with
   * its count plus one, whatever was stored there before (a line is appended
   * when the key is absent).
   */
  function Increment(c: Cart, e: CartEntry): (r: Cart)
    ensures Get(r, KeyOf(e)) == Some(CartEntry(e.product, e.count + 1))
    ensures forall k :: k != KeyOf(e) ==> Get(r, k) == Get(c, k)
    ensures Keys(r) == if KeyOf(e) in Keys(c) then Keys(c) else Keys(c) + [KeyOf(e)]
    ensures WellKeyed(c) ==> WellKeyed(r)
    ensures CountsPositive(c) && e.count >= 0 ==> CountsPositive(r)
  {
    Set(c, KeyOf(e), CartEntry(e.product, e.count + 1))
  }

  /**
   * Decrementing the line `e`: e with its count minus one is stored under
   * e's key when e's count exceeds one; otherwise the cart is left as it is,
   * so a line at count 1 is neither lowered nor removed.
   */
  function Decrement(c: Cart, e: CartEntry): (r: Cart)
    ensures e.count <= 1 ==> r == c
    ensures e.count > 1 ==> Get(r, KeyOf(e)) == Some(CartEntry(e.product, e.count - 1))
    ensures e.count > 1 ==>
      Keys(r) == if KeyOf(e) in Keys(c) then Keys(c) else Keys(c) + [KeyOf(e)]
    ensures forall k :: k != KeyOf(e) ==> Get(r, k) == Get(c, k)
    ensures WellKeyed(c) ==> WellKeyed(r)
    ensures CountsPositive(c) ==> CountsPositive(r)
  {
    if e.count > 1 then Set(c, KeyOf(e), CartEntry(e.product, e.count - 1)) else c
  }

  /** Removing the line `e`: the line under e's key goes, the others stay in order. */
  function Remove(c: Cart, e: CartEntry): (r: Cart)
    ensures WellKeyed(c) ==> Get(r, KeyOf(e)) == None
    ensures forall k :: k != KeyOf(e) ==> Get(r, k) == Get(c, k)
    ensures WellKeyed(c) ==> WellKeyed(r)
    ensures CountsPositive(c) ==> CountsPositive(r)
  {
    Delete(c, KeyOf(e))
  }

  /** Removing a line keeps every other line, in its original relative order. */
  lemma RemoveKeepsOrder(c: Cart, e: CartEntry)
    requires WellKeyed(c)
    ensures Remove(c, e) == Without(c, KeyOf(e))
  {
    DeleteIsWithout(c, KeyOf(e));
  }

  /**
   * The price of one cart line: unit price times count, which is the price
   * of that many copies added up one by one.
   */
  function LineTotal(e: CartEntry): (r: int)
    ensures e.count >= 0 ==> r == CopiesPrice(e.product, e.count)
  {
    if e.count >= 0 then
      CopiesPriceIsProduct(e.product, e.count);
      e.product.price * e.count
    else
      e.product.price * e.count
  }

  /** The price of `n` copies of a product, one copy at a time. */
  function CopiesPrice(p: Product, n: nat): int
  {
    if n == 0 then 0 else CopiesPrice(p, n - 1) + p.price
  }

  lemma {:induction false} CopiesPriceIsProduct(p: Product, n: nat)
    ensures CopiesPrice(p, n) == p.price * n
  {
    if n > 0 {
      CopiesPriceIsProduct(p, n - 1);
      assert p.price * n == p.price * (n - 1) + p.price;
    }
  }

  /** The number of pizzas in the cart: the sum of all counts. */
  function TotalCount(c: Cart): int
  {
    if c == [] then 0 else c[0].value.count + TotalCount(c[1..])
  }

  /** The price of the cart: the sum of all line totals. */
  function TotalPrice(c: Cart): int
  {
    if c == [] then 0 else LineTotal(c[0].value) + TotalPrice(c[1..])
  }

  /** `n` successive adds of the same product. */
  function AddTimes(c: Cart, p: Product, n: nat): Cart
  {
    if n == 0 then c else Add(AddTimes(c, p, n - 1), p)
  }

  /** The number of copies of the line stored under `k`, 0 when there is none. */
  function StoredCount(c: Cart, k: Product): int
  {
    match Get(c, k)
    case None => 0
    case Some(e) => e.count
  }

  /** The line total of the line stored under `k`, 0 when there is none. */
  function StoredTotal(c: Cart, k: Product): int
  {
    match Get(c, k)
    case None => 0
    case Some(e) => LineTotal(e)
  }

  lemma {:induction false} TotalsAppend(a: Cart, b: Cart)
    ensures TotalCount(a + b) == TotalCount(a) + TotalCount(b)
    ensures TotalPrice(a + b) == TotalPrice(a) + TotalPrice(b)
  {
    if a == [] {
      assert a + b == b;
    } else {
      assert (a + b)[1..] == a[1..] + b;
      TotalsAppend(a[1..], b);
    }
  }

  /** The totals split around position `i`. */
  lemma TotalsAround(c: Cart, i: nat)
    requires i < |c|
    ensures TotalCount(c) == TotalCount(c[..i]) + c[i].value.count + TotalCount(c[i + 1..])
    ensures TotalPrice(c) == TotalPrice(c[..i]) + LineTotal(c[i].value) + TotalPrice(c[i + 1..])
  {
    var rest := [c[i]] + c[i + 1..];
    assert c == c[..i] + rest;
    assert rest[1..] == c[i + 1..];
    TotalsAppend(c[..i], rest);
  }

  /** Storing `v` under `k` changes the totals by the difference between `v` and the line it replaces. */
  lemma SetTotals(c: Cart, k: Product, v: CartEntry)
    ensures TotalCount(Set(c, k, v)) == TotalCount(c) - StoredCount(c, k) + v.count
    ensures TotalPrice(Set(c, k, v)) == TotalPrice(c) - StoredTotal(c, k) + LineTotal(v)
  {
    var r := Set(c, k, v);
    match Find(c, k)
    case Some(i) =>
      assert r == c[i := Slot(k, v)];
      assert r[..i] == c[..i] && r[i + 1..] == c[i + 1..];
      TotalsAround(c, i);
      TotalsAround(r, i);
    case None =>
      TotalsAppend(c, [Slot(k, v)]);
  }

  /** Deleting `k` lowers the totals by exactly the line stored under `k`. */
  lemma DeleteTotals(c: Cart, k: Product)
    ensures TotalCount(Delete(c, k)) == TotalCount(c) - StoredCount(c, k)
    ensures TotalPrice(Delete(c, k)) == TotalPrice(c) - StoredTotal(c, k)
  {
    match Find(c, k)
    case Some(i) =>
      TotalsAround(c, i);
      TotalsAppend(c[..i], c[i + 1..]);
    case None =>
  }

  /** The sum of the line totals of a list of lines, accumulated from first to last. */
  function SumOfLineTotals(es: seq<CartEntry>): int
  {
    if es == [] then 0 else SumOfLineTotals(es[..|es| - 1]) + LineTotal(es[|es| - 1])
  }

  /**
   * The price of the cart is the sum of the line totals over the line items,
   * taken in insertion order.
   */
  lemma {:induction false} PriceIsSumOfLineTotals(c: Cart)
    ensures TotalPrice(c) == SumOfLineTotals(Values(c))
  {
    if c != [] {
      var n := |c| - 1;
      PriceIsSumOfLineTotals(c[..n]);
      assert c[..n] + [c[n]] == c;
      TotalsAppend(c[..n], [c[n]]);
      assert Values(c)[..n] == Values(c[..n]);
    }
  }

  /** One more copy of a line adds its unit price to its line total. */
  lemma LineTotalStep(p: Product, n: int)
    ensures LineTotal(CartEntry(p, n + 1)) == LineTotal(CartEntry(p, n)) + p.price
  {
    assert p.price * (n + 1) == p.price * n + p.price;
  }

  /** In a well-keyed cart, the line found under a key is a line of that product. */
  lemma StoredLineOfKey(c: Cart, k: Product)
    requires WellKeyed(c) && Get(c, k).Some?
    ensures Get(c, k).value == CartEntry(k, Get(c, k).value.count)
  {
    assert Slot(k, Get(c, k).value) in c;
  }

  /** Adding a product adds one pizza and its unit price to the totals. */
  lemma AddTotals(c: Cart, p: Product)
    requires WellKeyed(c)
    ensures TotalCount(Add(c, p)) == TotalCount(c) + 1
    ensures TotalPrice(Add(c, p)) == TotalPrice(c) + p.price
  {
    if Get(c, p).None? {
      AddNewTotals(c, p);
    } else {
      StoredLineOfKey(c, p);
      AddAgainTotals(c, p, Get(c, p).value.count);
    }
  }

  /** Adding a product that is absent appends one line of count 1. */
  lemma AddNewTotals(c: Cart, p: Product)
    requires Get(c, p).None?
    ensures TotalCount(Add(c, p)) == TotalCount(c) + 1
    ensures TotalPrice(Add(c, p)) == TotalPrice(c) + p.price
  {
    var r := c + [Slot(p, CartEntry(p, 1))];
    assert Add(c, p) == r;
    TotalsAppend(c, [Slot(p, CartEntry(p, 1))]);
  }

  /** Adding a product stored with count `n` stores it with count `n + 1`. */
  lemma AddAgainTotals(c: Cart, p: Product, n: int)
    requires Get(c, p) == Some(CartEntry(p, n))
    ensures TotalCount(Add(c, p)) == TotalCount(c) + 1
    ensures TotalPrice(Add(c, p)) == TotalPrice(c) + p.price
  {
    var v := CartEntry(p, n + 1);
    assert Add(c, p) == Set(c, p, v);
    SetTotals(c, p, v);
    LineTotalStep(p, n);
  }

  /**
   * Adding a product `n` times to a cart that lacks it gives one line with
   * count `n`, and raises the totals by `n` pizzas and that line's total.
   */
  lemma {:induction false} AddRepeatedly(c: Cart, p: Product, n: nat)
    requires WellKeyed(c) && Get(c, p).None?
    requires n >= 1
    ensures WellKeyed(AddTimes(c, p, n))
    ensures Get(AddTimes(c, p, n), p) == Some(CartEntry(p, n))
    ensures |AddTimes(c, p, n)| == |c| + 1
    ensures TotalCount(AddTimes(c, p, n)) == TotalCount(c) + n
    ensures TotalPrice(AddTimes(c, p, n)) == TotalPrice(c) + LineTotal(CartEntry(p, n))
  {
    if n == 1 {
      AddNewTotals(c, p);
    } else {
      AddRepeatedly(c, p, n - 1);
      var d := AddTimes(c, p, n - 1);
      assert AddTimes(c, p, n) == Add(d, p);
      assert |Keys(Add(d, p))| == |Keys(d)|;
      AddAgainTotals(d, p, n - 1);
      LineTotalStep(p, n - 1);
    }
  }

  /** From an empty cart, `n` adds of one product count `n` pizzas at `n` times its price. */
  lemma AddToEmpty(p: Product, n: nat)
    ensures TotalCount(AddTimes([], p, n)) == n
    ensures TotalPrice(AddTimes([], p, n)) == LineTotal(CartEntry(p, n))
  {
    if n >= 1 {
      AddRepeatedly([], p, n);
    }
  }

  /** Incrementing a stored line adds one pizza and its unit price to the totals. */
  lemma IncrementTotals(c: Cart, e: CartEntry)
    requires Get(c, KeyOf(e)) == Some(e)
    ensures TotalCount(Increment(c, e)) == TotalCount(c) + 1
    ensures TotalPrice(Increment(c, e)) == TotalPrice(c) + e.product.price
  {
    SetTotals(c, KeyOf(e), CartEntry(e.product, e.count + 1));
    LineTotalStep(e.product, e.count);
  }

  /**
   * Decrementing a stored line above count 1 takes one pizza and its unit
   * price off the totals; at count 1 the totals stay as they are.
   */
  lemma DecrementTotals(c: Cart, e: CartEntry)
    requires Get(c, KeyOf(e)) == Some(e)
    ensures e.count > 1 ==> TotalCount(Decrement(c, e)) == TotalCount(c) - 1
    ensures e.count > 1 ==> TotalPrice(Decrement(c, e)) == TotalPrice(c) - e.product.price
    ensures e.count <= 1 ==> TotalCount(Decrement(c, e)) == TotalCount(c)
    ensures e.count <= 1 ==> TotalPrice(Decrement(c, e)) == TotalPrice(c)
  {
    if e.count > 1 {
      SetTotals(c, KeyOf(e), CartEntry(e.product, e.count - 1));
      LineTotalStep(e.product, e.count - 1);
    }
  }

  /** Removing a line takes exactly that line's pizzas and line total off the totals. */
  lemma RemoveTotals(c: Cart, e: CartEntry)
    ensures TotalCount(Remove(c, e)) == TotalCount(c) - StoredCount(c, KeyOf(e))
    ensures TotalPrice(Remove(c, e)) == TotalPrice(c) - StoredTotal(c, KeyOf(e))
  {
    DeleteTotals(c, KeyOf(e));
  }

  /** With every count at least one, the cart holds at least as many pizzas as lines. */
  lemma {:induction false} CountBound(c: Cart)
    requires CountsPositive(c)
    ensures TotalCount(c) >= |c|
  {
    if c != [] {
      assert c[0] in c;
      assert forall s :: s in c[1..] ==> s in c;
      CountBound(c[1..]);
    }
  }
}
