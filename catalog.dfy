/**
 * The product catalog: pizzas as the catalog service delivers them, the sort
 * criteria the store understands, and the in-place sort it runs on the
 * product list.
 */
module Catalog {
  import opened Options

  /**
   * A pizza as delivered by the catalog service. Prices and ratings are
   * whole numbers here.
   */
  datatype Product = Product(
    id: int,
    imageUrl: string,
    name: string,
    types: seq<int>,
    sizes: seq<int>,
    price: int,
    category: int,
    rating: int)

  /** The payload of a sort request: the criterion's name and an opaque UI id. */
  datatype SortItem = SortItem(sortBy: string, id: int)

  /** The active sort selection kept in the store (`state.sortBy`). */
  datatype SortSelection = SortSelection(name: string, id: int)

  /** The criteria the store sorts by. */
  datatype Criterion = ByRating | ByName | ByPrice

  /** The criterion a sort request names, or nothing for a name the store does not know. */
  function CriterionOf(name: string): Option<Criterion>
  {
    if name == "rating" then Some(ByRating)
    else if name == "name" then Some(ByName)
    else if name == "price" then Some(ByPrice)
    else None
  }

  /**
   * The order on names: lexicographic by character code. It stands for the
   * locale collation of `String.prototype.localeCompare`.
   */
  predicate NameLeq(a: string, b: string)
  {
    if a == [] then true
    else if b == [] then false
    else if a[0] != b[0] then a[0] < b[0]
    else NameLeq(a[1..], b[1..])
  }

  /** `a` may stand before `b` when sorting ascending by `c`: the comparator returns at most 0. */
  predicate Leq(c: Criterion, a: Product, b: Product)
  {
    match c
    case ByRating => a.rating <= b.rating
    case ByName => NameLeq(a.name, b.name)
    case ByPrice => a.price <= b.price
  }

  /** The list is in ascending order by `c`. */
  ghost predicate SortedBy(c: Criterion, s: seq<Product>)
  {
    forall i, j :: 0 <= i < j < |s| ==> Leq(c, s[i], s[j])
  }

  lemma {:induction false} NameLeqTotal(a: string, b: string)
    ensures NameLeq(a, b) || NameLeq(b, a)
  {
    if a != [] && b != [] && a[0] == b[0] {
      NameLeqTotal(a[1..], b[1..]);
    }
  }

  lemma {:induction false} NameLeqTransitive(a: string, b: string, d: string)
    requires NameLeq(a, b) && NameLeq(b, d)
    ensures NameLeq(a, d)
  {
    if a != [] && b != [] && d != [] && a[0] == b[0] == d[0] {
      NameLeqTransitive(a[1..], b[1..], d[1..]);
    }
  }

  lemma {:induction false} NameLeqAntisymmetric(a: string, b: string)
    requires NameLeq(a, b) && NameLeq(b, a)
    ensures a == b
  {
    if a != [] && b != [] {
      NameLeqAntisymmetric(a[1..], b[1..]);
      assert a == [a[0]] + a[1..];
      assert b == [b[0]] + b[1..];
    }
  }

  /** Every criterion orders any two products one way or the other. */
  lemma LeqTotal(c: Criterion, a: Product, b: Product)
    ensures Leq(c, a, b) || Leq(c, b, a)
  {
    if c == ByName {
      NameLeqTotal(a.name, b.name);
    }
  }

  lemma LeqTransitive(c: Criterion, a: Product, b: Product, d: Product)
    requires Leq(c, a, b) && Leq(c, b, d)
    ensures Leq(c, a, d)
  {
    if c == ByName {
      NameLeqTransitive(a.name, b.name, d.name);
    }
  }

  /**
   * `Array.prototype.sort` with the comparator of criterion `c`, in place:
   * afterwards the array holds the same products, in ascending order.
   */
  method SortPizzas(a: array<Product>, c: Criterion)
    modifies a
    ensures SortedBy(c, a[..])
    ensures multiset(a[..]) == multiset(old(a[..]))
  {
    var i := 0;
    while i < a.Length
      invariant 0 <= i <= a.Length
      invariant forall k, m :: 0 <= k < m < i ==> Leq(c, a[k], a[m])
      invariant multiset(a[..]) == multiset(old(a[..]))
    {
      InsertAt(a, c, i);
      i := i + 1;
    }
  }

  /** One step of insertion sort: moves `a[i]` down into the sorted prefix `a[..i]`. */
  method InsertAt(a: array<Product>, c: Criterion, i: nat)
    requires i < a.Length
    requires forall k, m :: 0 <= k < m < i ==> Leq(c, a[k], a[m])
    modifies a
    ensures forall k, m :: 0 <= k < m <= i ==> Leq(c, a[k], a[m])
    ensures multiset(a[..]) == multiset(old(a[..]))
  {
    var j := i;
    while j > 0 && !Leq(c, a[j - 1], a[j])
      invariant 0 <= j <= i
      invariant forall k, m :: 0 <= k < m <= i && k != j && m != j ==> Leq(c, a[k], a[m])
      invariant forall m :: j < m <= i ==> Leq(c, a[j], a[m])
      invariant multiset(a[..]) == multiset(old(a[..]))
    {
      LeqTotal(c, a[j - 1], a[j]);
      SwapAdjacent(a, j);
      j := j - 1;
    }
    forall k, m | 0 <= k < m <= i
      ensures Leq(c, a[k], a[m])
    {
      if m == j && k < j - 1 {
        LeqTransitive(c, a[k], a[j - 1], a[j]);
      }
    }
  }

  /** Exchanges `a[j - 1]` and `a[j]`. */
  method SwapAdjacent(a: array<Product>, j: nat)
    requires 0 < j < a.Length
    modifies a
    ensures a[j - 1] == old(a[j]) && a[j] == old(a[j - 1])
    ensures forall k :: 0 <= k < a.Length && k != j - 1 && k != j ==> a[k] == old(a[k])
    ensures multiset(a[..]) == multiset(old(a[..]))
  {
    a[j - 1], a[j] := a[j], a[j - 1];
  }
}
