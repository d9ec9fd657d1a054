/**
 * An insertion-ordered map with the semantics of a JavaScript `Map`: a key
 * occurs at most once, `set` on a present key replaces its value where it
 * stands, `set` on an absent key appends a new pair at the end, and `delete`
 * removes the pair and keeps the order of the others. It is kept as the list
 * of its pairs in insertion order, which is the order `values()` visits.
 */
module CartTable {
  import opened Options

  datatype Slot<K, V> = Slot(key: K, value: V)

  type Table<K, V> = seq<Slot<K, V>>

  /** The keys, in insertion order (`Map.prototype.keys`). */
  function Keys<K, V>(t: Table<K, V>): seq<K>
  {
    seq(|t|, i requires 0 <= i < |t| => t[i].key)
  }

  /** The values, in insertion order (`Map.prototype.values`). */
  function Values<K, V>(t: Table<K, V>): seq<V>
  {
    seq(|t|, i requires 0 <= i < |t| => t[i].value)
  }

  /** The representation invariant of a `Map`: no key occurs twice. */
  ghost predicate DistinctKeys<K, V>(t: Table<K, V>)
  {
    forall i, j :: 0 <= i < j < |t| ==> t[i].key != t[j].key
  }

  /** The position of the first pair whose key is `k`, if any. */
  function Find<K(==), V>(t: Table<K, V>, k: K): (r: Option<nat>)
    ensures r.Some? ==> r.value < |t| && t[r.value].key == k
    ensures r.Some? ==> forall j :: 0 <= j < r.value ==> t[j].key != k
    ensures r.None? ==> forall j :: 0 <= j < |t| ==> t[j].key != k
  {
    if t == [] then None
    else if t[0].key == k then Some(0)
    else match Find(t[1..], k)
      case None => None
      case Some(i) => Some(i + 1)
  }

  /** `Map.prototype.get`: the value stored under `k`, or nothing. */
  function Get<K(==), V>(t: Table<K, V>, k: K): (r: Option<V>)
    ensures r.Some? <==> k in Keys(t)
    ensures r.Some? ==> Slot(k, r.value) in t
  {
    var f := Find(t, k);
    if f.Some? then
      assert Keys(t)[f.value] == k;
      Some(t[f.value].value)
    else
      assert forall j :: 0 <= j < |t| ==> Keys(t)[j] != k;
      None
  }

  /** `Map.prototype.set`: replaces the value of a present key in place, or appends a new pair. */
  function Set<K(==, !new), V>(t: Table<K, V>, k: K, v: V): (r: Table<K, V>)
    ensures Get(r, k) == Some(v)
    ensures forall k' :: k' != k ==> Get(r, k') == Get(t, k')
    ensures Keys(r) == if k in Keys(t) then Keys(t) else Keys(t) + [k]
    ensures DistinctKeys(t) ==> DistinctKeys(r)
    ensures forall s :: s in r ==> s == Slot(k, v) || s in t
  {
    match Find(t, k)
    case Some(i) =>
      var r := t[i := Slot(k, v)];
      assert Keys(r) == Keys(t);
      FindSameKeys(t, r, k);
      forall k' | k' != k ensures Get(r, k') == Get(t, k') {
        FindSameKeys(t, r, k');
      }
      r
    case None =>
      var r := t + [Slot(k, v)];
      assert Keys(r) == Keys(t) + [k];
      FindFirst(r, k, |t|);
      forall k' | k' != k ensures Get(r, k') == Get(t, k') {
        FindAppendOther(t, Slot(k, v), k');
      }
      r
  }

  /** `Map.prototype.delete`: removes the pair of `k`, if present, and keeps the others in order. */
  function Delete<K(==, !new), V>(t: Table<K, V>, k: K): (r: Table<K, V>)
    ensures DistinctKeys(t) ==> DistinctKeys(r) && Get(r, k) == None
    ensures forall k' :: k' != k ==> Get(r, k') == Get(t, k')
    ensures k !in Keys(t) ==> r == t
    ensures k in Keys(t) ==> |r| == |t| - 1
    ensures forall s :: s in r ==> s in t
  {
    match Find(t, k)
    case None => t
    case Some(i) =>
      assert Keys(t)[i] == k;
      var r := t[..i] + t[i + 1..];
      forall k' | k' != k ensures Get(r, k') == Get(t, k') {
        FindSpliceOther(t, i, k');
      }
      r
  }

  /** The pairs of `t` whose key is not `k`, in order: an independent statement of deletion. */
  function Without<K(==), V>(t: Table<K, V>, k: K): Table<K, V>
  {
    if t == [] then []
    else if t[0].key == k then Without(t[1..], k)
    else [t[0]] + Without(t[1..], k)
  }

  /** Find depends only on the keys. */
  lemma FindSameKeys<K, V>(t: Table<K, V>, u: Table<K, V>, k: K)
    requires Keys(t) == Keys(u)
    ensures Find(t, k) == Find(u, k)
  {
    assert |t| == |Keys(t)| == |Keys(u)| == |u|;
    forall j | 0 <= j < |t| ensures t[j].key == u[j].key {
      assert Keys(t)[j] == Keys(u)[j];
    }
    var a, b := Find(t, k), Find(u, k);
    if a.Some? {
      FindFirst(u, k, a.value);
    }
  }

  /** Any first occurrence of `k` is the one Find reports. */
  lemma FindFirst<K, V>(t: Table<K, V>, k: K, i: nat)
    requires i < |t| && t[i].key == k
    requires forall j :: 0 <= j < i ==> t[j].key != k
    ensures Find(t, k) == Some(i)
  {
  }

  /** Appending a pair with another key does not move the first occurrence of `k`. */
  lemma FindAppendOther<K, V>(t: Table<K, V>, s: Slot<K, V>, k: K)
    requires s.key != k
    ensures Find(t + [s], k) == Find(t, k)
  {
    var u := t + [s];
    match Find(t, k)
    case Some(i) => FindFirst(u, k, i);
    case None =>
      assert forall j :: 0 <= j < |u| ==> u[j].key != k;
  }

  /** Splicing out position `i` keeps the value found for every other key. */
  lemma FindSpliceOther<K, V>(t: Table<K, V>, i: nat, k: K)
    requires i < |t| && t[i].key != k
    ensures Get(t[..i] + t[i + 1..], k) == Get(t, k)
  {
    var u := t[..i] + t[i + 1..];
    assert forall j :: 0 <= j < i ==> u[j] == t[j];
    assert forall j :: i <= j < |u| ==> u[j] == t[j + 1];
    match Find(t, k)
    case Some(j) =>
      if j < i {
        FindFirst(u, k, j);
      } else {
        FindFirst(u, k, j - 1);
      }
    case None =>
      assert forall j :: 0 <= j < |u| ==> u[j].key != k;
  }

  lemma {:induction false} WithoutAbsent<K, V>(t: Table<K, V>, k: K)
    requires forall j :: 0 <= j < |t| ==> t[j].key != k
    ensures Without(t, k) == t
  {
    if t != [] {
      WithoutAbsent(t[1..], k);
    }
  }

  /**
   * On a table with distinct keys, deleting `k` leaves exactly the pairs with
   * other keys, in their original relative order.
   */
  lemma {:induction false} DeleteIsWithout<K(!new), V>(t: Table<K, V>, k: K)
    requires DistinctKeys(t)
    ensures Delete(t, k) == Without(t, k)
  {
    if t == [] {
    } else if t[0].key == k {
      DistinctTail(t);
      WithoutAbsent(t[1..], k);
      assert Delete(t, k) == t[1..];
    } else {
      DistinctTail(t);
      DeleteIsWithout(t[1..], k);
      DeleteConsOther(t, k);
    }
  }

  /** The tail of a table with distinct keys has distinct keys, none of them the head's. */
  lemma DistinctTail<K, V>(t: Table<K, V>)
    requires DistinctKeys(t) && t != []
    ensures DistinctKeys(t[1..])
    ensures forall j :: 0 <= j < |t| - 1 ==> t[1..][j].key != t[0].key
  {
    forall i, j | 0 <= i < j < |t| - 1
      ensures t[1..][i].key != t[1..][j].key
    {
      assert t[1..][i] == t[i + 1] && t[1..][j] == t[j + 1];
    }
  }

  /** Deleting a key other than the head's deletes it from the tail. */
  lemma DeleteConsOther<K(!new), V>(t: Table<K, V>, k: K)
    requires t != [] && t[0].key != k
    ensures Delete(t, k) == [t[0]] + Delete(t[1..], k)
  {
    var u := t[1..];
    match Find(u, k)
    case None =>
      assert Find(t, k) == None;
      assert t == [t[0]] + u;
    case Some(i) =>
      assert Find(t, k) == Some(i + 1);
      assert t[..i + 1] + t[i + 2..] == [t[0]] + (u[..i] + u[i + 1..]);
  }
}
