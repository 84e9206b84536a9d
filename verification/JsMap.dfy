// A JavaScript Map: keys in insertion order. Setting a key that is there keeps its place; deleting
// and setting it again moves it to the end.
module JsMap {
  import opened Common

  datatype Map<K(==,!new), V> = Map(order: seq<K>, vals: map<K, V>) {

    ghost predicate Valid() {
      && Distinct(order)
      && (forall k :: k in order <==> k in vals)
    }

    function Set(k: K, v: V): (m: Map<K, V>)
      requires Valid()
      ensures m.Valid()
      ensures m.vals == vals[k := v]
      ensures m.order == if k in vals then order else order + [k]
    {
      Map(if k in vals then order else order + [k], vals[k := v])
    }

    function Delete(k: K): (m: Map<K, V>)
      requires Valid()
      ensures m.Valid()
      ensures m.vals == vals - {k}
      ensures m.order == Without(order, k)
    {
      WithoutMembers(order, k);
      WithoutDistinct(order, k);
      Map(Without(order, k), vals - {k})
    }
  }

  function Empty<K(==,!new), V>(): (m: Map<K, V>)
    ensures m.Valid()
  {
    Map([], map[])
  }

  // The sequence with every occurrence of k removed.
  function Without<K(==)>(order: seq<K>, k: K): seq<K> {
    if order == [] then []
    else (if order[0] == k then [] else [order[0]]) + Without(order[1..], k)
  }

  lemma {:induction false} WithoutMembers<K>(order: seq<K>, k: K)
    ensures forall i :: 0 <= i < |Without(order, k)| ==> Without(order, k)[i] in order && Without(order, k)[i] != k
    ensures forall i :: 0 <= i < |order| && order[i] != k ==> order[i] in Without(order, k)
  {
    if order != [] {
      WithoutMembers(order[1..], k);
    }
  }

  lemma {:induction false} WithoutDistinct<K(!new)>(order: seq<K>, k: K)
    requires Distinct(order)
    ensures Distinct(Without(order, k))
  {
    if order != [] {
      assert Distinct(order[1..]);
      WithoutDistinct(order[1..], k);
      WithoutMembers(order[1..], k);
    }
  }

  lemma ConcatIsAssociative<K>(a: seq<K>, b: seq<K>, c: seq<K>)
    ensures a + (b + c) == (a + b) + c
  {
  }

  lemma WithoutOfCons<K>(x: K, rest: seq<K>, k: K)
    ensures Without([x] + rest, k) == (if x == k then [] else [x]) + Without(rest, k)
  {
    assert ([x] + rest)[1..] == rest;
  }

  lemma {:induction false} WithoutConcat<K>(a: seq<K>, b: seq<K>, k: K)
    ensures Without(a + b, k) == Without(a, k) + Without(b, k)
  {
    if a == [] {
      assert a + b == b;
    } else {
      WithoutConcat(a[1..], b, k);
      WithoutOfCons(a[0], a[1..], k);
      WithoutOfCons(a[0], a[1..] + b, k);
      hide Without;
      ConcatIsAssociative([a[0]], a[1..], b);
      assert [a[0]] + a[1..] == a;
      ConcatIsAssociative(if a[0] == k then [] else [a[0]], Without(a[1..], k), Without(b, k));
    }
  }

  lemma {:induction false} WithoutAbsent<K>(order: seq<K>, k: K)
    requires k !in order
    ensures Without(order, k) == order
  {
    if order != [] {
      WithoutAbsent(order[1..], k);
    }
  }
}
