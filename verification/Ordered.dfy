/** Orders on keys, and the binary search every sorted container rests on. */
module Ordered {

  /** A comparison in the manner of `less_equal`: two keys that compare both ways are the same key. */
  ghost predicate TotalOrder<K(!new)>(le: (K, K) -> bool) {
    && (forall a, b :: le(a, b) || le(b, a))
    && (forall a, b :: le(a, b) && le(b, a) ==> a == b)
    && (forall a, b, c :: le(a, b) && le(b, c) ==> le(a, c))
  }

  ghost predicate Ascending<K(!new)>(keys: seq<K>, le: (K, K) -> bool) {
    forall i, j :: 0 <= i < j < |keys| ==> le(keys[i], keys[j]) && keys[i] != keys[j]
  }

  /** Binary search as `std::upper_bound` runs it: for elements none of which satisfy `comp(key, _)`
      followed by elements all of which do, where the latter begin. */
  method UpperBound<K, E>(data: seq<E>, key: K, comp: (K, E) -> bool) returns (first: nat)
    requires forall i, j :: 0 <= i < j < |data| && comp(key, data[i]) ==> comp(key, data[j])
    ensures first <= |data|
    ensures forall i :: 0 <= i < first ==> !comp(key, data[i])
    ensures forall i :: first <= i < |data| ==> comp(key, data[i])
  {
    first := 0;
    var count := |data|;
    while 0 < count
      invariant 0 <= count <= first + count <= |data|
      invariant forall i :: 0 <= i < first ==> !comp(key, data[i])
      invariant forall i :: first + count <= i < |data| ==> comp(key, data[i])
    {
      var half := count / 2;
      var mid := first + half;
      if comp(key, data[mid]) {
        count := half;
      } else {
        first, count := mid + 1, count - half - 1;
      }
    }
  }

  /** `i` is where `key` is among the ascending keys, or where it would have to go: the first key not
      below it stands there. */
  ghost predicate FirstNotBelow<K(!new)>(keys: seq<K>, le: (K, K) -> bool, key: K, i: nat) {
    && i <= |keys|
    && (forall j :: 0 <= j < i ==> le(keys[j], key) && keys[j] != key)
    && (forall j :: i <= j < |keys| ==> le(key, keys[j]))
  }

  /** With `less_equal` for comparison, `upper_bound` of ascending keys is the first key not below:
      the only place where the key can be. */
  lemma UpperBoundIsLower<K(!new)>(keys: seq<K>, le: (K, K) -> bool, key: K, i: nat)
    requires TotalOrder(le) && Ascending(keys, le) && i <= |keys|
    requires forall j :: 0 <= j < i ==> !le(key, keys[j])
    requires forall j :: i <= j < |keys| ==> le(key, keys[j])
    ensures FirstNotBelow(keys, le, key, i)
    ensures key in keys <==> i < |keys| && keys[i] == key
    ensures forall j :: 0 <= j < |keys| && keys[j] == key ==> j == i
  {
    assert forall j :: i < j < |keys| ==> le(keys[i], keys[j]) && keys[i] != keys[j];
  }

  /** Inserting an absent key there keeps the keys ascending. */
  lemma InsertKeepsAscending<K(!new)>(keys: seq<K>, le: (K, K) -> bool, key: K, i: nat)
    requires TotalOrder(le) && Ascending(keys, le) && FirstNotBelow(keys, le, key, i) && key !in keys
    ensures Ascending(keys[..i] + [key] + keys[i..], le)
  {
    var r := keys[..i] + [key] + keys[i..];
    forall a, b | 0 <= a < b < |r| ensures le(r[a], r[b]) && r[a] != r[b] {
      var x, y := if a < i then a else a - 1, if b < i then b else b - 1;
      assert a != i ==> r[a] == keys[x];
      assert b != i ==> r[b] == keys[y];
    }
  }

  lemma EraseKeepsAscending<K(!new)>(keys: seq<K>, le: (K, K) -> bool, i: nat)
    requires Ascending(keys, le) && i < |keys|
    ensures Ascending(keys[..i] + keys[i + 1..], le)
  {
    var r := keys[..i] + keys[i + 1..];
    forall a, b | 0 <= a < b < |r| ensures le(r[a], r[b]) && r[a] != r[b] {
      assert r[a] == keys[if a < i then a else a + 1] && r[b] == keys[if b < i then b else b + 1];
    }
  }

  /** The elements determine the ascending sequence: equal sets of keys are stored alike. */
  lemma {:induction false} AscendingIsCanonical<K(!new)>(a: seq<K>, b: seq<K>, le: (K, K) -> bool)
    requires TotalOrder(le) && Ascending(a, le) && Ascending(b, le)
    requires forall k :: k in a <==> k in b
    ensures a == b
    decreases |a|
  {
    if a == [] {
      assert forall i :: 0 <= i < |b| ==> b[i] in a;
    } else {
      assert a[0] in b && b[0] in a;
      assert le(a[0], b[0]) && le(b[0], a[0]);
      forall k ensures k in a[1..] <==> k in b[1..] {
        assert k in a <==> k == a[0] || k in a[1..];
        assert k in b <==> k == b[0] || k in b[1..];
      }
      AscendingIsCanonical(a[1..], b[1..], le);
    }
  }
}
