/** The map kept as a vector of pairs in ascending order of their keys. */
module SortedMap {
  import opened Ordered
  import opened Options

  function Keys<K, V>(data: seq<(K, V)>): (keys: seq<K>)
    ensures |keys| == |data|
    ensures forall i :: 0 <= i < |data| ==> keys[i] == data[i].0
  {
    seq(|data|, i requires 0 <= i < |data| => data[i].0)
  }

  /** The pairs are those of the map, each key once. */
  ghost predicate Represents<K(!new), V>(data: seq<(K, V)>, m: map<K, V>) {
    && (forall i :: 0 <= i < |data| ==> data[i].0 in m && m[data[i].0] == data[i].1)
    && (forall k :: k in m ==> k in Keys(data))
  }

  /** Each pair entered in turn unless its key is there already. */
  function Emplaced<K, V>(m: map<K, V>, list: seq<(K, V)>): map<K, V>
    decreases |list|
  {
    if list == [] then m
    else Emplaced(if list[0].0 in m then m else m[list[0].0 := list[0].1], list[1..])
  }

  /** Of several pairs with a key the first one counts, and a key already there keeps its value. */
  lemma {:induction false} FirstWins<K, V>(m: map<K, V>, list: seq<(K, V)>, key: K)
    ensures key in m ==> key in Emplaced(m, list) && Emplaced(m, list)[key] == m[key]
    ensures key !in m ==> forall i :: 0 <= i < |list| && list[i].0 == key && key !in Keys(list[..i]) ==>
              key in Emplaced(m, list) && Emplaced(m, list)[key] == list[i].1
    ensures key in Emplaced(m, list) <==> key in m || key in Keys(list)
    decreases |list|
  {
    if list != [] {
      var m1 := if list[0].0 in m then m else m[list[0].0 := list[0].1];
      FirstWins(m1, list[1..], key);
      assert Keys(list) == [list[0].0] + Keys(list[1..]);
      forall i | 0 <= i < |list| && list[i].0 == key && key !in m && key !in Keys(list[..i])
        ensures key in Emplaced(m, list) && Emplaced(m, list)[key] == list[i].1
      {
        if i > 0 {
          assert Keys(list[..i]) == [list[0].0] + Keys(list[1..][..i - 1]);
        }
      }
    }
  }

  /** The contents of a vector of pairs. */
  function ToMap<K, V>(data: seq<(K, V)>): map<K, V> {
    Emplaced(map[], data)
  }

  ghost predicate Distinct<K>(keys: seq<K>) {
    forall i, j :: 0 <= i < j < |keys| ==> keys[i] != keys[j]
  }

  /** With distinct keys, representing a map is being its list of pairs. */
  lemma RepresentsToMap<K(!new), V>(data: seq<(K, V)>, m: map<K, V>)
    requires Distinct(Keys(data))
    ensures Represents(data, m) <==> m == ToMap(data)
  {
    forall k ensures k in ToMap(data) <==> k in Keys(data) {
      FirstWins(map[], data, k);
    }
    forall i | 0 <= i < |data| ensures data[i].0 in ToMap(data) && ToMap(data)[data[i].0] == data[i].1 {
      FirstWins(map[], data, data[i].0);
      assert Keys(data)[i] == data[i].0;
      assert forall j :: 0 <= j < i ==> Keys(data[..i])[j] == Keys(data)[j];
    }
    if Represents(data, m) {
      assert forall k :: k in m <==> k in ToMap(data);
      forall k | k in m ensures m[k] == ToMap(data)[k] {
        var i :| 0 <= i < |data| && Keys(data)[i] == k;
      }
    }
  }

  ghost predicate Sorted<K(!new), V>(data: seq<(K, V)>, le: (K, K) -> bool) {
    TotalOrder(le) && Ascending(Keys(data), le)
  }

  lemma InsertRepresents<K(!new), V>(data: seq<(K, V)>, le: (K, K) -> bool, key: K, value: V, i: nat)
    requires Sorted(data, le) && FirstNotBelow(Keys(data), le, key, i) && key !in Keys(data)
    ensures
      var data' := data[..i] + [(key, value)] + data[i..];
      Sorted(data', le) && ToMap(data') == ToMap(data)[key := value]
  {
    var data' := data[..i] + [(key, value)] + data[i..];
    InsertKeepsAscending(Keys(data), le, key, i);
    assert Keys(data') == Keys(data)[..i] + [key] + Keys(data)[i..];
    RepresentsToMap(data, ToMap(data));
    RepresentsToMap(data', ToMap(data)[key := value]);
    hide Emplaced, ToMap, TotalOrder, Ascending;
    InsertMaps(data, ToMap(data), key, value, i);
  }

  lemma InsertMaps<K(!new), V>(data: seq<(K, V)>, m: map<K, V>, key: K, value: V, i: nat)
    requires Represents(data, m) && i <= |data| && key !in Keys(data)
    ensures Represents(data[..i] + [(key, value)] + data[i..], m[key := value])
  {
    var data' := data[..i] + [(key, value)] + data[i..];
    forall k | k in m[key := value] ensures k in Keys(data') {
      if k != key {
        var j :| 0 <= j < |data| && Keys(data)[j] == k;
        assert Keys(data')[if j < i then j else j + 1] == k;
      } else {
        assert Keys(data')[i] == k;
      }
    }
    forall j | 0 <= j < |data'| ensures data'[j].0 in m[key := value] && m[key := value][data'[j].0] == data'[j].1 {
      if j != i {
        var x := if j < i then j else j - 1;
        assert data'[j] == data[x] && Keys(data)[x] != key;
      }
    }
  }

  lemma AssignRepresents<K(!new), V>(data: seq<(K, V)>, le: (K, K) -> bool, value: V, i: nat)
    requires Sorted(data, le) && i < |data|
    ensures
      var data' := data[i := (data[i].0, value)];
      Sorted(data', le) && ToMap(data') == ToMap(data)[data[i].0 := value]
  {
    var data' := data[i := (data[i].0, value)];
    assert Keys(data') == Keys(data);
    RepresentsToMap(data, ToMap(data));
    RepresentsToMap(data', ToMap(data)[data[i].0 := value]);
    hide Emplaced, ToMap;
  }

  lemma EraseRepresents<K(!new), V>(data: seq<(K, V)>, le: (K, K) -> bool, i: nat)
    requires Sorted(data, le) && i < |data|
    ensures
      var data' := data[..i] + data[i + 1..];
      Sorted(data', le) && ToMap(data') == ToMap(data) - {data[i].0}
  {
    var data' := data[..i] + data[i + 1..];
    EraseKeepsAscending(Keys(data), le, i);
    assert Keys(data') == Keys(data)[..i] + Keys(data)[i + 1..];
    RepresentsToMap(data, ToMap(data));
    RepresentsToMap(data', ToMap(data) - {data[i].0});
    hide Emplaced, ToMap, TotalOrder;
    EraseMaps(data, ToMap(data), i);
  }

  lemma EraseMaps<K(!new), V>(data: seq<(K, V)>, m: map<K, V>, i: nat)
    requires Represents(data, m) && i < |data| && Distinct(Keys(data))
    ensures Represents(data[..i] + data[i + 1..], m - {data[i].0})
  {
    var data' := data[..i] + data[i + 1..];
    forall k | k in m - {data[i].0} ensures k in Keys(data') {
      var j :| 0 <= j < |data| && Keys(data)[j] == k;
      assert Keys(data')[if j < i then j else j - 1] == k;
    }
    forall j | 0 <= j < |data'|
      ensures data'[j].0 in m - {data[i].0} && (m - {data[i].0})[data'[j].0] == data'[j].1
    {
      var x := if j < i then j else j + 1;
      assert data'[j] == data[x] && Keys(data)[x] != Keys(data)[i];
    }
  }

  /** A map has one sorted form for an order. */
  lemma SortedIsCanonical<K(!new), V>(a: seq<(K, V)>, b: seq<(K, V)>, le: (K, K) -> bool)
    requires Sorted(a, le) && Sorted(b, le) && ToMap(a) == ToMap(b)
    ensures a == b
  {
    RepresentsToMap(a, ToMap(a));
    RepresentsToMap(b, ToMap(b));
    hide Emplaced, ToMap;
    assert forall k :: k in Keys(a) <==> k in ToMap(a);
    assert forall k :: k in Keys(b) <==> k in ToMap(b);
    AscendingIsCanonical(Keys(a), Keys(b), le);
    forall i | 0 <= i < |a| ensures a[i] == b[i] {
      assert Keys(a)[i] == Keys(b)[i];
    }
  }

  class SortedMap<K(==, !new), V> {
    const le: (K, K) -> bool
    var data: seq<(K, V)>

    ghost predicate Valid()
      reads this
    {
      Sorted(data, le)
    }

    ghost function Contents(): map<K, V>
      reads this
    {
      ToMap(data)
    }

    constructor (le: (K, K) -> bool)
      requires TotalOrder(le)
      ensures Valid() && Contents() == map[] && this.le == le
    {
      this.le, data := le, [];
    }

    method FindUpperBound(key: K) returns (it: nat)
      requires Valid()
      ensures FirstNotBelow(Keys(data), le, key, it)
      ensures key in Contents() <==> it < |data| && data[it].0 == key
      ensures key in Contents() <==> key in Keys(data)
      ensures it < |data| && data[it].0 == key ==> Contents()[key] == data[it].1
    {
      var cmp := le;
      assert forall i, j :: 0 <= i < j < |data| ==> le(Keys(data)[i], Keys(data)[j]);
      it := UpperBound(data, key, (k: K, e: (K, V)) => cmp(k, e.0));
      UpperBoundIsLower(Keys(data), le, key, it);
      RepresentsToMap(data, ToMap(data));
    }

    /** The position of the key, or the end. */
    method Find(key: K) returns (it: nat)
      requires Valid()
      ensures it <= |data| && (it < |data| <==> key in Contents())
      ensures it < |data| ==> data[it] == (key, Contents()[key])
    {
      it := FindUpperBound(key);
      if it == |data| || data[it].0 != key {
        it := |data|;
      }
    }

    method Contains(key: K) returns (r: bool)
      requires Valid()
      ensures r <==> key in Contents()
    {
      if data == [] {
        return false;
      }
      var it := Find(key);
      return it != |data|;
    }

    /** `emplace`, `try_emplace` and `insert`: the first value of a key stays. */
    method TryEmplace(key: K, value: V) returns (it: nat, inserted: bool)
      requires Valid()
      modifies this
      ensures Valid() && inserted == (key !in old(Contents()))
      ensures Contents() == if inserted then old(Contents())[key := value] else old(Contents())
      ensures it < |data| && data[it] == (key, Contents()[key])
    {
      it := FindUpperBound(key);
      inserted := it == |data| || data[it].0 != key;
      if inserted {
        InsertRepresents(data, le, key, value, it);
        data := data[..it] + [(key, value)] + data[it..];
      }
    }

    method InsertOrAssign(key: K, value: V) returns (it: nat, inserted: bool)
      requires Valid()
      modifies this
      ensures Valid() && inserted == (key !in old(Contents()))
      ensures Contents() == old(Contents())[key := value]
      ensures it < |data| && data[it] == (key, value)
    {
      it := FindUpperBound(key);
      inserted := it == |data| || data[it].0 != key;
      if inserted {
        InsertRepresents(data, le, key, value, it);
        data := data[..it] + [(key, value)] + data[it..];
      } else {
        AssignRepresents(data, le, value, it);
        data := data[it := (data[it].0, value)];
      }
    }

    method Erase(key: K)
      requires Valid()
      modifies this
      ensures Valid() && Contents() == old(Contents()) - {key}
    {
      var it := Find(key);
      if it != |data| {
        EraseRepresents(data, le, it);
        data := data[..it] + data[it + 1..];
      }
    }

    /** `operator[]`: the value of the key, which is entered with a default one if it is absent. */
    method Index(key: K, blank: V) returns (value: V)
      requires Valid()
      modifies this
      ensures Valid() && key in Contents() && value == Contents()[key]
      ensures Contents() == if key in old(Contents()) then old(Contents()) else old(Contents())[key := blank]
    {
      var it, inserted := TryEmplace(key, blank);
      return data[it].1;
    }

    /** `at`: nothing stands for the exception. */
    method At(key: K) returns (value: Option<V>)
      requires Valid()
      ensures value == if key in Contents() then Some(Contents()[key]) else None
    {
      var it := Find(key);
      if it == |data| {
        return None;
      }
      return Some(data[it].1);
    }

    method InsertAll(list: seq<(K, V)>)
      requires Valid()
      modifies this
      ensures Valid() && Contents() == Emplaced(old(Contents()), list)
    {
      var i := 0;
      assert list[0..] == list;
      while i < |list|
        invariant i <= |list| && Valid()
        invariant Emplaced(Contents(), list[i..]) == Emplaced(old(Contents()), list)
      {
        assert list[i..][0] == list[i] && list[i..][1..] == list[i + 1..];
        var it, inserted := TryEmplace(list[i].0, list[i].1);
        i := i + 1;
      }
      assert list[i..] == [];
    }

    method Save() returns (archive: seq<(K, V)>)
      requires Valid()
      ensures Distinct(Keys(archive)) && ToMap(archive) == Contents()
    {
      return data;
    }

    /** Whatever the archive holds, the result is sorted by this map's order and has the archive's
        pairs, the first of each key. In particular, what a map saved under any other order comes
        back with the same contents. */
    method Load(archive: seq<(K, V)>)
      requires Valid()
      modifies this
      ensures Valid() && Contents() == ToMap(archive)
    {
      data := [];
      InsertAll(archive);
    }
  }
}
