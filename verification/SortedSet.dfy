/** The set kept as a vector of keys in ascending order. */
module SortedSet {
  import opened Ordered

  ghost function Elements<K>(data: seq<K>): set<K> {
    set k | k in data
  }

  lemma InsertElements<K(!new)>(data: seq<K>, key: K, i: nat)
    requires i <= |data|
    ensures Elements(data[..i] + [key] + data[i..]) == Elements(data) + {key}
  {
    assert data == data[..i] + data[i..];
  }

  lemma EraseElements<K(!new)>(data: seq<K>, le: (K, K) -> bool, i: nat)
    requires Ascending(data, le) && i < |data|
    ensures Elements(data[..i] + data[i + 1..]) == Elements(data) - {data[i]}
  {
    var data' := data[..i] + data[i + 1..];
    forall k ensures k in data' <==> k in data && k != data[i] {
      if k in data && k != data[i] {
        var j :| 0 <= j < |data| && data[j] == k;
        assert data'[if j < i then j else j - 1] == k;
      }
      if k in data' {
        var j :| 0 <= j < |data'| && data'[j] == k;
        assert data[if j < i then j else j + 1] == k;
      }
    }
  }

  class SortedSet<K(==, !new)> {
    const le: (K, K) -> bool
    var data: seq<K>

    ghost predicate Valid()
      reads this
    {
      TotalOrder(le) && Ascending(data, le)
    }

    ghost function Contents(): set<K>
      reads this
    {
      Elements(data)
    }

    constructor (le: (K, K) -> bool)
      requires TotalOrder(le)
      ensures Valid() && Contents() == {} && this.le == le
    {
      this.le, data := le, [];
    }

    method FindUpperBound(key: K) returns (it: nat)
      requires Valid()
      ensures FirstNotBelow(data, le, key, it)
      ensures key in data <==> it < |data| && data[it] == key
    {
      assert forall i, j :: 0 <= i < j < |data| ==> le(data[i], data[j]);
      it := UpperBound(data, key, le);
      UpperBoundIsLower(data, le, key, it);
    }

    /** The position of the key, or the end. */
    method Find(key: K) returns (it: nat)
      requires Valid()
      ensures it <= |data| && (it < |data| <==> key in Contents())
      ensures it < |data| ==> data[it] == key
    {
      it := FindUpperBound(key);
      if it == |data| || data[it] != key {
        it := |data|;
      }
    }

    method Contains(key: K) returns (r: bool)
      requires Valid()
      ensures r <==> key in Contents()
    {
      if data == [] {
        return false;
      }
      var it := Find(key);
      return it != |data|;
    }

    method Emplace(key: K) returns (it: nat, inserted: bool)
      requires Valid()
      modifies this
      ensures Valid() && inserted == (key !in old(Contents())) && Contents() == old(Contents()) + {key}
      ensures it < |data| && data[it] == key
    {
      it := FindUpperBound(key);
      inserted := it == |data| || data[it] != key;
      if inserted {
        InsertKeepsAscending(data, le, key, it);
        InsertElements(data, key, it);
        data := data[..it] + [key] + data[it..];
      }
    }

    method Erase(key: K)
      requires Valid()
      modifies this
      ensures Valid() && Contents() == old(Contents()) - {key}
    {
      var it := Find(key);
      if it != |data| {
        EraseKeepsAscending(data, le, it);
        EraseElements(data, le, it);
        data := data[..it] + data[it + 1..];
      }
    }

    method InsertAll(list: seq<K>)
      requires Valid()
      modifies this
      ensures Valid() && Contents() == old(Contents()) + Elements(list)
    {
      var i := 0;
      while i < |list|
        invariant i <= |list| && Valid()
        invariant Contents() == old(Contents()) + Elements(list[..i])
      {
        InsertElements(list[..i], list[i], i);
        assert list[..i + 1] == list[..i][..i] + [list[i]] + list[..i][i..];
        var it, inserted := Emplace(list[i]);
        i := i + 1;
      }
      assert list[..i] == list;
    }

    method Save() returns (archive: seq<K>)
      requires Valid()
      ensures Elements(archive) == Contents() && |archive| == |data|
    {
      return data;
    }

    /** Whatever the archive holds, for instance what a set saved under another order, the result has
        its elements, each once, in this set's order. */
    method Load(archive: seq<K>)
      requires Valid()
      modifies this
      ensures Valid() && Contents() == Elements(archive)
    {
      data := [];
      InsertAll(archive);
    }
  }
}
