/** The map that also keeps its nodes in a vector, in the order of their insertion until it is sorted. */
module VectorMap {

  /** A node of the map: its key never changes, its value may, through whoever holds the node. */
  class Node<K, V> {
    const key: K
    var value: V

    constructor (key: K, value: V)
      ensures this.key == key && this.value == value
    {
      this.key, this.value := key, value;
    }
  }

  function Keys<K, V>(vec: seq<Node<K, V>>): (keys: seq<K>)
    ensures |keys| == |vec| && forall i :: 0 <= i < |vec| ==> keys[i] == vec[i].key
  {
    seq(|vec|, i requires 0 <= i < |vec| => vec[i].key)
  }

  /** The vector holds the map's nodes, each once. */
  ghost predicate Matches<K, V>(m: map<K, Node<K, V>>, vec: seq<Node<K, V>>) {
    && (forall k :: k in m ==> m[k].key == k && m[k] in vec)
    && (forall i :: 0 <= i < |vec| ==> vec[i].key in m && m[vec[i].key] == vec[i])
    && (forall i, j :: 0 <= i < j < |vec| ==> vec[i].key != vec[j].key)
  }

  /** `std::find` of a node. */
  method FindNode<K, V>(vec: seq<Node<K, V>>, node: Node<K, V>) returns (i: nat)
    requires node in vec
    ensures i < |vec| && vec[i] == node && node !in vec[..i]
  {
    i := 0;
    while vec[i] != node
      invariant i < |vec| && node !in vec[..i]
      invariant node in vec[i..]
      decreases |vec| - i
    {
      i := i + 1;
    }
  }

  lemma EraseMatches<K, V>(m: map<K, Node<K, V>>, vec: seq<Node<K, V>>, i: nat)
    requires Matches(m, vec) && i < |vec|
    ensures Matches(m - {vec[i].key}, vec[..i] + vec[i + 1..])
  {
    var vec' := vec[..i] + vec[i + 1..];
    ErasedAt(vec, i);
    forall k | k in m - {vec[i].key} ensures m[k] in vec' {
      var j :| 0 <= j < |vec| && vec[j] == m[k];
      assert vec'[if j < i then j else j - 1] == m[k];
    }
  }

  lemma ErasedAt<T>(s: seq<T>, i: nat)
    requires i < |s|
    ensures
      var s' := s[..i] + s[i + 1..];
      |s'| == |s| - 1 && forall a :: 0 <= a < |s'| ==> s'[a] == s[if a < i then a else a + 1]
  {
  }

  lemma SameElements<T>(a: seq<T>, b: seq<T>)
    requires multiset(a) == multiset(b)
    ensures forall x :: x in a <==> x in b
  {
    forall x ensures x in a <==> x in b {
      assert x in multiset(a) <==> x in multiset(b);
    }
  }

  /** Any rearrangement of the vector still matches the map. */
  lemma PermutationMatches<K, V>(m: map<K, Node<K, V>>, vec: seq<Node<K, V>>, vec': seq<Node<K, V>>)
    requires Matches(m, vec) && multiset(vec') == multiset(vec)
    ensures Matches(m, vec')
  {
    SameElements(vec, vec');
    assert forall i :: 0 <= i < |vec'| ==> vec'[i] in vec;
    forall i, j | 0 <= i < j < |vec'| ensures vec'[i].key != vec'[j].key {
      if vec'[i].key == vec'[j].key {
        assert vec'[i] == vec'[j] == m[vec'[i].key];
        TwiceIn(vec', i, j);
        OnceIn(vec, vec'[i]);
      }
    }
  }

  lemma TwiceIn<T>(s: seq<T>, i: nat, j: nat)
    requires i < j < |s| && s[i] == s[j]
    ensures multiset(s)[s[i]] >= 2
  {
    assert s == s[..j] + [s[j]] + s[j + 1..];
    assert s[i] == s[..j][i];
    assert s[i] in multiset(s[..j]);
  }

  lemma {:induction false} OnceIn<T>(s: seq<T>, x: T)
    requires forall i, j :: 0 <= i < j < |s| ==> s[i] != s[j]
    ensures multiset(s)[x] <= 1
    decreases |s|
  {
    if s != [] {
      assert s == [s[0]] + s[1..];
      OnceIn(s[1..], x);
      assert s[0] !in s[1..];
    }
  }

  // ---- Sorting -----------------------------------------------------------------------------

  /** A comparison of nodes: it may look at keys and at values. */
  type Comparison<!K, !V> = ((K, V), (K, V)) -> bool

  predicate Before<K, V>(less: Comparison<K, V>, a: Node<K, V>, b: Node<K, V>)
    reads a, b
  {
    less((a.key, a.value), (b.key, b.value))
  }

  /** A strict weak ordering of the nodes at hand, as `std::sort` asks for. */
  ghost predicate WeakOrder<K, V>(vec: seq<Node<K, V>>, less: Comparison<K, V>)
    reads vec
  {
    && (forall a, b :: a in vec && b in vec && Before(less, a, b) ==> !Before(less, b, a))
    && (forall a, b, c :: a in vec && b in vec && c in vec && Before(less, a, c) ==>
          Before(less, a, b) || Before(less, b, c))
  }

  ghost predicate Ordered<K, V>(vec: seq<Node<K, V>>, less: Comparison<K, V>)
    reads vec
  {
    forall i, j :: 0 <= i < j < |vec| ==> !Before(less, vec[j], vec[i])
  }

  function Inserted<K, V>(vec: seq<Node<K, V>>, node: Node<K, V>, less: Comparison<K, V>): seq<Node<K, V>>
    reads vec, node
  {
    if vec == [] || !Before(less, vec[0], node) then [node] + vec
    else [vec[0]] + Inserted(vec[1..], node, less)
  }

  function Sorted<K, V>(vec: seq<Node<K, V>>, less: Comparison<K, V>): (sorted: seq<Node<K, V>>)
    reads vec
    ensures multiset(sorted) == multiset(vec)
  {
    if vec == [] then []
    else
      var rest := Sorted(vec[1..], less);
      SortedElements(vec, rest, less);
      Inserted(rest, vec[0], less)
  }

  lemma {:induction false} InsertedElements<K, V>(vec: seq<Node<K, V>>, node: Node<K, V>, less: Comparison<K, V>)
    ensures multiset(Inserted(vec, node, less)) == multiset(vec) + multiset{node}
    decreases |vec|
  {
    if vec != [] && Before(less, vec[0], node) {
      InsertedElements(vec[1..], node, less);
      assert vec == [vec[0]] + vec[1..];
    }
  }

  lemma SortedElements<K, V>(vec: seq<Node<K, V>>, rest: seq<Node<K, V>>, less: Comparison<K, V>)
    requires vec != [] && multiset(rest) == multiset(vec[1..])
    ensures forall i :: 0 <= i < |rest| ==> rest[i] in vec
    ensures forall x :: x in [vec[0]] + rest ==> x in vec
    ensures multiset(Inserted(rest, vec[0], less)) == multiset(vec)
  {
    assert vec == [vec[0]] + vec[1..];
    InsertedElements(rest, vec[0], less);
    SameElements([vec[0]] + rest, vec);
    hide Inserted;
  }

  lemma WeakOrderOfSome<K, V>(vec: seq<Node<K, V>>, some: seq<Node<K, V>>, less: Comparison<K, V>)
    requires WeakOrder(vec, less) && forall x :: x in some ==> x in vec
    ensures WeakOrder(some, less)
  {
    hide Before;
  }

  lemma {:induction false} InsertedOrdered<K, V>(vec: seq<Node<K, V>>, node: Node<K, V>, less: Comparison<K, V>)
    requires WeakOrder([node] + vec, less) && Ordered(vec, less)
    ensures Ordered(Inserted(vec, node, less), less)
    decreases |vec|
  {
    assert forall x :: x in vec ==> x in [node] + vec;
    if vec != [] && Before(less, vec[0], node) {
      var rest := Inserted(vec[1..], node, less);
      WeakOrderOfSome([node] + vec, [node] + vec[1..], less);
      InsertedOrdered(vec[1..], node, less);
      InsertedElements(vec[1..], node, less);
      hide Inserted;
      forall i | 0 <= i < |rest| ensures !Before(less, rest[i], vec[0]) {
        assert rest[i] in multiset(rest);
        assert node in [node] + vec && vec[0] in [node] + vec;
      }
    }
  }

  lemma {:induction false} SortedOrdered<K, V>(vec: seq<Node<K, V>>, less: Comparison<K, V>)
    requires WeakOrder(vec, less)
    ensures Ordered(Sorted(vec, less), less)
    decreases |vec|
  {
    if vec != [] {
      var rest := Sorted(vec[1..], less);
      WeakOrderOfSome(vec, vec[1..], less);
      SortedOrdered(vec[1..], less);
      SortedElements(vec, rest, less);
      WeakOrderOfSome(vec, [vec[0]] + rest, less);
      InsertedOrdered(rest, vec[0], less);
      assert Sorted(vec, less) == Inserted(rest, vec[0], less);
    }
  }

  // ---- The container -----------------------------------------------------------------------

  class VectorMap<K(==), V> {
    var nodes: map<K, Node<K, V>>
    var vec: seq<Node<K, V>>

    ghost predicate Valid()
      reads this
    {
      Matches(nodes, vec)
    }

    ghost function Contents(): map<K, V>
      reads this, nodes.Values
    {
      map k | k in nodes :: nodes[k].value
    }

    constructor ()
      ensures Valid() && nodes == map[] && vec == []
    {
      nodes, vec := map[], [];
    }

    method Clear()
      modifies this
      ensures Valid() && nodes == map[] && vec == []
    {
      nodes, vec := map[], [];
    }

    /** The first value of a key stays; a new node goes to the end of the vector. */
    method Emplace(key: K, value: V) returns (node: Node<K, V>, inserted: bool)
      requires Valid()
      modifies this
      ensures Valid() && inserted == (key !in old(nodes))
      ensures inserted ==> fresh(node) && node.key == key && node.value == value
      ensures inserted ==> nodes == old(nodes)[key := node] && vec == old(vec) + [node]
      ensures !inserted ==> key in nodes && node == nodes[key] && nodes == old(nodes) && vec == old(vec)
    {
      inserted := key !in nodes;
      if inserted {
        node := new Node(key, value);
        nodes := nodes[key := node];
        vec := vec + [node];
      } else {
        node := nodes[key];
      }
    }

    /** Removes the node of the key from both; the others keep their order. */
    method Erase(key: K) returns (count: nat)
      requires Valid()
      modifies this
      ensures Valid() && nodes == old(nodes) - {key}
      ensures count == if key in old(nodes) then 1 else 0
      ensures count == 0 ==> vec == old(vec)
      ensures count == 1 ==> exists i :: 0 <= i < |old(vec)| && old(vec)[i].key == key
                                && vec == old(vec)[..i] + old(vec)[i + 1..]
    {
      if key !in nodes {
        return 0;
      }
      var i := FindNode(vec, nodes[key]);
      EraseMatches(nodes, vec, i);
      vec := vec[..i] + vec[i + 1..];
      nodes := nodes - {key};
      return 1;
    }

    /** The first `n` entries of the other map have been copied, and no others. */
    ghost predicate Copied(rhs: VectorMap<K, V>, n: nat)
      reads this, rhs, vec, rhs.vec
    {
      n == |vec| <= |rhs.vec|
      && forall j :: 0 <= j < n ==> vec[j].key == rhs.vec[j].key && vec[j].value == rhs.vec[j].value
    }

    lemma NotYetCopied(rhs: VectorMap<K, V>, n: nat)
      requires Valid() && rhs.Valid() && n < |rhs.vec| && Copied(rhs, n)
      ensures rhs.vec[n].key !in nodes
    {
      assert forall j :: 0 <= j < |vec| ==> vec[j].key != rhs.vec[n].key;
    }

    /** One turn of copying. */
    method CopyNext(rhs: VectorMap<K, V>, n: nat)
      requires Valid() && rhs.Valid() && rhs != this && n < |rhs.vec| && Copied(rhs, n)
      modifies this
      ensures Valid() && Copied(rhs, n + 1)
      ensures |vec| == n + 1 && vec[..n] == old(vec) && fresh(vec[n])
    {
      NotYetCopied(rhs, n);
      var node, inserted := Emplace(rhs.vec[n].key, rhs.vec[n].value);
    }

    /** Copying another map, entry by entry in the order of its vector, gives fresh nodes with the same
        keys and values in the same order. Assigning a map to itself empties it, because clearing comes
        first. */
    method Assign(rhs: VectorMap<K, V>)
      requires rhs.Valid()
      modifies this
      ensures Valid()
      ensures rhs == this ==> nodes == map[] && vec == []
      ensures rhs != this ==> Keys(vec) == Keys(rhs.vec)
      ensures rhs != this ==> forall i :: 0 <= i < |vec| ==> fresh(vec[i]) && vec[i].value == rhs.vec[i].value
      ensures rhs != this ==> Contents() == rhs.Contents() == old(rhs.Contents())
    {
      hide Matches;
      Clear();
      for i := 0 to |rhs.vec|
        invariant Valid() && rhs.Valid() && |vec| == i
        invariant rhs == this ==> nodes == map[]
        invariant rhs != this ==> rhs.vec == old(rhs.vec) && rhs.nodes == old(rhs.nodes)
        invariant rhs != this ==> Copied(rhs, i)
        invariant forall j :: 0 <= j < i ==> fresh(vec[j])
      {
        CopyNext(rhs, i);
      }
      if rhs != this {
        SameContents(rhs);
      }
    }

    lemma SameContents(rhs: VectorMap<K, V>)
      requires Valid() && rhs.Valid() && Copied(rhs, |rhs.vec|)
      ensures Keys(vec) == Keys(rhs.vec) && Contents() == rhs.Contents()
    {
      forall k ensures k in nodes <==> k in rhs.nodes {
        if k in nodes {
          var j :| 0 <= j < |vec| && vec[j] == nodes[k];
          assert rhs.vec[j].key == k;
        }
        if k in rhs.nodes {
          var j :| 0 <= j < |rhs.vec| && rhs.vec[j] == rhs.nodes[k];
          assert vec[j].key == k;
        }
      }
      forall k | k in nodes ensures nodes[k].value == rhs.nodes[k].value {
        var j :| 0 <= j < |vec| && vec[j] == nodes[k];
        assert rhs.nodes[k] == rhs.vec[j];
      }
    }

    /** Only the vector is sorted; it stays a rearrangement of the map's nodes. */
    method SortVec(less: Comparison<K, V>)
      requires Valid() && WeakOrder(vec, less)
      modifies this`vec
      ensures Valid() && multiset(vec) == multiset(old(vec)) && Ordered(vec, less)
    {
      SortedOrdered(vec, less);
      PermutationMatches(nodes, vec, Sorted(vec, less));
      vec := Sorted(vec, less);
    }
  }
}
