/** The two-level case-insensitive map an INI file is read into, and what it holds afterwards. */
module IniStore {
  import opened Hash
  import opened IniSyntax
  import RT = IniRoundTrip
  import opened Options

  /** A case-insensitive map. Keys keep the spelling they were first inserted with. */
  datatype Node<V> = Node(key: Str, value: V)
  type IMap<V> = seq<Node<V>>

  type Store = IMap<IMap<Str>>

  /** The entry with an equal key, or the size of the map. */
  function Find<V>(m: IMap<V>, key: Str): (i: nat)
    ensures i <= |m|
    ensures i < |m| ==> IEqual(m[i].key, key)
    ensures forall k :: 0 <= k < i ==> !IEqual(m[k].key, key)
  {
    if m == [] || IEqual(m[0].key, key) then 0 else 1 + Find(m[1..], key)
  }

  /** `try_emplace` of `key` with `value`; the entry is then at index `Find(m, key)`. */
  function Emplaced<V>(m: IMap<V>, key: Str, value: V): IMap<V> {
    if Find(m, key) < |m| then m else m + [Node(key, value)]
  }

  function Added(m: IMap<Str>, name: Str, value: Str): IMap<Str> {
    var j := Find(m, name);
    if j < |m| then m[j := m[j].(value := m[j].value + [NEWLINE] + value)] else m + [Node(name, value)]
  }

  /** One value passed to the handler: stored, or appended after a newline to what is there. */
  function Add(st: Store, e: Entry): Store {
    var st1 := Emplaced(st, e.section, []);
    var i := Find(st, e.section);
    st1[i := st1[i].(value := Added(st1[i].value, e.name, e.value))]
  }

  function AddAll(st: Store, es: seq<Entry>): Store
    decreases |es|
  {
    if es == [] then st else AddAll(Add(st, es[0]), es[1..])
  }

  function ValueOf<V>(m: IMap<V>, key: Str): Option<V> {
    var i := Find(m, key);
    if i < |m| then Some(m[i].value) else None
  }

  function Lookup(st: Store, section: Str, name: Str): Option<Str> {
    match ValueOf(st, section)
    case None => None
    case Some(m) => ValueOf(m, name)
  }

  // ---- The store refines the list of emitted values ----------------------------------------

  predicate Concerns(e: Entry, section: Str, name: Str) {
    IEqual(e.section, section) && IEqual(e.name, name)
  }

  /** The values emitted for a section and name, ignoring case, in input order. */
  function Matching(es: seq<Entry>, section: Str, name: Str): seq<Str> {
    if es == [] then []
    else (if Concerns(es[0], section, name) then [es[0].value] else []) + Matching(es[1..], section, name)
  }

  /** `s` with each of the lines appended after a newline. */
  function Extend(s: Str, lines: seq<Str>): Str
    decreases |lines|
  {
    if lines == [] then s else Extend(s + [NEWLINE] + lines[0], lines[1..])
  }

  /** The lines joined with newlines. */
  function Join(lines: seq<Str>): Str
    requires lines != []
  {
    Extend(lines[0], lines[1..])
  }

  function JoinOnto(was: Option<Str>, lines: seq<Str>): Option<Str> {
    if lines == [] then was
    else match was case None => Some(Join(lines)) case Some(s) => Some(Extend(s, lines))
  }

  /** Replacing or appending one entry affects lookups of equal keys only. */
  lemma FindAfterUpdate<V>(m: IMap<V>, key: Str, node: Node<V>, key': Str)
    requires var i := Find(m, key); IEqual(node.key, key) && (i < |m| ==> node.key == m[i].key)
    ensures
      var i := Find(m, key);
      var m' := if i < |m| then m[i := node] else m + [node];
      ValueOf(m', key') == if IEqual(key, key') then Some(node.value) else ValueOf(m, key')
  {
    hide CFold;
    var i := Find(m, key);
    var m' := if i < |m| then m[i := node] else m + [node];
    var j, j' := Find(m, key'), Find(m', key');
    assert forall k :: 0 <= k < |m| ==> m'[k].key == m[k].key;
    if IEqual(key, key') {
      assert forall k :: 0 <= k < i ==> !IEqual(m'[k].key, key');
      assert IEqual(m'[i].key, key');
      assert j' == i;
    } else {
      assert !IEqual(m'[i].key, key');
      if j < |m| {
        assert IEqual(m'[j].key, key') && forall k :: 0 <= k < j ==> !IEqual(m'[k].key, key');
        assert j' == j && j != i;
      } else {
        assert forall k :: 0 <= k < |m'| ==> !IEqual(m'[k].key, key');
        assert j' == |m'|;
      }
    }
  }

  lemma ValueAfterAdded(m: IMap<Str>, key: Str, value: Str, name: Str)
    ensures ValueOf(Added(m, key, value), name)
         == if IEqual(key, name) then JoinOnto(ValueOf(m, name), [value]) else ValueOf(m, name)
  {
    hide IEqual;
    Reflexive();
    var j := Find(m, key);
    FindAfterUpdate(m, key, if j < |m| then m[j].(value := m[j].value + [NEWLINE] + value) else Node(key, value), name);
    if IEqual(key, name) {
      SameFind(m, key, name);
      ExtendOne(value);
    }
  }

  lemma LookupAfterAdd(st: Store, e: Entry, section: Str, name: Str)
    ensures Lookup(Add(st, e), section, name)
         == if Concerns(e, section, name) then JoinOnto(Lookup(st, section, name), [e.value])
            else Lookup(st, section, name)
  {
    hide IEqual, JoinOnto, Added;
    Reflexive();
    var i := Find(st, e.section);
    var was: IMap<Str> := if i < |st| then st[i].value else [];
    var inner := Added(was, e.name, e.value);
    var outer := if i < |st| then st[i].(value := inner) else Node(e.section, inner);
    assert Add(st, e) == if i < |st| then st[i := outer] else st + [outer];
    FindAfterUpdate(st, e.section, outer, section);
    ValueAfterAdded(was, e.name, e.value, name);
    if IEqual(e.section, section) {
      SameFind(st, e.section, section);
      assert Lookup(st, section, name) == ValueOf(was, name);
    }
  }

  lemma Reflexive()
    ensures forall a :: IEqual(a, a)
  {
  }

  /** Equal keys find the same entry. */
  lemma SameFind<V>(m: IMap<V>, a: Str, b: Str)
    requires IEqual(a, b)
    ensures Find(m, a) == Find(m, b)
  {
    hide CFold;
    assert forall k :: 0 <= k < |m| ==> (IEqual(m[k].key, a) <==> IEqual(m[k].key, b));
  }

  lemma ExtendOne(t: Str)
    ensures forall s :: Extend(s, [t]) == s + [NEWLINE] + t
    ensures Join([t]) == t
  {
    forall s ensures Extend(s, [t]) == s + [NEWLINE] + t {
      assert Extend(s, [t]) == Extend(s + [NEWLINE] + t, []);
    }
  }

  /** Joining puts a line feed between a value and the next, and nothing else. */
  lemma {:induction false} JoinMore(lines: seq<Str>, last: Str)
    ensures Join([last]) == last
    ensures lines != [] ==> Join(lines + [last]) == Join(lines) + [0x0A] + last
  {
    if lines != [] {
      assert (lines + [last])[0] == lines[0] && (lines + [last])[1..] == lines[1..] + [last];
      ExtendMore(lines[0], lines[1..], last);
    }
  }

  lemma {:induction false} ExtendMore(s: Str, lines: seq<Str>, last: Str)
    ensures Extend(s, lines + [last]) == Extend(s, lines) + [0x0A] + last
    decreases |lines|
  {
    if lines == [] {
      assert lines + [last] == [last];
      ExtendOne(last);
    } else {
      assert (lines + [last])[0] == lines[0] && (lines + [last])[1..] == lines[1..] + [last];
      ExtendMore(s + [0x0A] + lines[0], lines[1..], last);
    }
  }

  /** After any sequence of handler calls, looking up a section and name gives the newline-join, in
      input order, of what was there and of all values emitted for them ignoring case. */
  lemma {:induction false} StoreRefinesList(st: Store, es: seq<Entry>, section: Str, name: Str)
    ensures Lookup(AddAll(st, es), section, name)
         == JoinOnto(Lookup(st, section, name), Matching(es, section, name))
    decreases |es|
  {
    hide Lookup, Add, Concerns;
    if es != [] {
      LookupAfterAdd(st, es[0], section, name);
      StoreRefinesList(Add(st, es[0]), es[1..], section, name);
      var more := Matching(es[1..], section, name);
      ExtendOne(es[0].value);
      if Concerns(es[0], section, name) {
        assert Matching(es, section, name)[1..] == more;
        assert more == [] ==> Matching(es, section, name) == [es[0].value];
      } else {
        assert [] + more == more;
      }
    }
  }

  /** Reading into an empty store: the join of the matching values, and nothing exactly when no
      value matches. */
  lemma {:induction false} LookupAfterParse(lines: seq<Str>, section: Str, name: Str)
    ensures
      var values := Matching(Parse(START, lines).out, section, name);
      Lookup(AddAll([], Parse(START, lines).out), section, name) == if values == [] then None else Some(Join(values))
  {
    hide Parse, Join, Matching;
    StoreRefinesList([], Parse(START, lines).out, section, name);
  }

  // ---- A printed document reads back -------------------------------------------------------

  lemma {:induction false} MatchingAppend(a: seq<Entry>, b: seq<Entry>, section: Str, name: Str)
    ensures Matching(a + b, section, name) == Matching(a, section, name) + Matching(b, section, name)
    decreases |a|
  {
    hide Concerns;
    if a == [] {
      assert a + b == b;
    } else {
      assert (a + b)[1..] == a[1..] + b;
      MatchingAppend(a[1..], b, section, name);
    }
  }

  lemma {:induction false} MatchingLines(s: Str, n: Str, lines: seq<Str>, section: Str, name: Str)
    ensures Matching(RT.LineEntries(s, n, lines), section, name)
         == if IEqual(s, section) && IEqual(n, name) then lines else []
    decreases |lines|
  {
    hide IEqual;
    if lines != [] {
      var es := RT.LineEntries(s, n, lines);
      assert es[0] == Entry(s, n, lines[0]) && es[1..] == RT.LineEntries(s, n, lines[1..]);
      MatchingLines(s, n, lines[1..], section, name);
      assert [lines[0]] + lines[1..] == lines;
    }
  }

  function ItemLines(item: RT.Item): seq<Str> {
    [item.first] + item.more
  }

  lemma MatchingItem(s: Str, item: RT.Item, section: Str, name: Str)
    ensures Matching([Entry(s, item.name, item.first)] + RT.LineEntries(s, item.name, item.more), section, name)
         == if IEqual(s, section) && IEqual(item.name, name) then ItemLines(item) else []
  {
    assert RT.LineEntries(s, item.name, ItemLines(item))
        == [Entry(s, item.name, item.first)] + RT.LineEntries(s, item.name, item.more) by {
      assert ItemLines(item)[1..] == item.more;
    }
    MatchingLines(s, item.name, ItemLines(item), section, name);
  }

  /** Items whose names differ from `name`, or whose section differs, contribute nothing. */
  lemma {:induction false} MatchingOthers(s: Str, items: seq<RT.Item>, section: Str, name: Str)
    requires forall i :: 0 <= i < |items| ==> !(IEqual(s, section) && IEqual(items[i].name, name))
    ensures Matching(RT.ItemEntries(s, items), section, name) == []
    decreases |items|
  {
    hide IEqual;
    if items != [] {
      MatchingItem(s, items[0], section, name);
      MatchingOthers(s, items[1..], section, name);
      MatchingAppend([Entry(s, items[0].name, items[0].first)] + RT.LineEntries(s, items[0].name, items[0].more),
                     RT.ItemEntries(s, items[1..]), section, name);
    }
  }

  predicate DistinctNames(items: seq<RT.Item>) {
    forall i, j :: 0 <= i < j < |items| ==>
      !IEqual(items[j].name, items[i].name) && !IEqual(items[i].name, items[j].name)
  }

  predicate DistinctSections(doc: RT.Document) {
    forall i, j :: 0 <= i < j < |doc| ==>
      !IEqual(doc[j].section, doc[i].section) && !IEqual(doc[i].section, doc[j].section)
  }

  lemma {:induction false} MatchingItems(s: Str, items: seq<RT.Item>, i: nat)
    requires i < |items| && DistinctNames(items)
    ensures Matching(RT.ItemEntries(s, items), s, items[i].name) == ItemLines(items[i])
    decreases |items|
  {
    hide IEqual;
    Reflexive();
    MatchingItem(s, items[0], s, items[i].name);
    MatchingAppend([Entry(s, items[0].name, items[0].first)] + RT.LineEntries(s, items[0].name, items[0].more),
                   RT.ItemEntries(s, items[1..]), s, items[i].name);
    if i == 0 {
      MatchingOthers(s, items[1..], s, items[0].name);
    } else {
      MatchingItems(s, items[1..], i - 1);
    }
  }

  lemma {:induction false} MatchingOtherBlocks(doc: RT.Document, section: Str, name: Str)
    requires forall k :: 0 <= k < |doc| ==> !IEqual(doc[k].section, section)
    ensures Matching(RT.Entries(doc), section, name) == []
    decreases |doc|
  {
    hide IEqual;
    if doc != [] {
      MatchingOthers(doc[0].section, doc[0].items, section, name);
      MatchingOtherBlocks(doc[1..], section, name);
      MatchingAppend(RT.ItemEntries(doc[0].section, doc[0].items), RT.Entries(doc[1..]), section, name);
    }
  }

  lemma {:induction false} MatchingDocument(doc: RT.Document, k: nat, i: nat)
    requires k < |doc| && i < |doc[k].items| && DistinctSections(doc) && DistinctNames(doc[k].items)
    ensures Matching(RT.Entries(doc), doc[k].section, doc[k].items[i].name) == ItemLines(doc[k].items[i])
    decreases |doc|
  {
    hide IEqual, DistinctNames;
    var s, n := doc[k].section, doc[k].items[i].name;
    MatchingAppend(RT.ItemEntries(doc[0].section, doc[0].items), RT.Entries(doc[1..]), s, n);
    if k == 0 {
      MatchingItems(s, doc[0].items, i);
      MatchingOtherBlocks(doc[1..], s, n);
    } else {
      MatchingOthers(doc[0].section, doc[0].items, s, n);
      MatchingDocument(doc[1..], k - 1, i);
    }
  }

  /** Round trip: parsing a printed well-formed document reports no error and emits exactly its
      entries; where sections and names are distinct ignoring case, looking one up gives its
      original value, the lines joined with newlines. */
  lemma {:induction false} PrintedDocumentReadsBack(doc: RT.Document)
    requires RT.Good(doc)
    ensures Parse(START, RT.Print(doc)).error == 0
    ensures Parse(START, RT.Print(doc)).out == RT.Entries(doc)
    ensures DistinctSections(doc) ==>
      forall k: nat, i: nat :: k < |doc| && i < |doc[k].items| && DistinctNames(doc[k].items) ==>
        Lookup(AddAll([], Parse(START, RT.Print(doc)).out), doc[k].section, doc[k].items[i].name)
        == Some(Join(ItemLines(doc[k].items[i])))
  {
    hide RT.Good, RT.Print, RT.Entries, Parse, Lookup, AddAll, Join, DistinctNames, DistinctSections, Matching;
    RT.ParsePrinted(START, doc);
    assert START.out + RT.Entries(doc) == RT.Entries(doc);
    if DistinctSections(doc) {
      forall k: nat, i: nat | k < |doc| && i < |doc[k].items| && DistinctNames(doc[k].items)
        ensures Lookup(AddAll([], RT.Entries(doc)), doc[k].section, doc[k].items[i].name)
             == Some(Join(ItemLines(doc[k].items[i])))
      {
        MatchingDocument(doc, k, i);
        LookupAfterParse(RT.Print(doc), doc[k].section, doc[k].items[i].name);
      }
    }
  }
}
