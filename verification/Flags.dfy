/** Sets of flags as text: the names joined with `|`, printed and parsed back. */
module Flags {
  import opened Words
  import opened Options

  /** A flag of an enumeration: its name, and the position of its single bit. */
  datatype Flag = Flag(name: string, bit: nat)

  predicate GoodName(s: string) {
    s != "" && '|' !in s
  }

  /** The flags of an enumeration in the order of their values. */
  predicate Declared(fs: seq<Flag>) {
    && (forall i :: 0 <= i < |fs| ==> fs[i].bit < WIDTH && GoodName(fs[i].name))
    && (forall i, j :: 0 <= i < j < |fs| ==> fs[i].bit < fs[j].bit && fs[i].name != fs[j].name)
  }

  /** Collects the single-bit values that have a name. `named` is what the compiler reflects: the
      names of the enumerators by value, each name standing for one value. */
  method Values(named: map<Word, string>, width: nat) returns (fs: seq<Flag>)
    requires width <= WIDTH
    requires forall v :: v in named ==> GoodName(named[v])
    requires forall v, w :: v in named && w in named && v != w ==> named[v] != named[w]
    ensures Declared(fs)
    ensures forall i :: 0 <= i < |fs| ==> fs[i].bit < width && {fs[i].bit} in named && named[{fs[i].bit}] == fs[i].name
    ensures forall b: nat :: b < width && {b} in named ==> exists i :: 0 <= i < |fs| && fs[i].bit == b
  {
    hide GoodName;
    fs := [];
    for b := 0 to width
      invariant forall i :: 0 <= i < |fs| ==>
                  fs[i].bit < b && {fs[i].bit} in named && named[{fs[i].bit}] == fs[i].name
      invariant forall i, j :: 0 <= i < j < |fs| ==> fs[i].bit < fs[j].bit && fs[i].name != fs[j].name
      invariant forall c: nat :: c < b && {c} in named ==> exists i :: 0 <= i < |fs| && fs[i].bit == c
    {
      if {b} in named {
        ghost var was := fs;
        forall i | 0 <= i < |fs| ensures fs[i].name != named[{b}] {
          assert b !in {fs[i].bit};
        }
        fs := fs + [Flag(named[{b}], b)];
        assert fs[|was|].bit == b;
        assert forall i :: 0 <= i < |was| ==> fs[i] == was[i];
      }
    }
  }

  // ---- Lists of flags ----------------------------------------------------------------------

  predicate Within(fs: seq<Flag>, idx: seq<nat>) {
    forall k :: 0 <= k < |idx| ==> idx[k] < |fs|
  }

  function Value(fs: seq<Flag>, i: nat): Word
    requires Declared(fs) && i < |fs|
  {
    {fs[i].bit}
  }

  /** The union of the listed flags. */
  function UnionOf(fs: seq<Flag>, idx: seq<nat>): Word
    requires Declared(fs) && Within(fs, idx)
  {
    if idx == [] then {} else UnionOf(fs, idx[..|idx| - 1]) + Value(fs, idx[|idx| - 1])
  }

  /** The names of the listed flags, joined. */
  function Join(fs: seq<Flag>, idx: seq<nat>): string
    requires Within(fs, idx)
  {
    if idx == [] then ""
    else if |idx| == 1 then fs[idx[0]].name
    else Join(fs, idx[..|idx| - 1]) + "|" + fs[idx[|idx| - 1]].name
  }

  lemma {:induction false} JoinFront(fs: seq<Flag>, i: nat, rest: seq<nat>)
    requires Declared(fs) && i < |fs| && Within(fs, rest) && rest != []
    ensures Within(fs, [i] + rest) && Join(fs, [i] + rest) == fs[i].name + "|" + Join(fs, rest)
    decreases |rest|
  {
    hide Declared;
    var all := [i] + rest;
    assert all[|all| - 1] == rest[|rest| - 1] && all[..|all| - 1] == [i] + rest[..|rest| - 1];
    if |rest| > 1 {
      JoinFront(fs, i, rest[..|rest| - 1]);
    }
  }

  /** The union holds the bits of the listed flags, whatever their order and however often listed. */
  lemma {:induction false} UnionHolds(fs: seq<Flag>, idx: seq<nat>, i: nat)
    requires Declared(fs) && Within(fs, idx) && i < |fs|
    ensures fs[i].bit in UnionOf(fs, idx) <==> i in idx
    decreases |idx|
  {
    if idx != [] {
      var init, last := idx[..|idx| - 1], idx[|idx| - 1];
      assert idx == init + [last];
      UnionHolds(fs, init, i);
    }
  }

  /** Every bit of the union is that of a listed flag. */
  lemma {:induction false} UnionOnlyFlags(fs: seq<Flag>, idx: seq<nat>)
    requires Declared(fs) && Within(fs, idx)
    ensures forall b :: b in UnionOf(fs, idx) ==> exists i :: 0 <= i < |fs| && fs[i].bit == b && i in idx
    decreases |idx|
  {
    if idx != [] {
      var init, last := idx[..|idx| - 1], idx[|idx| - 1];
      assert idx == init + [last];
      UnionOnlyFlags(fs, init);
    }
  }

  lemma {:induction false} UnionFront(fs: seq<Flag>, i: nat, rest: seq<nat>)
    requires Declared(fs) && i < |fs| && Within(fs, rest)
    ensures Within(fs, [i] + rest) && UnionOf(fs, [i] + rest) == Value(fs, i) + UnionOf(fs, rest)
    decreases |rest|
  {
    hide Declared, Value;
    var all := [i] + rest;
    if rest == [] {
      assert all == [i] && all[..0] == [];
    } else {
      var init, last := rest[..|rest| - 1], rest[|rest| - 1];
      assert all[|all| - 1] == last && all[..|all| - 1] == [i] + init;
      UnionFront(fs, i, init);
    }
  }

  // ---- Printing ----------------------------------------------------------------------------

  /** Of the first `n` flags, those that have a bit in common with the value. */
  function Chosen(fs: seq<Flag>, value: Word, n: nat): (idx: seq<nat>)
    requires Declared(fs) && n <= |fs|
    ensures Within(fs, idx)
    ensures forall i :: i in idx <==> 0 <= i < n && fs[i].bit in value
  {
    if n == 0 then []
    else
      assert fs[n - 1].bit in value ==> fs[n - 1].bit in value * Value(fs, n - 1);
      Chosen(fs, value, n - 1) + if value * Value(fs, n - 1) != {} then [n - 1] else []
  }

  /** The name of a value that is exactly the union of its flags; no name for any other. */
  function Printed(fs: seq<Flag>, value: Word): string
    requires Declared(fs)
  {
    var idx := Chosen(fs, value, |fs|);
    if value != {} && UnionOf(fs, idx) == value then Join(fs, idx) else ""
  }

  lemma JoinEmpty(fs: seq<Flag>, idx: seq<nat>)
    requires Declared(fs) && Within(fs, idx)
    ensures Join(fs, idx) == "" <==> idx == []
  {
  }

  /** How the chosen flags, their names and their union grow from one flag to the next. */
  lemma ChosenStep(fs: seq<Flag>, value: Word, i: nat)
    requires Declared(fs) && i < |fs|
    ensures
      var idx, next := Chosen(fs, value, i), Chosen(fs, value, i + 1);
      if value * Value(fs, i) == {} then next == idx
      else
        && UnionOf(fs, next) == UnionOf(fs, idx) + Value(fs, i)
        && Join(fs, next) == (if Join(fs, idx) == "" then "" else Join(fs, idx) + "|") + fs[i].name
  {
    var idx := Chosen(fs, value, i);
    JoinEmpty(fs, idx);
    hide Declared;
    assert (idx + [i])[..|idx|] == idx;
    if Join(fs, idx) == "" {
      assert "" + fs[i].name == fs[i].name;
    }
  }

  lemma ChosenNone(fs: seq<Flag>, value: Word)
    requires Declared(fs)
    ensures Join(fs, Chosen(fs, value, 0)) == "" && UnionOf(fs, Chosen(fs, value, 0)) == {}
  {
  }

  method EnumName(fs: seq<Flag>, value: Word) returns (r: string)
    requires Declared(fs)
    ensures r == Printed(fs, value)
  {
    var name, check := "", {};
    hide Value, Declared, Join, UnionOf;
    ChosenNone(fs, value);
    for i := 0 to |fs|
      invariant name == Join(fs, Chosen(fs, value, i)) && check == UnionOf(fs, Chosen(fs, value, i))
    {
      ChosenStep(fs, value, i);
      hide Chosen;
      var v := Value(fs, i);
      if value * v != {} {
        check := check + v;
        if name != "" {
          name := name + "|";
        }
        name := name + fs[i].name;
      }
    }
    r := if check != {} && check == value then name else "";
  }

  // ---- Parsing -----------------------------------------------------------------------------

  /** The offset of the first `|`, or the length. */
  function FindBar(s: string): (d: nat)
    ensures d <= |s| && '|' !in s[..d]
    ensures d < |s| ==> s[d] == '|'
  {
    if s == "" || s[0] == '|' then 0
    else
      var d := 1 + FindBar(s[1..]);
      assert s[..d] == [s[0]] + s[1..][..d - 1];
      d
  }

  /** The position of the flag with a name, or their number. */
  function IndexOf(fs: seq<Flag>, name: string, from: nat): (i: nat)
    requires from <= |fs|
    ensures from <= i <= |fs|
    ensures i < |fs| ==> fs[i].name == name
    ensures forall k :: from <= k < i ==> fs[k].name != name
    decreases |fs| - from
  {
    if from == |fs| || fs[from].name == name then from else IndexOf(fs, name, from + 1)
  }

  function AfterBar(s: string, d: nat): string
    requires d <= |s|
  {
    if d == |s| then "" else s[d + 1..]
  }

  /** What parsing the rest of a text makes of the flags found so far. */
  function Parsed(fs: seq<Flag>, text: string, found: Word): Option<Word>
    requires Declared(fs)
    decreases |text|
  {
    if text == "" then (if found == {} then None else Some(found))
    else
      var d := FindBar(text);
      var i := IndexOf(fs, text[..d], 0);
      if i == |fs| then None else Parsed(fs, AfterBar(text, d), found + Value(fs, i))
  }

  method EnumCast(fs: seq<Flag>, text: string) returns (r: Option<Word>)
    requires Declared(fs)
    ensures r == Parsed(fs, text, {})
  {
    var value, result: Word := text, {};
    while value != ""
      invariant Parsed(fs, value, result) == Parsed(fs, text, {})
      decreases |value|
    {
      var d := FindBar(value);
      var s := value[..d];
      var f: Word, i := {}, 0;
      ghost var before := result;
      while i < |fs|
        invariant i <= |fs| && IndexOf(fs, s, 0) == IndexOf(fs, s, i)
        invariant f == {} && result == before
      {
        if s == fs[i].name {
          f := Value(fs, i);
          result := result + f;
          break;
        }
        i := i + 1;
      }
      if f == {} {
        return None;
      }
      value := AfterBar(value, d);
    }
    r := if result == {} then None else Some(result);
  }

  // ---- The texts that are accepted ---------------------------------------------------------

  /** The text spells the listed flags: their names joined, and perhaps a bar after them. */
  predicate Spells(fs: seq<Flag>, text: string, idx: seq<nat>) {
    Within(fs, idx) && idx != [] && (text == Join(fs, idx) || text == Join(fs, idx) + "|")
  }

  lemma {:induction false} FindBarAt(s: string, d: nat)
    requires d <= |s| && '|' !in s[..d] && (d < |s| ==> s[d] == '|')
    ensures FindBar(s) == d
  {
    var e := FindBar(s);
    assert forall k :: 0 <= k < d ==> s[k] in s[..d];
    assert forall k :: 0 <= k < e ==> s[k] in s[..e];
  }

  lemma ParseFirst(fs: seq<Flag>, text: string, i: nat, found: Word)
    requires Declared(fs) && i < |fs| && fs[i].name <= text
    requires var d := |fs[i].name|; d < |text| ==> text[d] == '|'
    ensures Parsed(fs, text, found) == Parsed(fs, AfterBar(text, |fs[i].name|), found + Value(fs, i))
  {
    var d := |fs[i].name|;
    assert text[..d] == fs[i].name;
    FindBarAt(text, d);
    var j := IndexOf(fs, text[..d], 0);
    assert j == i;
  }

  lemma AfterName(name: string, tail: string)
    ensures var s := name + "|" + tail; name <= s && s[|name|] == '|' && AfterBar(s, |name|) == tail
  {
  }

  /** A text that spells flags begins with the name of the first; the others are spelled after it. */
  lemma SpelledFirst(fs: seq<Flag>, text: string, i: nat, rest: seq<nat>)
    requires Declared(fs) && i < |fs| && Spells(fs, text, [i] + rest)
    ensures fs[i].name <= text && (|fs[i].name| < |text| ==> text[|fs[i].name|] == '|')
    ensures
      var after := AfterBar(text, |fs[i].name|);
      if rest == [] then after == "" else Within(fs, rest) && Spells(fs, after, rest)
  {
    hide Declared;
    var all, name := [i] + rest, fs[i].name;
    if rest != [] {
      assert Within(fs, rest) by {
        assert forall k :: 0 <= k < |rest| ==> all[k + 1] == rest[k];
      }
      JoinFront(fs, i, rest);
      hide Join, AfterBar;
      var tail := Join(fs, rest);
      assert name + "|" + tail + "|" == name + "|" + (tail + "|");
      AfterName(name, tail);
      AfterName(name, tail + "|");
    } else {
      assert all == [i];
    }
  }

  /** Parsing a text that spells some flags finds their union, on top of what was found before. */
  lemma {:induction false} ParseSpelled(fs: seq<Flag>, text: string, idx: seq<nat>, found: Word)
    requires Declared(fs) && Spells(fs, text, idx)
    ensures Parsed(fs, text, found) == Some(found + UnionOf(fs, idx))
    decreases |idx|
  {
    var i, rest := idx[0], idx[1..];
    assert idx == [i] + rest && Within(fs, rest);
    hide Declared, UnionOf, Spells, AfterBar;
    var v := Value(fs, i);
    SpelledFirst(fs, text, i, rest);
    ParseFirst(fs, text, i, found);
    UnionFront(fs, i, rest);
    if rest == [] {
      UnionOfNone(fs);
      assert fs[i].bit in found + v;
      assert found + v == found + (v + {});
    } else {
      ParseSpelled(fs, AfterBar(text, |fs[i].name|), rest, found + v);
      assert found + v + UnionOf(fs, rest) == found + (v + UnionOf(fs, rest));
    }
  }

  lemma UnionOfNone(fs: seq<Flag>)
    requires Declared(fs)
    ensures UnionOf(fs, []) == {}
  {
  }

  lemma SpellCons(fs: seq<Flag>, text: string, i: nat, rest: string, more: seq<nat>)
    requires Declared(fs) && i < |fs| && Spells(fs, rest, more) && text == fs[i].name + "|" + rest
    ensures Spells(fs, text, [i] + more)
  {
    hide Declared;
    JoinFront(fs, i, more);
  }

  /** A text that parses spells some flags, unless it is empty. */
  lemma {:induction false} ParsedWasSpelled(fs: seq<Flag>, text: string, found: Word) returns (idx: seq<nat>)
    requires Declared(fs) && Parsed(fs, text, found).Some? && text != ""
    ensures Spells(fs, text, idx)
    decreases |text|
  {
    hide Declared, Value, Spells, Join;
    var d := FindBar(text);
    var i := IndexOf(fs, text[..d], 0);
    var rest := AfterBar(text, d);
    if rest == "" {
      idx := [i];
      SpellOne(fs, text, i);
    } else {
      BarSplits(text, d);
      var more := ParsedWasSpelled(fs, rest, found + Value(fs, i));
      hide *;
      SpellCons(fs, text, i, rest, more);
      idx := [i] + more;
    }
  }

  lemma BarSplits(text: string, d: nat)
    requires d <= |text| && (d < |text| ==> text[d] == '|') && AfterBar(text, d) != ""
    ensures text == text[..d] + "|" + AfterBar(text, d)
  {
  }

  lemma SpellOne(fs: seq<Flag>, text: string, i: nat)
    requires i < |fs| && fs[i].name <= text && AfterBar(text, |fs[i].name|) == ""
    requires |fs[i].name| < |text| ==> text[|fs[i].name|] == '|'
    ensures Spells(fs, text, [i])
  {
    var d := |fs[i].name|;
    if d < |text| {
      assert text[d + 1..] == "" && text == fs[i].name + "|";
    }
  }

  /** A text is accepted exactly when it spells flags, in any order and with repeats, and the result
      is then their union. */
  lemma AcceptsExactlySpellings(fs: seq<Flag>, text: string, value: Word)
    requires Declared(fs)
    ensures Parsed(fs, text, {}) == Some(value) <==>
              exists idx: seq<nat> :: Spells(fs, text, idx) && UnionOf(fs, idx) == value
  {
    if Parsed(fs, text, {}).Some? {
      var idx := ParsedWasSpelled(fs, text, {});
      ParseSpelled(fs, text, idx, {});
      assert {} + UnionOf(fs, idx) == UnionOf(fs, idx);
    }
    hide Declared, Parsed, UnionOf;
    forall idx: seq<nat> | Spells(fs, text, idx)
      ensures Parsed(fs, text, {}) == Some(UnionOf(fs, idx))
    {
      ParseSpelled(fs, text, idx, {});
      assert {} + UnionOf(fs, idx) == UnionOf(fs, idx);
    }
  }

  // ---- Printing and parsing ----------------------------------------------------------------

  /** A value that is a union of flags is the union of the flags it has bits in common with. */
  lemma UnionIsChosen(fs: seq<Flag>, idx: seq<nat>)
    requires Declared(fs) && Within(fs, idx)
    ensures UnionOf(fs, Chosen(fs, UnionOf(fs, idx), |fs|)) == UnionOf(fs, idx)
  {
    var u := UnionOf(fs, idx);
    var chosen := Chosen(fs, u, |fs|);
    UnionOnlyFlags(fs, idx);
    UnionOnlyFlags(fs, chosen);
    forall i: nat | i < |fs| ensures i in chosen <==> i in idx {
      UnionHolds(fs, idx, i);
    }
    hide UnionOf, Chosen;
    forall b ensures b in UnionOf(fs, chosen) <==> b in u {
      if b in u {
        var i :| 0 <= i < |fs| && fs[i].bit == b && i in idx;
        UnionHolds(fs, chosen, i);
      }
    }
  }

  lemma PrintedIsChosen(fs: seq<Flag>, value: Word)
    requires Declared(fs)
    ensures Printed(fs, value) != "" <==> value != {} && UnionOf(fs, Chosen(fs, value, |fs|)) == value
  {
    JoinEmpty(fs, Chosen(fs, value, |fs|));
    UnionOfNone(fs);
  }

  /** A value has a name exactly when it is a non-zero union of flags, and the name parses back. */
  lemma PrintedParsesBack(fs: seq<Flag>, value: Word)
    requires Declared(fs)
    ensures Printed(fs, value) != "" <==>
              value != {} && exists idx: seq<nat> :: Within(fs, idx) && UnionOf(fs, idx) == value
    ensures Printed(fs, value) != "" ==> Parsed(fs, Printed(fs, value), {}) == Some(value)
  {
    var chosen := Chosen(fs, value, |fs|);
    JoinEmpty(fs, chosen);
    PrintedIsChosen(fs, value);
    hide Declared, Parsed, Join, UnionOf, Chosen;
    forall idx: seq<nat> | Within(fs, idx) && UnionOf(fs, idx) == value ensures UnionOf(fs, chosen) == value {
      UnionIsChosen(fs, idx);
    }
    if Printed(fs, value) != "" {
      ParseSpelled(fs, Printed(fs, value), chosen, {});
      assert {} + value == value;
    }
  }

  /** The lowest flag of the value. */
  predicate Lowest(fs: seq<Flag>, value: Word, i: nat) {
    i < |fs| && fs[i].bit in value && forall j :: 0 <= j < i ==> fs[j].bit !in value
  }

  function Others(fs: seq<Flag>, value: Word, i: nat): Word
    requires i < |fs|
  {
    value - {fs[i].bit}
  }

  lemma OtherBits(fs: seq<Flag>, value: Word, i: nat, k: nat)
    requires Declared(fs) && Lowest(fs, value, i) && k < |fs|
    ensures fs[k].bit in Others(fs, value, i) <==> k != i && fs[k].bit in value
    ensures k < i ==> fs[k].bit !in value
    ensures fs[i].bit in value
  {
  }

  lemma ChosenNext(fs: seq<Flag>, value: Word, n: nat)
    requires Declared(fs) && n < |fs|
    ensures Chosen(fs, value, 0) == []
    ensures Chosen(fs, value, n + 1) == if fs[n].bit in value then Chosen(fs, value, n) + [n] else Chosen(fs, value, n)
  {
    assert fs[n].bit in value ==> fs[n].bit in value * Value(fs, n);
  }

  lemma {:induction false} ChosenBelow(fs: seq<Flag>, value: Word, n: nat)
    requires Declared(fs) && n <= |fs| && forall k :: 0 <= k < n ==> fs[k].bit !in value
    ensures Chosen(fs, value, n) == []
    decreases n
  {
    if n > 0 {
      ChosenBelow(fs, value, n - 1);
      hide Chosen, Declared;
      ChosenNext(fs, value, n - 1);
    }
  }

  /** Up to the lowest flag itself. */
  lemma ChosenLowest(fs: seq<Flag>, value: Word, i: nat)
    requires Declared(fs) && Lowest(fs, value, i)
    ensures Chosen(fs, value, i + 1) == [i] && Chosen(fs, Others(fs, value, i), i + 1) == []
  {
    hide Chosen, Declared;
    ChosenBelow(fs, value, i);
    ChosenBelow(fs, Others(fs, value, i), i + 1);
    ChosenNext(fs, value, i);
  }

  lemma {:induction false} ChosenFront(fs: seq<Flag>, value: Word, i: nat, n: nat)
    requires Declared(fs) && Lowest(fs, value, i) && i < n <= |fs|
    ensures Chosen(fs, value, n) == [i] + Chosen(fs, Others(fs, value, i), n)
    decreases n
  {
    hide *;
    var k, rest := n - 1, Others(fs, value, i);
    if k == i {
      ChosenLowest(fs, value, i);
    } else {
      OtherBits(fs, value, i, k);
      ChosenNext(fs, value, k);
      ChosenNext(fs, rest, k);
      ChosenFront(fs, value, i, k);
      FrontStep(Chosen(fs, rest, k), i, k);
    }
  }

  lemma FrontStep(rest: seq<nat>, i: nat, k: nat)
    ensures [] + [i] == [i] + [] && ([i] + rest) + [k] == [i] + (rest + [k])
  {
  }

  lemma ChosenOf(fs: seq<Flag>, value: Word, n: nat)
    requires Declared(fs) && n <= |fs|
    ensures Within(fs, Chosen(fs, value, n))
    ensures forall k :: k in Chosen(fs, value, n) ==> 0 <= k < n && fs[k].bit in value
  {
  }

  lemma PrintedJoins(fs: seq<Flag>, value: Word, idx: seq<nat>)
    requires Declared(fs) && idx == Chosen(fs, value, |fs|) && value != {} && UnionOf(fs, idx) == value
    ensures Printed(fs, value) == Join(fs, idx)
  {
  }

  lemma UnionWithout(fs: seq<Flag>, value: Word, i: nat, idx: seq<nat>)
    requires Declared(fs) && i < |fs| && Within(fs, idx) && Within(fs, [i] + idx)
    requires UnionOf(fs, [i] + idx) == value && i !in idx
    ensures UnionOf(fs, idx) == Others(fs, value, i) && (UnionOf(fs, idx) == {} <==> idx == [])
    ensures value == {fs[i].bit} <==> idx == []
  {
    hide UnionOf, Declared;
    UnionFront(fs, i, idx);
    UnionHolds(fs, idx, i);
    UnionOfNone(fs);
    assert Value(fs, i) == {fs[i].bit};
    if idx != [] {
      UnionHolds(fs, idx, idx[0]);
      assert fs[idx[0]].bit in Others(fs, value, i);
    }
  }

  lemma JoinSingle(fs: seq<Flag>, i: nat)
    requires i < |fs|
    ensures Join(fs, [i] + []) == fs[i].name
  {
  }

  /** A name lists the flags from the lowest up, with a bar between one and the next. */
  lemma {:induction false} PrintedInOrder(fs: seq<Flag>, value: Word, i: nat)
    requires Declared(fs) && Printed(fs, value) != "" && Lowest(fs, value, i)
    ensures Printed(fs, value) == if value == {fs[i].bit} then fs[i].name
                                  else fs[i].name + "|" + Printed(fs, value - {fs[i].bit})
  {
    var rest := Others(fs, value, i);
    assert rest == value - {fs[i].bit} && i < |fs|;
    hide *;
    var idx := Chosen(fs, rest, |fs|);
    PrintedIsChosen(fs, value);
    ChosenFront(fs, value, i, |fs|);
    ChosenOf(fs, value, |fs|);
    ChosenOf(fs, rest, |fs|);
    OtherBits(fs, value, i, i);
    assert i !in idx;
    UnionWithout(fs, value, i, idx);
    PrintedJoins(fs, value, [i] + idx);
    if idx == [] {
      JoinSingle(fs, i);
    } else {
      JoinFront(fs, i, idx);
      PrintedJoins(fs, rest, idx);
    }
  }

  // ---- Casting integers --------------------------------------------------------------------

  /** The flags occupy consecutive bits. */
  predicate Dense(fs: seq<Flag>) {
    forall i :: 0 <= i < |fs| ==> fs[i].bit == fs[0].bit + i
  }

  function All(n: nat): (idx: seq<nat>)
    ensures |idx| == n && forall i :: 0 <= i < n ==> idx[i] == i
  {
    seq(n, i => i)
  }

  /** The bounds the cast compares with when flags are consecutive: the lowest flag and the union of all. */
  predicate InBounds(fs: seq<Flag>, value: Word)
    requires Declared(fs) && fs != []
  {
    Number(Value(fs, 0), WIDTH) <= Number(value, WIDTH) <= Number(UnionOf(fs, All(|fs|)), WIDTH)
  }

  /** Whether an integer passes for a value of the enumeration. */
  method IntegerCast(fs: seq<Flag>, value: Word) returns (ok: bool)
    requires Declared(fs) && fs != []
    ensures !Dense(fs) ==> (ok <==> Printed(fs, value) != "")
    ensures Dense(fs) ==> (ok <==> InBounds(fs, value))
  {
    SpanIsDense(fs);
    if fs[|fs| - 1].bit - fs[0].bit + 1 != |fs| {
      var check := CheckValue(fs, value);
      PrintedIsChosen(fs, value);
      ok := check != {} && check == value;
    } else {
      var top := ValueOrs(fs);
      ok := Number(Value(fs, 0), WIDTH) <= Number(value, WIDTH) <= Number(top, WIDTH);
    }
  }

  /** The union of the flags that have a bit in common with the value. */
  method CheckValue(fs: seq<Flag>, value: Word) returns (check: Word)
    requires Declared(fs)
    ensures check == UnionOf(fs, Chosen(fs, value, |fs|))
  {
    ChosenNone(fs, value);
    hide *;
    check := {};
    for i := 0 to |fs|
      invariant check == UnionOf(fs, Chosen(fs, value, i))
    {
      ChosenStep(fs, value, i);
      if value * Value(fs, i) != {} {
        check := check + Value(fs, i);
      }
    }
  }

  /** The union of all flags. */
  method ValueOrs(fs: seq<Flag>) returns (top: Word)
    requires Declared(fs)
    ensures top == UnionOf(fs, All(|fs|))
  {
    UnionOfNone(fs);
    top := {};
    for i := 0 to |fs|
      invariant top == UnionOf(fs, All(i))
    {
      assert All(i + 1)[..i] == All(i);
      top := top + Value(fs, i);
    }
  }

  /** As many positions as flags leave no gap. */
  lemma SpanIsDense(fs: seq<Flag>)
    requires Declared(fs) && fs != []
    ensures Dense(fs) <==> fs[|fs| - 1].bit - fs[0].bit + 1 == |fs|
  {
    if fs[|fs| - 1].bit - fs[0].bit + 1 == |fs| {
      forall i | 0 <= i < |fs| ensures fs[i].bit == fs[0].bit + i {
        Spread(fs, 0, i);
        Spread(fs, i, |fs| - 1);
      }
    }
  }

  lemma {:induction false} Spread(fs: seq<Flag>, i: nat, j: nat)
    requires Declared(fs) && i <= j < |fs|
    ensures fs[j].bit >= fs[i].bit + j - i
    decreases j - i
  {
    if i < j {
      Spread(fs, i, j - 1);
    }
  }

  lemma {:induction false} DenseUnion(fs: seq<Flag>, n: nat)
    requires Declared(fs) && Dense(fs) && 0 < |fs| && n <= |fs|
    ensures fs[0].bit + n <= WIDTH && UnionOf(fs, All(n)) == Run(fs[0].bit, fs[0].bit + n)
    decreases n
  {
    if n > 0 {
      DenseUnion(fs, n - 1);
      assert All(n)[..n - 1] == All(n - 1);
      assert fs[n - 1].bit == fs[0].bit + (n - 1);
    }
  }

  /** The chosen flags make up the value exactly when it has no other bits than those of flags. */
  lemma ChosenCovers(fs: seq<Flag>, value: Word)
    requires Declared(fs)
    ensures UnionOf(fs, Chosen(fs, value, |fs|)) == value <==> value <= UnionOf(fs, All(|fs|))
  {
    var chosen, all := Chosen(fs, value, |fs|), All(|fs|);
    UnionOnlyFlags(fs, chosen);
    UnionOnlyFlags(fs, all);
    forall i: nat | i < |fs|
      ensures fs[i].bit in UnionOf(fs, chosen) <==> fs[i].bit in value
      ensures fs[i].bit in UnionOf(fs, all)
    {
      UnionHolds(fs, chosen, i);
      UnionHolds(fs, all, i);
      assert all[i] == i;
    }
  }

  /** Where flags are consecutive, the values with a name are those within the bounds of the cast that
      have no bit below the lowest flag. */
  lemma DenseCast(fs: seq<Flag>, value: Word)
    requires Declared(fs) && Dense(fs) && fs != [] && value <= Run(0, WIDTH)
    ensures Printed(fs, value) != "" <==> InBounds(fs, value) && value * Run(0, fs[0].bit) == {}
  {
    hide *;
    DenseNamed(fs, value);
    DenseBounds(fs, value);
    InRun(value, fs[0].bit, fs[0].bit + |fs|, WIDTH);
  }

  lemma DenseNamed(fs: seq<Flag>, value: Word)
    requires Declared(fs) && Dense(fs) && fs != []
    ensures Printed(fs, value) != "" <==> value != {} && value <= Run(fs[0].bit, fs[0].bit + |fs|)
  {
    hide *;
    PrintedIsChosen(fs, value);
    ChosenCovers(fs, value);
    DenseUnion(fs, |fs|);
  }

  lemma DenseBounds(fs: seq<Flag>, value: Word)
    requires Declared(fs) && Dense(fs) && fs != []
    ensures fs[0].bit + |fs| <= WIDTH
    ensures InBounds(fs, value) <==>
              Pow2(fs[0].bit) <= Number(value, WIDTH) <= Number(Run(fs[0].bit, fs[0].bit + |fs|), WIDTH)
  {
    DenseUnion(fs, |fs|);
    NumberOfBit(fs[0].bit);
    hide Declared, Dense, UnionOf, All, Number, Run;
  }

  /** So the cast can accept what has no name: of the flags 2 and 4, the value 3. */
  lemma CastAcceptsNameless()
    ensures
      var fs := [Flag("A", 1), Flag("B", 2)];
      Declared(fs) && Dense(fs) && Printed(fs, {0, 1}) == "" && InBounds(fs, {0, 1})
  {
    var fs := [Flag("A", 1), Flag("B", 2)];
    DenseBounds(fs, {0, 1});
    assert 0 in {0, 1} * Run(0, 1);
    DenseCast(fs, {0, 1});
    ThreeInRun();
  }

  lemma ThreeInRun()
    ensures Pow2(1) <= Number({0, 1}, WIDTH) <= Number(Run(1, 3), WIDTH)
  {
    NumberOfRun(1, 3, WIDTH);
    NumberOfRun(0, 2, WIDTH);
    assert {0, 1} == Run(0, 2);
    assert Pow2(1) == 2 && Pow2(3) == 2 * Pow2(2);
  }
}
