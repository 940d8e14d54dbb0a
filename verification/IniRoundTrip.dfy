/** A printer for INI documents, and the proof that the parser inverts it. */
module IniRoundTrip {
  import opened Hash
  import opened IniSyntax

  /** `=` or `:`. */
  type Separator = c: bv8 | c == 0x3D || c == 0x3A witness 0x3D

  /** A blank or a tab, or other white space that does not end the line. */
  type Indentation = c: bv8 | c == 0x20 || c == 0x09 || c == 0x0B || c == 0x0C || c == 0x0D witness 0x20

  /** A name with the lines of its value: the first and any further ones. The writer chooses what separates
      name and value, and what the further lines are indented with. */
  datatype Item = Item(name: Str, sep: Separator, first: Str, indent: Indentation, more: seq<Str>)
  datatype Block = Block(section: Str, items: seq<Item>)
  type Document = seq<Block>

  // ---- The printer -------------------------------------------------------------------------

  function PrintHeader(section: Str): Str {
    [0x5B] + section + [0x5D, 0x0A]
  }

  function PrintPair(name: Str, sep: Separator, value: Str): Str {
    name + [sep] + value + [0x0A]
  }

  /** A further line of a value is indented. */
  function PrintContinuation(indent: Indentation, value: Str): Str {
    [indent] + value + [0x0A]
  }

  function PrintMore(indent: Indentation, lines: seq<Str>): seq<Str> {
    if lines == [] then [] else [PrintContinuation(indent, lines[0])] + PrintMore(indent, lines[1..])
  }

  function PrintItem(item: Item): seq<Str> {
    [PrintPair(item.name, item.sep, item.first)] + PrintMore(item.indent, item.more)
  }

  function PrintItems(items: seq<Item>): seq<Str> {
    if items == [] then [] else PrintItem(items[0]) + PrintItems(items[1..])
  }

  function PrintBlock(b: Block): seq<Str> {
    [PrintHeader(b.section)] + PrintItems(b.items)
  }

  function Print(doc: Document): seq<Str> {
    if doc == [] then [] else PrintBlock(doc[0]) + Print(doc[1..])
  }

  // ---- Well-formedness ---------------------------------------------------------------------

  /** Blank, tab, line feed, vertical tab, form feed, carriage return. */
  predicate White(c: bv8) {
    c == 0x20 || c == 0x09 || c == 0x0A || c == 0x0B || c == 0x0C || c == 0x0D
  }

  /** `;` or `#`. */
  predicate Remark(c: bv8) {
    c == 0x3B || c == 0x23
  }

  /** No comment character follows white space. */
  predicate NoInlineComment(s: Str) {
    forall i :: 0 < i < |s| && White(s[i - 1]) ==> !Remark(s[i])
  }

  predicate NoneOf(s: Str, chars: set<bv8>) {
    forall i :: 0 <= i < |s| ==> s[i] !in chars
  }

  predicate Tight(s: Str) {
    s != [] ==> !White(s[0]) && !White(s[|s| - 1])
  }

  /** A text that can stand between the brackets of a section line. */
  predicate SectionText(s: Str) {
    NoneOf(s, {0x5D}) && NoInlineComment(s)
  }

  predicate GoodSection(s: Str) {
    |s| < 128 && SectionText(s)
  }

  /** A text that can stand for a name before a separator. */
  predicate NameText(s: Str) {
    && Tight(s) && NoneOf(s, {0x3D, 0x3A}) && NoInlineComment(s)
    && (s != [] ==> !Remark(s[0]) && s[0] != 0x5B)
  }

  predicate GoodName(s: Str) {
    |s| < 128 && NameText(s)
  }

  predicate GoodFirstLine(s: Str) {
    Tight(s) && NoInlineComment(s)
  }

  predicate GoodMoreLine(s: Str) {
    s != [] && Tight(s) && NoInlineComment(s) && !Remark(s[0])
  }

  /** An empty name cannot be continued on further lines. */
  predicate GoodItem(item: Item) {
    && GoodName(item.name) && GoodFirstLine(item.first)
    && (forall i :: 0 <= i < |item.more| ==> GoodMoreLine(item.more[i]))
    && (item.name == [] ==> item.more == [])
  }

  predicate GoodBlock(b: Block) {
    GoodSection(b.section) && forall i :: 0 <= i < |b.items| ==> GoodItem(b.items[i])
  }

  predicate Good(doc: Document) {
    forall k :: 0 <= k < |doc| ==> GoodBlock(doc[k])
  }

  // ---- What a document stands for ----------------------------------------------------------

  function LineEntries(section: Str, name: Str, lines: seq<Str>): seq<Entry> {
    if lines == [] then [] else [Entry(section, name, lines[0])] + LineEntries(section, name, lines[1..])
  }

  function ItemEntries(section: Str, items: seq<Item>): seq<Entry> {
    if items == [] then []
    else [Entry(section, items[0].name, items[0].first)] + LineEntries(section, items[0].name, items[0].more)
         + ItemEntries(section, items[1..])
  }

  /** One (section, name, value) triple per line of each value, in document order. */
  function Entries(doc: Document): seq<Entry> {
    if doc == [] then [] else ItemEntries(doc[0].section, doc[0].items) + Entries(doc[1..])
  }

  // ---- Scanning printed lines --------------------------------------------------------------

  lemma RStripTight(s: Str, t: Str)
    requires (s != [] ==> !IsSpace(s[|s| - 1])) && forall i :: 0 <= i < |t| ==> IsSpace(t[i])
    ensures RStrip(s + t) == s
    decreases |t|
  {
    if t == [] {
      assert s + t == s;
    } else {
      assert (s + t)[..|s + t| - 1] == s + t[..|t| - 1];
      RStripTight(s, t[..|t| - 1]);
    }
  }

  /** A scan runs through text that holds nothing to stop it. */
  lemma {:induction false} ScanThrough(s: Str, t: Str, chars: set<bv8>, wasSpace: bool)
    requires NoneOf(s, chars) && NoInlineComment(s)
    requires wasSpace && s != [] ==> !IsComment(s[0])
    requires t == [] || t[0] in chars
    ensures Scan(s + t, chars, wasSpace) == |s|
    decreases |s|
  {
    if s == [] {
      assert s + t == t;
    } else {
      assert (s + t)[0] == s[0] && (s + t)[1..] == s[1..] + t;
      assert forall i :: 0 <= i < |s| - 1 ==> s[1..][i] == s[i + 1];
      ScanThrough(s[1..], t, chars, IsSpace(s[0]));
    }
  }

  lemma UncommentGood(s: Str)
    requires (s != [] ==> !IsSpace(s[|s| - 1])) && NoInlineComment(s)
    ensures Uncomment(s) == s
  {
    assert s + [] == s;
    ScanThrough(s, [], {}, false);
    RStripTight(s, []);
  }

  /** A scan that stops nowhere has met no inline comment. */
  lemma {:induction false} ScannedAll(s: Str, wasSpace: bool)
    requires Scan(s, {}, wasSpace) == |s|
    ensures NoInlineComment(s) && (wasSpace && s != [] ==> !IsComment(s[0]))
    decreases |s|
  {
    if s != [] {
      ScannedAll(s[1..], IsSpace(s[0]));
      forall i | 0 < i < |s| && IsSpace(s[i - 1]) ensures !IsComment(s[i]) {
        assert s[i] == s[1..][i - 1] && (i > 1 ==> s[i - 1] == s[1..][i - 2]);
      }
    }
  }

  /** Exactly the values without surrounding white space and without an inline comment come back as they
      were written. */
  lemma {:induction false} SurvivesExactly(value: Str)
    ensures Uncomment(LSkip(value)) == value <==> GoodFirstLine(value)
  {
    if GoodFirstLine(value) {
      ValuePart(value);
    } else if Uncomment(LSkip(value)) == value {
      assert Uncomment(LSkip(value)) <= LSkip(value);
      assert Indent(value) == 0 && LSkip(value) == value;
      assert value[..Scan(value, {}, false)] == value;
      ScannedAll(value, false);
    }
  }

  /** A line whose text begins in its first column and ends before the line feed. */
  lemma PlainLine(lineno: nat, text: Str, open: bool)
    requires text != [] && !IsSpace(text[0]) && !IsSpace(text[|text| - 1]) && (lineno == 1 ==> text[0] != 0xEF)
    ensures Classify(lineno, text + [NEWLINE], open) == Meaning(text, 0, open)
  {
    hide Meaning;
    var line := text + [NEWLINE];
    assert line[0..] == line;
    RStripTight(text, [NEWLINE]);
    assert text[0..] == text;
  }

  lemma HeaderText(section: Str, open: bool)
    requires SectionText(section)
    ensures Meaning([OPEN] + section + [CLOSE], 0, open) == Header(section)
  {
    var text := [OPEN] + section + [CLOSE];
    assert text[1..] == section + [CLOSE];
    ScanThrough(section, [CLOSE], CLOSERS, false);
    hide Scan, NoneOf, NoInlineComment;
    assert text[1..1 + |section|] == section;
  }

  lemma HeaderLine(lineno: nat, section: Str, open: bool)
    requires SectionText(section)
    ensures Classify(lineno, PrintHeader(section), open) == Header(section)
  {
    var text := [OPEN] + section + [CLOSE];
    assert PrintHeader(section) == text + [NEWLINE];
    hide Classify, Meaning, NoneOf, NoInlineComment, PrintHeader;
    PlainLine(lineno, text, open);
    HeaderText(section, open);
  }

  lemma NamePart(name: Str, rest: Str)
    requires NameText(name) && rest != [] && (rest[0] == 0x3D || rest[0] == 0x3A)
    ensures Scan(name + rest, SEPARATORS, false) == |name| && RStrip(name) == name
  {
    ScanThrough(name, rest, SEPARATORS, false);
    assert name + [] == name;
    RStripTight(name, []);
  }

  lemma ValuePart(value: Str)
    requires GoodFirstLine(value)
    ensures Uncomment(LSkip(value)) == value
  {
    assert Indent(value) == 0;
    assert value[0..] == value;
    UncommentGood(value);
  }

  lemma PairParts(name: Str, sep: Separator, after: Str)
    ensures
      var text := name + [sep] + after;
      && text == name + ([sep] + after) && text[|name|] == sep
      && text[..|name|] == name && text[|name| + 1..] == after
      && text[0] == if name == [] then sep else name[0]
  {
  }

  lemma PairSplit(name: Str, sep: Separator, after: Str, open: bool)
    requires NameText(name)
    ensures Meaning(name + [sep] + after, 0, open) == Pair(name, Uncomment(LSkip(after)))
  {
    PairParts(name, sep, after);
    hide Scan, RStrip, LSkip, Uncomment, NoneOf, NoInlineComment;
    NamePart(name, [sep] + after);
    PairCase(name + [sep] + after, |name|, open);
  }

  lemma PairCase(text: Str, e: nat, open: bool)
    requires text != [] && !Remark(text[0]) && text[0] != 0x5B
    requires Scan(text, SEPARATORS, false) == e && e < |text| && (text[e] == 0x3D || text[e] == 0x3A)
    ensures Meaning(text, 0, open) == Pair(RStrip(text[..e]), Uncomment(LSkip(text[e + 1..])))
  {
    hide Scan, RStrip, LSkip, Uncomment;
  }

  /** A name and a value written next to each other are read back exactly when the value survives. */
  lemma PairText(name: Str, sep: Separator, value: Str, open: bool)
    requires NameText(name)
    ensures Meaning(name + [sep] + value, 0, open) == Pair(name, value) <==> GoodFirstLine(value)
  {
    hide *;
    PairSplit(name, sep, value, open);
    SurvivesExactly(value);
  }

  /** A value that begins with a comment character is kept, even after a blank or a tab: skipping it
      before the value forgets that there was white space. */
  lemma {:induction false} SpacedPair(name: Str, sep: Separator, blank: Indentation, value: Str, open: bool)
    requires NameText(name) && GoodFirstLine(value) && value != []
    ensures Meaning(name + [sep] + ([blank] + value), 0, open) == Pair(name, value)
  {
    PairSplit(name, sep, [blank] + value, open);
    assert ([blank] + value)[1..] == value;
    assert Indent(value) == 0;
    UncommentGood(value);
    hide Meaning, Uncomment;
  }

  lemma PairLine(lineno: nat, name: Str, sep: Separator, value: Str, open: bool)
    requires NameText(name) && GoodFirstLine(value) && lineno > 1
    ensures Classify(lineno, PrintPair(name, sep, value), open) == Pair(name, value)
  {
    var text := name + [sep] + value;
    assert text[0] == if name == [] then sep else name[0];
    assert text[|text| - 1] == if value == [] then sep else value[|value| - 1];
    hide Classify, Meaning, NoneOf, NoInlineComment;
    PlainLine(lineno, text, open);
    PairText(name, sep, value, open);
  }

  lemma LaterLine(lineno: nat, line: Str, open: bool)
    requires lineno > 1
    ensures Classify(lineno, line, open) == Meaning(LSkip(RStrip(line)), Indent(RStrip(line)), open)
  {
    hide Meaning, LSkip, RStrip, Indent;
    assert line[0..] == line;
  }

  lemma IndentedText(indent: Indentation, value: Str)
    requires GoodMoreLine(value)
    ensures
      var stripped := RStrip(PrintContinuation(indent, value));
      LSkip(stripped) == value && Indent(stripped) == 1
  {
    var text := [indent] + value;
    assert PrintContinuation(indent, value) == text + [0x0A];
    RStripTight(text, [0x0A]);
    assert text[1..] == value;
    assert Indent(text) == 1;
  }

  lemma GoodMoreLineReads(lineno: nat, indent: Indentation, value: Str)
    requires GoodMoreLine(value) && lineno > 1
    ensures Classify(lineno, PrintContinuation(indent, value), true) == Continued(value)
  {
    LaterLine(lineno, PrintContinuation(indent, value), true);
    IndentedText(indent, value);
    UncommentGood(value);
    hide Classify, RStrip, LSkip, Indent, PrintContinuation, Uncomment, NoInlineComment;
  }

  /** What is left of an indented line is no longer than the value, and the value itself if as long. */
  lemma TrimmedLine(indent: Indentation, value: Str)
    ensures
      var stripped := RStrip(PrintContinuation(indent, value));
      var text := LSkip(stripped);
      && |text| <= |value|
      && (|text| == |value| && value != [] ==> text == value && Tight(value))
  {
    var line, stripped := PrintContinuation(indent, value), RStrip(PrintContinuation(indent, value));
    assert line[0] == indent && line[|line| - 1] == NEWLINE;
    assert stripped != [] ==> stripped[0] == indent;
    assert |stripped| < |line|;
    if |LSkip(stripped)| == |value| && value != [] {
      assert stripped == line[..|value| + 1] && Indent(stripped) == 1;
      assert stripped[1..] == value;
    }
  }

  /** A further line of a value is read back exactly if it is not empty, has no surrounding white space and
      no inline comment, and does not begin with a comment character. */
  lemma {:induction false} MoreLine(lineno: nat, indent: Indentation, value: Str)
    requires lineno > 1
    ensures Classify(lineno, PrintContinuation(indent, value), true) == Continued(value) <==> GoodMoreLine(value)
  {
    if GoodMoreLine(value) {
      GoodMoreLineReads(lineno, indent, value);
    } else if Classify(lineno, PrintContinuation(indent, value), true) == Continued(value) {
      var line := PrintContinuation(indent, value);
      var text := LSkip(RStrip(line));
      assert line[0..] == line;
      TrimmedLine(indent, value);
      hide RStrip, LSkip, PrintContinuation, Indent;
      assert Uncomment(text) == value;
      UncommentShortens(text);
      ScannedAll(value, false);
    }
  }

  lemma UncommentShortens(s: Str)
    ensures |Uncomment(s)| <= |s|
    ensures Uncomment(s) == s ==> Scan(s, {}, false) == |s|
  {
  }

  // ---- The parser inverts the printer ------------------------------------------------------

  lemma {:induction false} ParseMore(p: Parser, indent: Indentation, lines: seq<Str>)
    requires p.prev != [] && p.lineno > 0 && forall i :: 0 <= i < |lines| ==> GoodMoreLine(lines[i])
    ensures Parse(p, PrintMore(indent, lines))
         == p.(lineno := p.lineno + |lines|, out := p.out + LineEntries(p.section, p.prev, lines))
    decreases |lines|
  {
    hide Classify, GoodMoreLine, PrintContinuation;
    if lines == [] {
      assert p.out + [] == p.out;
    } else {
      MoreLine(p.lineno + 1, indent, lines[0]);
      var q := p.(lineno := p.lineno + 1, out := p.out + [Entry(p.section, p.prev, lines[0])]);
      assert Step(p, PrintContinuation(indent, lines[0])) == q;
      ParseCons(p, PrintContinuation(indent, lines[0]), PrintMore(indent, lines[1..]));
      hide Step, Parse;
      ParseMore(q, indent, lines[1..]);
      assert q.out + LineEntries(p.section, p.prev, lines[1..]) == p.out + LineEntries(p.section, p.prev, lines);
    }
  }

  /** A name is reported whatever its size; one of 128 characters or more is not open for further lines. */
  lemma StepPair(p: Parser, name: Str, sep: Separator, value: Str)
    requires p.lineno > 0 && NameText(name) && GoodFirstLine(value)
    ensures Step(p, PrintPair(name, sep, value))
         == p.(lineno := p.lineno + 1, prev := if |name| < 128 then name else [],
               out := p.out + [Entry(p.section, name, value)])
  {
    hide Classify, NameText, GoodFirstLine, PrintPair;
    PairLine(p.lineno + 1, name, sep, value, p.prev != []);
  }

  /** A section line opens its section, and one of 128 characters or more the empty section. */
  lemma StepHeader(p: Parser, section: Str)
    requires SectionText(section)
    ensures Step(p, PrintHeader(section))
         == p.(lineno := p.lineno + 1, prev := [], section := if |section| < 128 then section else [])
  {
    hide Classify, SectionText, PrintHeader;
    HeaderLine(p.lineno + 1, section, p.prev != []);
  }

  lemma ParseItem(p: Parser, item: Item)
    requires p.lineno > 0 && GoodItem(item)
    ensures Parse(p, PrintItem(item))
         == p.(lineno := p.lineno + 1 + |item.more|, prev := item.name,
               out := p.out + [Entry(p.section, item.name, item.first)] + LineEntries(p.section, item.name, item.more))
  {
    assert |item.name| < 128;
    hide NameText, GoodFirstLine, GoodMoreLine, PrintPair, Step, Parse, LineEntries, PrintMore;
    StepPair(p, item.name, item.sep, item.first);
    ParseCons(p, PrintPair(item.name, item.sep, item.first), PrintMore(item.indent, item.more));
    var q := p.(lineno := p.lineno + 1, prev := item.name, out := p.out + [Entry(p.section, item.name, item.first)]);
    if item.more != [] {
      ParseMore(q, item.indent, item.more);
    } else {
      ParseNothingMore(q, item.indent, p.section, item.name);
    }
  }

  lemma ParseNothingMore(p: Parser, indent: Indentation, section: Str, name: Str)
    ensures Parse(p, PrintMore(indent, [])) == p && p.out + LineEntries(section, name, []) == p.out
  {
  }

  lemma {:induction false} ParseItems(p: Parser, items: seq<Item>) returns (q: Parser)
    requires p.lineno > 0 && forall i :: 0 <= i < |items| ==> GoodItem(items[i])
    ensures q == Parse(p, PrintItems(items)) && q.lineno > 0
    ensures q.error == p.error && q.section == p.section && q.out == p.out + ItemEntries(p.section, items)
    decreases |items|
  {
    hide GoodItem, PrintItem, Step;
    if items == [] {
      q := p;
      assert p.out + [] == p.out;
    } else {
      ParseItem(p, items[0]);
      ParseAppend(p, PrintItem(items[0]), PrintItems(items[1..]));
      var m := Parse(p, PrintItem(items[0]));
      q := ParseItems(m, items[1..]);
      assert m.out + ItemEntries(p.section, items[1..]) == p.out + ItemEntries(p.section, items);
    }
  }

  lemma ParseBlock(p: Parser, b: Block) returns (q: Parser)
    requires GoodBlock(b)
    ensures q == Parse(p, PrintBlock(b)) && q.lineno > 0
    ensures q.error == p.error && q.out == p.out + ItemEntries(b.section, b.items)
  {
    assert |b.section| < 128;
    hide Classify, GoodItem, SectionText, PrintHeader, PrintItems;
    StepHeader(p, b.section);
    var m := p.(lineno := p.lineno + 1, section := b.section, prev := []);
    assert Step(p, PrintHeader(b.section)) == m;
    ParseCons(p, PrintHeader(b.section), PrintItems(b.items));
    hide Step, Parse;
    q := ParseItems(m, b.items);
  }

  lemma {:induction false} ParsePrinted(p: Parser, doc: Document)
    requires Good(doc)
    ensures Parse(p, Print(doc)).error == p.error
    ensures Parse(p, Print(doc)).out == p.out + Entries(doc)
    decreases |doc|
  {
    hide GoodBlock, PrintBlock, Step, ItemEntries;
    if doc == [] {
      assert p.out + [] == p.out;
    } else {
      var m := ParseBlock(p, doc[0]);
      ParseAppend(p, PrintBlock(doc[0]), Print(doc[1..]));
      ParsePrinted(m, doc[1..]);
      assert m.out + Entries(doc[1..]) == p.out + Entries(doc);
    }
  }
}
