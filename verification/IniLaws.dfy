/** The line language in the bytes of a line: which lines emit nothing, which continue a value, which are
    malformed, and what a byte-order mark changes. */
module IniLaws {
  import opened Hash
  import opened IniSyntax
  import opened IniRoundTrip

  /** The UTF-8 byte-order mark. */
  function Mark(): Str {
    [0xEF, 0xBB, 0xBF]
  }

  /** Where a line may begin: after the mark, on the first line. */
  function Skipped(lineno: nat, line: Str): (b: nat)
    ensures b <= |line|
  {
    if lineno == 1 && Mark() <= line then 3 else 0
  }

  /** The first character of the line at or after `b` that is not white space. */
  predicate FirstAt(line: Str, b: nat, i: nat) {
    b <= i < |line| && !White(line[i]) && forall j :: b <= j < i ==> White(line[j])
  }

  /** No inline comment begins between `i` and `j`. */
  predicate Reaches(line: Str, i: nat, j: nat) {
    i <= j < |line| && forall k :: i < k < j && White(line[k - 1]) ==> !Remark(line[k])
  }

  /** One of the characters is reached before an inline comment begins. */
  ghost predicate Finds(line: Str, i: nat, chars: set<bv8>) {
    exists j: nat :: Reaches(line, i, j) && line[j] in chars
  }

  lemma MarkIsBom(lineno: nat, line: Str)
    ensures Bom(lineno, line) == Skipped(lineno, line)
  {
    if HasBom(line) {
      assert line[..3] == Mark();
    }
  }

  // ---- The text of a line ------------------------------------------------------------------

  lemma {:induction false} RStripRest(s: Str)
    ensures forall i :: |RStrip(s)| <= i < |s| ==> White(s[i])
    decreases |s|
  {
    if s != [] && IsSpace(s[|s| - 1]) {
      RStripRest(s[..|s| - 1]);
      assert forall i :: 0 <= i < |s| - 1 ==> s[..|s| - 1][i] == s[i];
    }
  }

  /** The stripped line is empty if there is only white space. */
  lemma NoFirst(line: Str, b: nat)
    requires b <= |line| && forall i: nat :: !FirstAt(line, b, i)
    ensures Trim(line[b..]) == []
  {
    var s := RStrip(line[b..]);
    if Trim(line[b..]) != [] {
      assert line[b + Indent(s)] == s[Indent(s)];
      assert forall j :: b <= j < b + Indent(s) ==> line[j] == s[j - b];
      assert FirstAt(line, b, b + Indent(s));
    }
  }

  /** Otherwise it begins at the first other character, and only white space follows it. */
  lemma TextBegins(line: Str, b: nat, i: nat)
    requires FirstAt(line, b, i)
    ensures b + Indent(RStrip(line[b..])) == i
    ensures
      var text := Trim(line[b..]);
      && text != [] && text <= line[i..]
      && forall j :: i + |text| <= j < |line| ==> White(line[j])
  {
    var s := RStrip(line[b..]);
    assert forall j :: b <= j < |line| ==> line[b..][j - b] == line[j];
    RStripKeepsHead(line[b..], i - b);
    RStripRest(line[b..]);
    assert forall j :: 0 <= j < |s| ==> s[j] == line[b + j];
    hide RStrip;
    assert Indent(s) == i - b;
    assert s[i - b..] <= line[i..];
  }

  // ---- What kind of line it is -------------------------------------------------------------

  /** A scan for some characters finds one exactly if one is reached before an inline comment. */
  lemma {:induction false} ScanFinds(s: Str, chars: set<bv8>)
    ensures
      var e := Scan(s, chars, false);
      e < |s| && s[e] in chars <==> Finds(s, 0, chars)
  {
    ScanStops(s, chars, false);
    var e := Scan(s, chars, false);
    if e < |s| && s[e] in chars {
      assert Reaches(s, 0, e);
    }
  }

  lemma {:induction false} ScanStops(s: Str, chars: set<bv8>, wasSpace: bool)
    ensures
      var e := Scan(s, chars, wasSpace);
      && (forall j :: 0 <= j < e ==> s[j] !in chars)
      && (forall j :: 0 < j < e && White(s[j - 1]) ==> !Remark(s[j]))
      && (0 < e && wasSpace ==> !Remark(s[0]))
      && (e < |s| && s[e] !in chars ==> Remark(s[e]) && if e == 0 then wasSpace else White(s[e - 1]))
    decreases |s|
  {
    var e := Scan(s, chars, wasSpace);
    if e > 0 {
      ScanStops(s[1..], chars, IsSpace(s[0]));
      assert forall j :: 0 <= j < |s| - 1 ==> s[1..][j] == s[j + 1];
      assert forall j :: 0 < j < |s| ==> s[j] == s[1..][j - 1];
    }
  }

  /** The same on the line itself: what is reached in its text is reached from the text's first character. */
  lemma FindsInText(line: Str, i: nat, text: Str, chars: set<bv8>)
    requires i < |line| && text <= line[i..] && forall j :: i + |text| <= j < |line| ==> White(line[j])
    requires forall c :: c in chars ==> !White(c)
    ensures Finds(text, 0, chars) <==> Finds(line, i, chars)
  {
    assert forall j :: 0 <= j < |text| ==> text[j] == line[i + j];
    if Finds(text, 0, chars) {
      var j: nat :| Reaches(text, 0, j) && text[j] in chars;
      assert Reaches(line, i, i + j);
    }
    if Finds(line, i, chars) {
      var j: nat :| Reaches(line, i, j) && line[j] in chars;
      assert Reaches(text, 0, j - i);
    }
  }

  /** After a first character that is neither wanted nor white space, a search may begin with the next. */
  lemma FindsAfterFirst(text: Str, chars: set<bv8>)
    requires text != [] && text[0] !in chars && !White(text[0])
    ensures Finds(text[1..], 0, chars) <==> Finds(text, 0, chars)
  {
    var rest := text[1..];
    assert forall j :: 0 <= j < |rest| ==> rest[j] == text[j + 1];
    if Finds(rest, 0, chars) {
      var j: nat :| Reaches(rest, 0, j) && rest[j] in chars;
      assert Reaches(text, 0, j + 1);
    }
    if Finds(text, 0, chars) {
      var j: nat :| Reaches(text, 0, j) && text[j] in chars;
      assert Reaches(rest, 0, j - 1);
    }
  }

  /** The kind of a text by its first character. */
  predicate KindIs(kind: Kind, c: bv8, indented: bool, closes: bool, separates: bool) {
    if c == 0x3B || c == 0x23 then kind == Nothing
    else if indented then kind.Continued?
    else if c == 0x5B then (if closes then kind.Header? else kind.Malformed?)
    else if separates then kind.Pair?
    else kind.Malformed?
  }

  lemma TextKind(text: Str, start: nat, open: bool)
    requires text != [] && !White(text[0])
    ensures KindIs(Meaning(text, start, open), text[0], open && start > 0, Finds(text, 0, {0x5D}),
                   Finds(text, 0, {0x3D, 0x3A}))
  {
    ScanFinds(text[1..], CLOSERS);
    ScanFinds(text, SEPARATORS);
    if text[0] == 0x5B {
      FindsAfterFirst(text, CLOSERS);
      assert forall e :: 0 <= e < |text| - 1 ==> text[1..][e] == text[1 + e];
    }
    hide Scan, Finds, RStrip, Uncomment, LSkip;
  }

  /** A line of white space emits nothing. */
  lemma {:induction false} BlankLine(lineno: nat, line: Str, open: bool)
    requires forall i: nat :: !FirstAt(line, Skipped(lineno, line), i)
    ensures Classify(lineno, line, open) == Nothing
  {
    MarkIsBom(lineno, line);
    NoFirst(line, Skipped(lineno, line));
  }

  /** Any other line by its first character that is not white space: a comment, a further line of the value
      that is open, a section line or a name line, the latter two malformed exactly if no `]`, or no `=` and
      no `:`, comes before an inline comment. */
  lemma {:induction false} LineKind(lineno: nat, line: Str, open: bool, i: nat)
    requires FirstAt(line, Skipped(lineno, line), i)
    ensures KindIs(Classify(lineno, line, open), line[i], open && i > 0, Finds(line, i, {0x5D}),
                   Finds(line, i, {0x3D, 0x3A}))
  {
    MarkIsBom(lineno, line);
    var b := Skipped(lineno, line);
    var text := Trim(line[b..]);
    TextBegins(line, b, i);
    assert text[0] == line[i];
    hide Trim, RStrip, Indent, Meaning, KindIs, Finds, Skipped, Bom;
    FindsInText(line, i, text, {0x5D});
    FindsInText(line, i, text, {0x3D, 0x3A});
    TextKind(text, i, open);
  }

  /** Blank and comment lines are those without a first character and those where it is `;` or `#`. */
  lemma {:induction false} QuietExactly(line: Str)
    ensures Quiet(line) <==> forall i: nat :: FirstAt(line, 0, i) ==> line[i] == 0x3B || line[i] == 0x23
  {
    assert line[0..] == line;
    hide Trim, FirstAt;
    if i: nat :| FirstAt(line, 0, i) {
      TextBegins(line, 0, i);
      FirstIsOne(line, 0, i);
      assert Trim(line)[0] == line[i];
    } else {
      NoFirst(line, 0);
    }
  }

  lemma FirstIsOne(line: Str, b: nat, i: nat)
    requires FirstAt(line, b, i)
    ensures i < |line| && forall j: nat :: FirstAt(line, b, j) ==> j == i
  {
  }

  // ---- The byte-order mark -----------------------------------------------------------------

  lemma StartMatters(text: Str, m: nat, n: nat)
    ensures Meaning(text, m, false) == Meaning(text, n, false)
  {
    hide Scan, Uncomment, RStrip, LSkip, IsComment;
  }

  lemma ClassifyFrom(lineno: nat, line: Str, b: nat, text: Str, open: bool)
    requires Skipped(lineno, line) == b && line[b..] == text
    ensures Classify(lineno, line, open) == Meaning(LSkip(RStrip(text)), b + Indent(RStrip(text)), open)
  {
    hide Skipped, Bom, Meaning, RStrip, Indent, LSkip;
    MarkIsBom(lineno, line);
  }

  lemma MarkedParts(mark: Str, line: Str)
    ensures mark <= mark + line && (mark + line)[|mark|..] == line && line[0..] == line
  {
  }

  lemma SkippedMark(line: Str)
    ensures |Mark()| == 3 && Skipped(1, line) == if Mark() <= line then 3 else 0
  {
  }

  lemma MarkedLine(line: Str)
    requires !(Mark() <= line)
    ensures Classify(1, Mark() + line, false) == Classify(1, line, false)
  {
    hide *;
    MarkedParts(Mark(), line);
    SkippedMark(line);
    SkippedMark(Mark() + line);
    ClassifyFrom(1, Mark() + line, 3, line, false);
    ClassifyFrom(1, line, 0, line, false);
    StartMatters(LSkip(RStrip(line)), 3 + Indent(RStrip(line)), Indent(RStrip(line)));
  }

  lemma FirstStep(line: Str)
    ensures Step(START, line) == Apply(START.(lineno := 1), Classify(1, line, false))
  {
    hide Classify, Apply;
  }

  /** A byte-order mark before the first line is skipped: nothing comes out differently. */
  lemma {:induction false} MarkIsSkipped(line: Str, rest: seq<Str>)
    requires !([0xEF, 0xBB, 0xBF] <= line)
    ensures Parse(START, [[0xEF, 0xBB, 0xBF] + line] + rest) == Parse(START, [line] + rest)
  {
    assert Mark() == [0xEF, 0xBB, 0xBF];
    hide *;
    MarkedLine(line);
    FirstStep(line);
    FirstStep(Mark() + line);
    ParseCons(START, line, rest);
    ParseCons(START, Mark() + line, rest);
  }

  /** The document as an editor saves it that puts a byte-order mark before the first line. */
  function Marked(lines: seq<Str>): seq<Str> {
    if lines == [] then [] else [[0xEF, 0xBB, 0xBF] + lines[0]] + lines[1..]
  }

  /** A printed document says the same with a byte-order mark. */
  lemma {:induction false} MarkedDocument(doc: Document)
    ensures Parse(START, Marked(Print(doc))) == Parse(START, Print(doc))
  {
    hide Parse, PrintItems;
    if doc != [] {
      var lines := Print(doc);
      assert lines == PrintBlock(doc[0]) + Print(doc[1..]);
      assert lines[0] == PrintHeader(doc[0].section) && lines[0][0] == 0x5B;
      MarkIsSkipped(lines[0], lines[1..]);
      assert lines == [lines[0]] + lines[1..];
    }
  }
}
