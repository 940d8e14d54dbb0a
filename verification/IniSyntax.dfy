/** The INI line language as functions on byte strings: what one line means, what a sequence of
    lines emits, and which line is reported as the first error. */
module IniSyntax {
  import opened Hash

  const NEWLINE: bv8 := 0x0A
  const OPEN: bv8 := 0x5B      // [
  const CLOSE: bv8 := 0x5D     // ]

  /** Section and name buffers hold 127 characters and a terminator. */
  const MAX_NAME: nat := 128

  predicate IsSpace(c: bv8) {
    c == 0x20 || (0x09 <= c && c <= 0x0D)
  }

  /** `;` or `#`. */
  predicate IsComment(c: bv8) {
    c == 0x3B || c == 0x23
  }

  /** `]`, and `=` or `:`. */
  const CLOSERS: set<bv8> := {0x5D}
  const SEPARATORS: set<bv8> := {0x3D, 0x3A}

  function RStrip(s: Str): (r: Str)
    ensures r <= s
    ensures r != [] ==> !IsSpace(r[|r| - 1])
  {
    if s != [] && IsSpace(s[|s| - 1]) then RStrip(s[..|s| - 1]) else s
  }

  /** The number of leading white-space characters. */
  function Indent(s: Str): (n: nat)
    ensures n <= |s|
    ensures n < |s| ==> !IsSpace(s[n])
    ensures forall i :: 0 <= i < n ==> IsSpace(s[i])
  {
    if s != [] && IsSpace(s[0]) then 1 + Indent(s[1..]) else 0
  }

  function LSkip(s: Str): Str {
    s[Indent(s)..]
  }

  /** The offset of the first character of `chars`, or of an inline comment: a comment character
      after white space. The length when there is neither. */
  function Scan(s: Str, chars: set<bv8>, wasSpace: bool): (n: nat)
    ensures n <= |s|
  {
    if s == [] || s[0] in chars || (wasSpace && IsComment(s[0])) then 0
    else 1 + Scan(s[1..], chars, IsSpace(s[0]))
  }

  /** `strncpy0` into a section or name buffer: a source that does not fit leaves it empty. */
  function Copied(s: Str): Str {
    if |s| < MAX_NAME then s else []
  }

  /** What a value becomes when an inline comment and trailing white space are cut off. */
  function Uncomment(s: Str): Str {
    RStrip(s[..Scan(s, {}, false)])
  }

  datatype Kind =
    | Nothing
    | Continued(value: Str)
    | Header(section: Str)
    | Pair(name: Str, value: Str)
    | Malformed

  predicate HasBom(line: Str) {
    |line| >= 3 && line[0] == 0xEF && line[1] == 0xBB && line[2] == 0xBF
  }

  /** Where on the line the text begins: after a byte-order mark on the first line. */
  function Bom(lineno: nat, line: Str): (n: nat)
    ensures n <= |line|
  {
    if lineno == 1 && HasBom(line) then 3 else 0
  }

  /** The text of a line without surrounding white space. */
  function Trim(s: Str): Str {
    LSkip(RStrip(s))
  }

  /** What a line means when text on it begins at column `start` (zero for the first column) and
      `open` says that a name is open for continuation. */
  function Meaning(text: Str, start: nat, open: bool): Kind {
    if text == [] || IsComment(text[0]) then Nothing
    else if open && start > 0 then Continued(Uncomment(text))
    else if text[0] == OPEN then
      var e := 1 + Scan(text[1..], CLOSERS, false);
      if e < |text| && text[e] == CLOSE then Header(text[1..e]) else Malformed
    else
      var e := Scan(text, SEPARATORS, false);
      if e < |text| && text[e] in SEPARATORS then Pair(RStrip(text[..e]), Uncomment(LSkip(text[e + 1..])))
      else Malformed
  }

  function Classify(lineno: nat, line: Str, open: bool): Kind {
    var b := Bom(lineno, line);
    var stripped := RStrip(line[b..]);
    Meaning(LSkip(stripped), b + Indent(stripped), open)
  }

  datatype Entry = Entry(section: Str, name: Str, value: Str)

  /** The parser's variables between two lines, and everything passed to the handler so far. */
  datatype Parser = Parser(section: Str, prev: Str, lineno: nat, error: nat, out: seq<Entry>)

  const START: Parser := Parser([], [], 0, 0, [])

  function Apply(p: Parser, kind: Kind): Parser {
    match kind
    case Nothing => p
    case Continued(value) => p.(out := p.out + [Entry(p.section, p.prev, value)])
    case Header(section) => p.(section := Copied(section), prev := [])
    case Pair(name, value) => p.(prev := Copied(name), out := p.out + [Entry(p.section, name, value)])
    case Malformed => if p.error == 0 then p.(error := p.lineno) else p
  }

  function Step(p: Parser, line: Str): Parser {
    Apply(p.(lineno := p.lineno + 1), Classify(p.lineno + 1, line, p.prev != []))
  }

  function Parse(p: Parser, lines: seq<Str>): Parser
    decreases |lines|
  {
    if lines == [] then p else Parse(Step(p, lines[0]), lines[1..])
  }

  lemma {:induction false} ParseAppend(p: Parser, a: seq<Str>, b: seq<Str>)
    ensures Parse(p, a + b) == Parse(Parse(p, a), b)
    decreases |a|
  {
    if a == [] {
      assert a + b == b;
    } else {
      assert (a + b)[0] == a[0] && (a + b)[1..] == a[1..] + b;
      ParseAppend(Step(p, a[0]), a[1..], b);
    }
  }

  lemma ParseCons(p: Parser, line: Str, rest: seq<Str>)
    ensures Parse(p, [line] + rest) == Parse(Step(p, line), rest)
  {
    assert ([line] + rest)[1..] == rest;
  }

  lemma ParseOne(p: Parser, lines: seq<Str>, i: nat)
    requires i < |lines|
    ensures Parse(p, lines[..i + 1]) == Step(Parse(p, lines[..i]), lines[i])
  {
    assert lines[..i + 1] == lines[..i] + [lines[i]];
    ParseAppend(p, lines[..i], [lines[i]]);
    assert Parse(Step(Parse(p, lines[..i]), lines[i]), []) == Step(Parse(p, lines[..i]), lines[i]);
  }

  // ---- The reported error is the first malformed line --------------------------------------

  /** Line `i`, in the state the lines before it leave, is malformed. */
  predicate MalformedAt(lines: seq<Str>, i: nat)
    requires i < |lines|
  {
    Classify(i + 1, lines[i], Parse(START, lines[..i]).prev != []).Malformed?
  }

  lemma {:induction false} ParseCounts(p: Parser, lines: seq<Str>)
    ensures Parse(p, lines).lineno == p.lineno + |lines|
    decreases |lines|
  {
    if lines != [] {
      ParseCounts(Step(p, lines[0]), lines[1..]);
    }
  }

  /** The error is the number of the first malformed line of the input, or zero if there is none. */
  lemma {:induction false} ErrorIsFirst(lines: seq<Str>)
    ensures
      var e := Parse(START, lines).error;
      if e == 0 then forall i: nat :: i < |lines| ==> !MalformedAt(lines, i)
      else e <= |lines| && MalformedAt(lines, e - 1) && forall i: nat :: i < e - 1 ==> !MalformedAt(lines, i)
    decreases |lines|
  {
    hide Classify;
    if lines != [] {
      var n := |lines| - 1;
      var init := lines[..n];
      ErrorIsFirst(init);
      ParseOne(START, lines, n);
      ParseCounts(START, init);
      assert lines[..n + 1] == lines;
      forall i: nat | i < n ensures MalformedAt(lines, i) == MalformedAt(init, i) {
        assert init[..i] == lines[..i];
      }
    }
  }

  // ---- Blank and comment lines -------------------------------------------------------------

  /** A blank or comment-only line. */
  predicate Quiet(line: Str) {
    var text := Trim(line);
    text == [] || IsComment(text[0])
  }

  /** Such a line cannot carry a byte-order mark. */
  lemma QuietHasNoBom(line: Str)
    requires Quiet(line)
    ensures !HasBom(line)
  {
    if HasBom(line) {
      RStripKeepsHead(line, 0);
    }
  }

  /** White space is only stripped from the end: up to a non-space character nothing is lost. */
  lemma {:induction false} RStripKeepsHead(s: Str, i: nat)
    requires i < |s| && !IsSpace(s[i])
    ensures i < |RStrip(s)|
    decreases |s|
  {
    if IsSpace(s[|s| - 1]) {
      assert s[..|s| - 1][i] == s[i];
      RStripKeepsHead(s[..|s| - 1], i);
    }
  }

  /** Two parsers that agree on everything but the line number and the error. */
  predicate Alike(p: Parser, q: Parser) {
    p.section == q.section && p.prev == q.prev && p.out == q.out
  }

  /** The line number matters only to the byte-order mark, and to the error reported. */
  lemma SameKind(m: nat, n: nat, line: Str, open: bool)
    requires 0 < m < n && (m == 1 ==> !HasBom(line))
    ensures Classify(m, line, open) == Classify(n, line, open)
  {
    assert Bom(m, line) == Bom(n, line) == 0;
    hide Bom, RStrip, LSkip, Indent, Meaning;
  }

  lemma ShiftedApply(p: Parser, q: Parser, kind: Kind)
    requires Alike(p, q) && 0 < p.lineno < q.lineno && (p.error == 0) == (q.error == 0)
    ensures
      var p', q' := Apply(p, kind), Apply(q, kind);
      && Alike(p', q') && p'.lineno == p.lineno && q'.lineno == q.lineno
      && (if p.error != 0 then p'.error == p.error && q'.error == q.error
          else (p'.error == q'.error == 0) || (p'.error == p.lineno && q'.error == q.lineno))
  {
    hide Copied;
  }

  lemma ShiftedStep(p: Parser, q: Parser, line: Str)
    requires Alike(p, q) && q.lineno > p.lineno && (p.lineno == 0 ==> !HasBom(line))
    requires (p.error == 0) == (q.error == 0)
    ensures
      var p', q' := Step(p, line), Step(q, line);
      && Alike(p', q') && p'.lineno == p.lineno + 1 && q'.lineno == q.lineno + 1
      && (if p.error != 0 then p'.error == p.error && q'.error == q.error
          else (p'.error == q'.error == 0) || (p'.error == p'.lineno && q'.error == q'.lineno))
  {
    hide Classify, Apply, HasBom;
    SameKind(p.lineno + 1, q.lineno + 1, line, p.prev != []);
    ShiftedApply(p.(lineno := p.lineno + 1), q.(lineno := q.lineno + 1),
                 Classify(p.lineno + 1, line, p.prev != []));
  }

  /** Reading on from later line numbers changes only the reported number. */
  lemma {:induction false} ShiftedParse(p: Parser, q: Parser, lines: seq<Str>)
    requires Alike(p, q) && q.lineno > p.lineno
    requires p.lineno == 0 && lines != [] ==> !HasBom(lines[0])
    requires (p.error == 0) == (q.error == 0)
    ensures Alike(Parse(p, lines), Parse(q, lines))
    ensures
      var e, f := Parse(p, lines).error, Parse(q, lines).error;
      f == if p.error != 0 then q.error else if e == 0 then 0 else e + q.lineno - p.lineno
    ensures p.error != 0 ==> Parse(p, lines).error == p.error
    decreases |lines|
  {
    hide Step, HasBom;
    if lines != [] {
      ShiftedStep(p, q, lines[0]);
      ShiftedParse(Step(p, lines[0]), Step(q, lines[0]), lines[1..]);
    }
  }

  lemma QuietStep(p: Parser, quiet: Str)
    requires Quiet(quiet)
    ensures Step(p, quiet) == p.(lineno := p.lineno + 1)
    ensures Parse(p, [quiet]) == p.(lineno := p.lineno + 1)
  {
    QuietHasNoBom(quiet);
    assert Classify(p.lineno + 1, quiet, p.prev != []) == Nothing;
    assert Parse(Step(p, quiet), []) == Step(p, quiet);
  }

  /** Inserting a blank or comment-only line anywhere in an input without a byte-order mark, even
      inside a multi-line value, changes nothing that is emitted; an error after it moves by one. */
  lemma {:induction false} QuietLineChangesNothing(lines: seq<Str>, i: nat, quiet: Str)
    requires i <= |lines| && Quiet(quiet)
    requires lines != [] ==> !HasBom(lines[0])
    ensures
      var before, after := Parse(START, lines), Parse(START, lines[..i] + [quiet] + lines[i..]);
      && after.out == before.out && after.section == before.section && after.prev == before.prev
      && after.error == if before.error <= i then before.error else before.error + 1
  {
    var a, b := lines[..i], lines[i..];
    var p := Parse(START, a);
    QuietStep(p, quiet);
    hide Classify, Step, Quiet, Parse, HasBom;
    assert a + b == lines;
    ParseAppend(START, a, b);
    ParseAppend(START, a + [quiet], b);
    ParseAppend(START, a, [quiet]);
    ParseCounts(START, a);
    ShiftedParse(p, p.(lineno := p.lineno + 1), b);
    ErrorBounds(a, b);
  }

  /** An error found in the first part is within it; one found later is after it. */
  lemma ErrorBounds(a: seq<Str>, b: seq<Str>)
    ensures Parse(START, a).error <= |a|
    ensures Parse(START, a).error == 0 && Parse(START, a + b).error != 0 ==> Parse(START, a + b).error > |a|
    ensures Parse(START, a).error != 0 ==> Parse(START, a + b).error == Parse(START, a).error
  {
    hide Classify;
    ErrorIsFirst(a);
    ErrorIsFirst(a + b);
    forall i: nat | i < |a| ensures MalformedAt(a + b, i) == MalformedAt(a, i) {
      assert (a + b)[..i] == a[..i] && (a + b)[i] == a[i];
    }
  }
}
