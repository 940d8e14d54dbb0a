/** The INI parser as it runs: one character buffer, cut and stripped in place, and the reader object
    its handler fills. Every method is proved against the functions of `IniSyntax` and `IniStore`. */
module IniReader {
  import opened Hash
  import opened IniSyntax
  import opened IniStore
  import opened Options
  import Laws = IniLaws
  import RT = IniRoundTrip

  // ---- C strings in a buffer ---------------------------------------------------------------

  ghost predicate Terminated(b: Str, s: nat) {
    exists i :: s <= i < |b| && b[i] == 0
  }

  /** The C string that begins at offset `s`. */
  ghost function At(b: Str, s: nat): Str
    requires s <= |b|
  {
    CStr(b[s..])
  }

  /** A C string reaches up to its terminator. */
  lemma AtEnds(b: Str, s: nat)
    requires s <= |b| && Terminated(b, s)
    ensures s + |At(b, s)| < |b| && b[s + |At(b, s)|] == 0
    ensures forall i :: 0 <= i < |At(b, s)| ==> At(b, s)[i] == b[s + i] != 0
  {
    var i :| s <= i < |b| && b[i] == 0;
    var r := At(b, s);
    assert b[s..][i - s] == 0;
    assert forall j :: 0 <= j < |r| ==> r[j] == b[s..][j] == b[s + j];
    assert |r| <= i - s;
  }

  /** What lies between `s` and the first NUL at `s + n` is the C string at `s`. */
  lemma AtIs(b: Str, s: nat, n: nat)
    requires s + n < |b| && b[s + n] == 0 && forall i :: s <= i < s + n ==> b[i] != 0
    ensures Terminated(b, s) && At(b, s) == b[s..s + n]
  {
    CStrUnique(b[s..], n);
    assert b[s..][..n] == b[s..s + n];
  }

  /** Inside a C string there is another one: its tail. */
  lemma AtTail(b: Str, s: nat, k: nat)
    requires s <= |b| && Terminated(b, s) && k <= |At(b, s)|
    ensures Terminated(b, s + k) && At(b, s + k) == At(b, s)[k..]
  {
    AtEnds(b, s);
    AtIs(b, s + k, |At(b, s)| - k);
  }

  /** The buffers agree except between offsets `s` and `e`. */
  ghost predicate SameOutside(b: Str, b': Str, s: nat, e: nat) {
    |b'| == |b| && forall i :: 0 <= i < |b| && !(s <= i < e) ==> b'[i] == b[i]
  }

  lemma Outside(b: Str, b': Str, p: nat, s: nat, e: nat)
    requires |b'| == |b| && s <= p && forall i :: 0 <= i < |b| && !(p <= i < e) ==> b'[i] == b[i]
    ensures SameOutside(b, b', s, e)
  {
  }

  /** C strings wholly before or wholly after the changed stretch stay. */
  lemma AtOutside(b: Str, b': Str, s: nat, e: nat, t: nat)
    requires SameOutside(b, b', s, e) && t <= |b| && Terminated(b, t)
    requires e <= t || t + |At(b, t)| < s
    ensures Terminated(b', t) && At(b', t) == At(b, t)
  {
    AtEnds(b, t);
    AtIs(b', t, |At(b, t)|);
  }

  /** Writing a NUL inside a C string cuts it there. */
  lemma AtCut(b: Str, s: nat, k: nat)
    requires s <= |b| && Terminated(b, s) && k <= |At(b, s)|
    ensures s + k < |b|
    ensures Terminated(b[s + k := 0], s) && At(b[s + k := 0], s) == At(b, s)[..k]
  {
    AtEnds(b, s);
    AtIs(b[s + k := 0], s, k);
  }

  method StrLen(a: array<bv8>, s: nat) returns (n: nat)
    requires s <= a.Length && Terminated(a[..], s)
    ensures n == |At(a[..], s)|
  {
    AtEnds(a[..], s);
    n := 0;
    while a[s + n] != 0
      invariant n <= |At(a[..], s)|
      decreases |At(a[..], s)| - n
    {
      n := n + 1;
    }
  }

  /** The C string at `s` as a value: what constructing a string from the pointer yields. */
  method StringAt(a: array<bv8>, s: nat) returns (r: Str)
    requires s <= a.Length && Terminated(a[..], s)
    ensures r == At(a[..], s)
  {
    var n := StrLen(a, s);
    AtEnds(a[..], s);
    r := a[s..s + n];
    assert r == At(a[..], s);
  }

  // ---- The parser's helpers ----------------------------------------------------------------

  lemma RStripOne(t: Str, k: nat)
    requires k <= |t|
    ensures 0 < k && IsSpace(t[k - 1]) ==> RStrip(t[..k]) == RStrip(t[..k - 1])
    ensures k == 0 || !IsSpace(t[k - 1]) ==> RStrip(t[..k]) == t[..k]
  {
    if 0 < k {
      assert t[..k][..k - 1] == t[..k - 1];
    }
  }

  /** One character of trailing white space makes no difference; without it nothing is stripped. */
  lemma RStripStep(b: Str, s: nat, p: nat)
    requires s <= |b| && Terminated(b, s) && s <= p <= s + |At(b, s)|
    requires RStrip(At(b, s)[..p - s]) == RStrip(At(b, s))
    ensures p < |b|
    ensures s < p && IsSpace(b[p - 1]) ==> RStrip(At(b, s)[..p - 1 - s]) == RStrip(At(b, s))
    ensures s == p || !IsSpace(b[p - 1]) ==> RStrip(At(b, s)) == At(b, s)[..p - s]
  {
    hide *;
    AtEnds(b, s);
    RStripOne(At(b, s), p - s);
  }

  /** A buffer that agrees with `b` up to `p` and is cut there. */
  lemma AtPrefix(b: Str, b': Str, s: nat, p: nat)
    requires s <= |b| && Terminated(b, s) && s <= p <= s + |At(b, s)| && p < |b'|
    requires b'[p] == 0 && forall i :: s <= i < p && i < |b| ==> b'[i] == b[i]
    ensures Terminated(b', s) && At(b', s) == At(b, s)[..p - s]
  {
    AtEnds(b, s);
    AtIs(b', s, p - s);
  }

  /** What the stripping loop leaves: white space was cut down to offset `p`, and none is left there. */
  lemma StrippedAt(b: Str, c: Str, s: nat, n: nat, p: nat)
    requires s <= |b| && Terminated(b, s) && n == |At(b, s)| && s <= p <= s + n < |b| && |c| == |b| && c[p] == 0
    requires forall i :: 0 <= i < |c| && !(p <= i < s + n) ==> c[i] == b[i]
    requires RStrip(At(b, s)[..p - s]) == RStrip(At(b, s))
    requires p == s || !IsSpace(b[p - 1])
    ensures Terminated(c, s) && At(c, s) == RStrip(At(b, s)) && SameOutside(b, c, s, s + n)
  {
    hide *;
    RStripStep(b, s, p);
    AtPrefix(b, c, s, p);
    Outside(b, c, p, s, s + n);
  }

  /** Strips white space off the end of the C string at `s`, in place. */
  method RStripInPlace(a: array<bv8>, s: nat)
    requires s <= a.Length && Terminated(a[..], s)
    modifies a
    ensures Terminated(a[..], s) && At(a[..], s) == RStrip(old(At(a[..], s)))
    ensures SameOutside(old(a[..]), a[..], s, s + |old(At(a[..], s))|)
  {
    hide RStrip, IsSpace;
    ghost var b := a[..];
    var n := StrLen(a, s);
    AtEnds(b, s);
    hide *;
    var p := s + n;
    assert At(b, s)[..n] == At(b, s);
    while p > s && IsSpace(a[p - 1])
      invariant s <= p <= s + n < a.Length
      invariant a[p] == 0
      invariant forall i :: 0 <= i < a.Length && !(p <= i < s + n) ==> a[i] == b[i]
      invariant RStrip(At(b, s)[..p - s]) == RStrip(At(b, s))
    {
      RStripStep(b, s, p);
      p := p - 1;
      a[p] := 0;
    }
    StrippedAt(b, a[..], s, n, p);
  }

  /** The offset of the first character that is not white space. */
  method LSkipFrom(a: array<bv8>, s: nat) returns (p: nat)
    requires s <= a.Length && Terminated(a[..], s)
    ensures p == s + Indent(At(a[..], s))
    ensures p <= a.Length && Terminated(a[..], p) && At(a[..], p) == LSkip(At(a[..], s))
  {
    hide IsSpace, CStr;
    ghost var text := At(a[..], s);
    AtEnds(a[..], s);
    p := s;
    assert text[0..] == text;
    while a[p] != 0 && IsSpace(a[p])
      invariant s <= p <= s + |text|
      invariant p - s + Indent(text[p - s..]) == Indent(text)
      decreases s + |text| - p
    {
      assert text[p - s..][1..] == text[p + 1 - s..];
      p := p + 1;
    }
    AtTail(a[..], s, p - s);
  }

  method FindCharsOrComment(a: array<bv8>, s: nat, chars: set<bv8>) returns (p: nat)
    requires s <= a.Length && Terminated(a[..], s)
    ensures p == s + Scan(At(a[..], s), chars, false) && p < a.Length
    ensures a[p] == CharAt(At(a[..], s), p - s)
  {
    ghost var text := At(a[..], s);
    AtEnds(a[..], s);
    var wasSpace := false;
    p := s;
    assert text[0..] == text;
    while a[p] != 0 && a[p] !in chars && !(wasSpace && IsComment(a[p]))
      invariant s <= p <= s + |text|
      invariant p - s + Scan(text[p - s..], chars, wasSpace) == Scan(text, chars, false)
      decreases s + |text| - p
    {
      assert text[p - s..][1..] == text[p + 1 - s..];
      wasSpace := IsSpace(a[p]);
      p := p + 1;
    }
  }

  /** Ends the C string at `s` at offset `p` of the buffer. */
  method Cut(a: array<bv8>, s: nat, p: nat)
    requires s <= a.Length && Terminated(a[..], s) && s <= p <= s + |At(a[..], s)|
    modifies a
    ensures Terminated(a[..], s) && At(a[..], s) == old(At(a[..], s))[..p - s]
    ensures SameOutside(old(a[..]), a[..], p, p + 1)
  {
    AtCut(a[..], s, p - s);
    ghost var b := a[..];
    a[p] := 0;
    assert a[..] == b[p := 0];
  }

  /** Cuts the C string at `s` at an inline comment and strips it. */
  method CutComment(a: array<bv8>, s: nat)
    requires s <= a.Length && Terminated(a[..], s)
    modifies a
    ensures Terminated(a[..], s) && At(a[..], s) == Uncomment(old(At(a[..], s)))
    ensures SameOutside(old(a[..]), a[..], s, s + |old(At(a[..], s))|)
  {
    hide At, Terminated, Scan, RStrip;
    ghost var text := At(a[..], s);
    AtEnds(a[..], s);
    var end := FindCharsOrComment(a, s, {});
    if a[end] != 0 {
      Cut(a, s, end);
    } else {
      assert text[..end - s] == text;
    }
    RStripInPlace(a, s);
  }

  lemma HeaderMeaning(text: Str)
    requires text != [] && text[0] == OPEN
    ensures
      var e := Scan(text[1..], CLOSERS, false);
      Meaning(text, 0, false) == if CharAt(text[1..], e) == CLOSE then Header(text[1..][..e]) else Malformed
  {
    var e := Scan(text[1..], CLOSERS, false);
    assert text[1..][..e] == text[1..1 + e];
  }

  /** A section line in the buffer: the name is the C string after the bracket, up to its end. */
  lemma HeaderFacts(b: Str, s: nat)
    requires s <= |b| && Terminated(b, s) && At(b, s) != [] && At(b, s)[0] == OPEN
    ensures s + 1 <= |b| && Terminated(b, s + 1)
    ensures
      var rest := At(b, s + 1);
      var e := Scan(rest, CLOSERS, false);
      Meaning(At(b, s), 0, false) == if CharAt(rest, e) == CLOSE then Header(rest[..e]) else Malformed
  {
    HeaderMeaning(At(b, s));
    AtEnds(b, s);
    AtTail(b, s, 1);
  }

  lemma PairMeaning(text: Str)
    requires text != [] && text[0] != OPEN && !IsComment(text[0])
    ensures
      var e := Scan(text, SEPARATORS, false);
      && (CharAt(text, e) in SEPARATORS ==> e < |text|)
      && Meaning(text, 0, false) == if CharAt(text, e) in SEPARATORS
                                    then Pair(RStrip(text[..e]), Uncomment(LSkip(text[e + 1..]))) else Malformed
  {
    hide Scan, RStrip, LSkip, Uncomment, IsComment;
  }

  /** A `[section]` line, the text of which begins at `s`. */
  method ReadHeader(a: array<bv8>, s: nat) returns (ok: bool, section: Str)
    requires s <= a.Length && Terminated(a[..], s)
    requires At(a[..], s) != [] && At(a[..], s)[0] == OPEN
    modifies a
    ensures Meaning(old(At(a[..], s)), 0, false) == if ok then Header(section) else Malformed
  {
    hide *;
    HeaderFacts(a[..], s);
    var end := FindCharsOrComment(a, s + 1, CLOSERS);
    ok, section := a[end] == CLOSE, [];
    if ok {
      Cut(a, s + 1, end);
      section := StringAt(a, s + 1);
    }
  }

  lemma RestOfLine(b: Str, c: Str, d: Str, s: nat, end: nat)
    requires s <= |b| && Terminated(b, s) && s <= end < s + |At(b, s)|
    requires SameOutside(b, c, end, end + 1) && SameOutside(c, d, s, end)
    ensures end < |b| && Terminated(d, end + 1) && At(d, end + 1) == At(b, s)[end + 1 - s..]
  {
    hide *;
    AtEnds(b, s);
    AtTail(b, s, end + 1 - s);
    AtOutside(b, c, end, end + 1, end + 1);
    AtOutside(c, d, s, end, end + 1);
  }

  /** Ends the name that begins at `s` before the separator at `end`; the rest of the line stays. */
  method EndName(a: array<bv8>, s: nat, end: nat)
    requires s <= a.Length && Terminated(a[..], s) && s <= end < s + |At(a[..], s)|
    modifies a
    ensures end < a.Length
    ensures Terminated(a[..], s) && At(a[..], s) == RStrip(old(At(a[..], s))[..end - s])
    ensures Terminated(a[..], end + 1) && At(a[..], end + 1) == old(At(a[..], s))[end + 1 - s..]
  {
    hide *;
    ghost var b := a[..];
    Cut(a, s, end);
    ghost var c := a[..];
    RStripInPlace(a, s);
    RestOfLine(b, c, a[..], s, end);
  }

  /** Ends the value that begins at `v`; the name before it stays. */
  method EndValue(a: array<bv8>, s: nat, v: nat)
    requires v <= a.Length && Terminated(a[..], v) && s <= a.Length && Terminated(a[..], s)
    requires s + |At(a[..], s)| < v
    modifies a
    ensures Terminated(a[..], s) && At(a[..], s) == old(At(a[..], s))
    ensures Terminated(a[..], v) && At(a[..], v) == Uncomment(old(At(a[..], v)))
  {
    hide *;
    ghost var b := a[..];
    CutComment(a, v);
    AtOutside(b, a[..], v, v + |At(b, v)|, s);
  }

  /** The name before the separator at `end`, and the value after it. */
  method SplitPair(a: array<bv8>, s: nat, end: nat) returns (name: Str, value: Str)
    requires s <= a.Length && Terminated(a[..], s) && s <= end < s + |At(a[..], s)|
    modifies a
    ensures name == RStrip(old(At(a[..], s))[..end - s])
    ensures value == Uncomment(LSkip(old(At(a[..], s))[end + 1 - s..]))
  {
    hide *;
    EndName(a, s, end);
    var v := LSkipFrom(a, end + 1);
    EndValue(a, s, v);
    name := StringAt(a, s);
    value := StringAt(a, v);
  }

  /** A `name = value` line, the text of which begins at `s`. */
  method ReadPair(a: array<bv8>, s: nat) returns (ok: bool, name: Str, value: Str)
    requires s <= a.Length && Terminated(a[..], s)
    requires At(a[..], s) != [] && At(a[..], s)[0] != OPEN && !IsComment(At(a[..], s)[0])
    modifies a
    ensures Meaning(old(At(a[..], s)), 0, false) == if ok then Pair(name, value) else Malformed
  {
    PairMeaning(At(a[..], s));
    hide *;
    var end := FindCharsOrComment(a, s, SEPARATORS);
    ok, name, value := a[end] in SEPARATORS, [], [];
    if ok {
      name, value := SplitPair(a, s, end);
    }
  }

  /** The stripped text of the line begins at `start` of the buffer, as it does in the line itself. */
  ghost predicate TextAt(lineno: nat, line: Str, b: Str, start: nat) {
    var stripped := RStrip(line[Laws.Skipped(lineno, line)..]);
    && start == Laws.Skipped(lineno, line) + Indent(stripped)
    && start <= |b| && Terminated(b, start) && At(b, start) == LSkip(stripped)
  }

  lemma TextMeans(lineno: nat, line: Str, b: Str, start: nat, open: bool)
    requires TextAt(lineno, line, b, start)
    ensures start <= |b| && Terminated(b, start)
    ensures Classify(lineno, line, open) == Meaning(At(b, start), start, open)
  {
    hide Classify, Meaning, RStrip, Indent, LSkip, At, Terminated;
    Laws.ClassifyFrom(lineno, line, Laws.Skipped(lineno, line), line[Laws.Skipped(lineno, line)..], open);
  }

  /** The mark shows in the buffer: a terminator in its place ends the comparison. */
  lemma AtMark(lineno: nat, b: Str)
    requires Terminated(b, 0)
    ensures 0 < |b| && (b[0] == 0xEF ==> 1 < |b| && (b[1] == 0xBB ==> 2 < |b|))
    ensures Laws.Skipped(lineno, At(b, 0)) ==
      if lineno == 1 && b[0] == 0xEF && b[1] == 0xBB && b[2] == 0xBF then 3 else 0
  {
    AtEnds(b, 0);
    hide At;
  }

  lemma TextFound(lineno: nat, line: Str, b: Str, start: nat)
    requires start == Laws.Skipped(lineno, line) + Indent(RStrip(line[Laws.Skipped(lineno, line)..]))
    requires start <= |b| && Terminated(b, start)
    requires At(b, start) == LSkip(RStrip(line[Laws.Skipped(lineno, line)..]))
    ensures TextAt(lineno, line, b, start)
  {
    hide Laws.Skipped, Indent, RStrip, LSkip, At, Terminated;
  }

  /** Steps over a byte-order mark on the first line, strips the line and finds where its text begins. */
  method FindText(a: array<bv8>, lineno: nat) returns (start: nat)
    requires Terminated(a[..], 0)
    modifies a
    ensures TextAt(lineno, old(At(a[..], 0)), a[..], start)
  {
    hide *;
    ghost var line := At(a[..], 0);
    AtMark(lineno, a[..]);
    start := 0;
    if lineno == 1 && a[0] == 0xEF && a[1] == 0xBB && a[2] == 0xBF {
      start := 3;
    }
    AtTail(a[..], 0, start);
    RStripInPlace(a, start);
    start := LSkipFrom(a, start);
    TextFound(lineno, line, a[..], start);
  }

  // ---- The stream --------------------------------------------------------------------------

  const MAX_LINE: nat := 32768

  /** How many bytes `fgets` takes: through the next line feed, at most `limit`. */
  function ChunkLength(text: Str, limit: nat): (n: nat)
    ensures n <= |text| && n <= limit
    ensures text != [] && limit > 0 ==> n > 0
  {
    if text == [] || limit == 0 then 0
    else if text[0] == NEWLINE then 1
    else 1 + ChunkLength(text[1..], limit - 1)
  }

  /** The C strings successive calls of `fgets` leave in a buffer of `MAX_LINE` bytes. */
  function Lines(text: Str): seq<Str> {
    if text == [] then []
    else
      var n := ChunkLength(text, MAX_LINE - 1);
      [CStr(text[..n])] + Lines(text[n..])
  }

  /** What a NUL after some text makes of it. */
  lemma AtCopied(b: Str, text: Str)
    requires |text| < |b| && b[..|text|] == text && b[|text|] == 0
    ensures Terminated(b, 0) && At(b, 0) == CStr(text)
  {
    var n := |CStr(text)|;
    assert forall i :: 0 <= i < |text| ==> b[i] == text[i];
    AtIs(b, 0, n);
    assert b[0..n] == CStr(text);
  }

  lemma ChunkNext(rest: Str, i: nat, max: nat)
    requires i < |rest| && max > 0
    ensures ChunkLength(rest[i..], max) == if rest[i] == NEWLINE then 1 else 1 + ChunkLength(rest[i + 1..], max - 1)
  {
    assert rest[i..][0] == rest[i] && rest[i..][1..] == rest[i + 1..];
  }

  /** `fgets`: copies from position `pos` of the stream into the buffer. */
  method FGets(a: array<bv8>, text: Str, pos: nat) returns (next: nat)
    requires pos < |text| && a.Length == MAX_LINE
    modifies a
    ensures pos < next == pos + ChunkLength(text[pos..], MAX_LINE - 1) <= |text|
    ensures Terminated(a[..], 0) && At(a[..], 0) == CStr(text[pos..next])
  {
    hide ChunkLength, CStr, At;
    ghost var rest := text[pos..];
    ghost var n := ChunkLength(rest, MAX_LINE - 1);
    var i := 0;
    var more := true;
    assert rest[0..] == rest;
    while more && i < MAX_LINE - 1 && pos + i < |text|
      invariant i <= n && pos + i <= |text|
      invariant more ==> i + ChunkLength(rest[i..], MAX_LINE - 1 - i) == n
      invariant !more ==> i == n
      invariant a[..i] == rest[..i]
      decreases more, |text| - i
    {
      var c := text[pos + i];
      ChunkNext(rest, i, MAX_LINE - 1 - i);
      a[i] := c;
      i := i + 1;
      more := c != NEWLINE;
    }
    a[i] := 0;
    next := pos + i;
    assert rest[..n] == text[pos..next];
    AtCopied(a[..], text[pos..next]);
  }

  function Text(lines: seq<Str>): Str {
    if lines == [] then [] else lines[0] + Text(lines[1..])
  }

  /** A line as a file holds it: short enough, without NUL, and ending in its only line feed. */
  predicate FileLine(line: Str) {
    && 0 < |line| < MAX_LINE && NulFree(line) && line[|line| - 1] == NEWLINE
    && forall i :: 0 <= i < |line| - 1 ==> line[i] != NEWLINE
  }

  lemma {:induction false} ChunkOfLine(line: Str, rest: Str, limit: nat)
    requires 0 < |line| <= limit && line[|line| - 1] == NEWLINE
    requires forall i :: 0 <= i < |line| - 1 ==> line[i] != NEWLINE
    ensures ChunkLength(line + rest, limit) == |line|
    decreases |line|
  {
    assert (line + rest)[0] == line[0] && (line + rest)[1..] == line[1..] + rest;
    if |line| > 1 {
      assert forall i :: 0 <= i < |line| - 2 ==> line[1..][i] == line[i + 1];
      ChunkOfLine(line[1..], rest, limit - 1);
    }
  }

  /** Reading a file line by line gives the lines it was written with. */
  lemma {:induction false} LinesOfText(lines: seq<Str>)
    requires forall i :: 0 <= i < |lines| ==> FileLine(lines[i])
    ensures Lines(Text(lines)) == lines
    decreases |lines|
  {
    if lines != [] {
      var line, rest := lines[0], Text(lines[1..]);
      ChunkOfLine(line, rest, MAX_LINE - 1);
      CStrOfNulFree(line);
      assert (line + rest)[..|line|] == line && (line + rest)[|line|..] == rest;
      LinesOfText(lines[1..]);
    }
  }

  /** What a line of a file can hold. */
  predicate FileText(s: Str) {
    NulFree(s) && forall i :: 0 <= i < |s| ==> s[i] != NEWLINE
  }

  predicate FileItem(item: RT.Item) {
    && FileText(item.name) && FileText(item.first) && |item.name| + |item.first| + 2 < 32768
    && forall i :: 0 <= i < |item.more| ==> FileText(item.more[i]) && |item.more[i]| + 2 < 32768
  }

  predicate FileBlock(b: RT.Block) {
    && FileText(b.section) && |b.section| + 3 < 32768
    && forall i :: 0 <= i < |b.items| ==> FileItem(b.items[i])
  }

  /** The sections, names and values of the document are free of NULs and line feeds, and short enough. */
  predicate FileDocument(doc: RT.Document) {
    forall k :: 0 <= k < |doc| ==> FileBlock(doc[k])
  }

  predicate FileLines(lines: seq<Str>) {
    forall i :: 0 <= i < |lines| ==> FileLine(lines[i])
  }

  lemma FileLinesJoin(a: seq<Str>, b: seq<Str>)
    ensures FileLines(a + b) <==> FileLines(a) && FileLines(b)
  {
    hide FileLine;
    assert forall i :: 0 <= i < |a| ==> (a + b)[i] == a[i];
    assert forall i :: 0 <= i < |b| ==> (a + b)[|a| + i] == b[i];
  }

  lemma FileTextJoin(a: Str, b: Str)
    ensures FileText(a + b) <==> FileText(a) && FileText(b)
  {
    assert forall i :: 0 <= i < |a| ==> (a + b)[i] == a[i];
    assert forall i :: 0 <= i < |b| ==> (a + b)[|a| + i] == b[i];
  }

  lemma LineOf(text: Str)
    ensures FileLine(text + [NEWLINE]) <==> FileText(text) && |text| + 1 < MAX_LINE
  {
    var line := text + [NEWLINE];
    assert forall i :: 0 <= i < |text| ==> line[i] == text[i];
  }

  lemma OneFileLine(line: Str)
    ensures FileLines([line]) <==> FileLine(line)
  {
    assert [line][0] == line;
  }

  lemma {:induction false} MoreFileLines(indent: RT.Indentation, lines: seq<Str>)
    ensures FileLines(RT.PrintMore(indent, lines)) <==>
      forall i :: 0 <= i < |lines| ==> FileText(lines[i]) && |lines[i]| + 2 < MAX_LINE
    decreases |lines|
  {
    if lines != [] {
      var text := [indent] + lines[0];
      assert RT.PrintContinuation(indent, lines[0]) == text + [NEWLINE];
      FileTextJoin([indent], lines[0]);
      LineOf(text);
      FileLinesJoin([RT.PrintContinuation(indent, lines[0])], RT.PrintMore(indent, lines[1..]));
      MoreFileLines(indent, lines[1..]);
      hide FileText, FileLine, RT.PrintContinuation;
      OneFileLine(RT.PrintContinuation(indent, lines[0]));
      assert lines == [lines[0]] + lines[1..];
    }
  }

  lemma ItemFileLines(item: RT.Item)
    ensures FileLines(RT.PrintItem(item)) <==> FileItem(item)
  {
    var text := item.name + [item.sep] + item.first;
    assert RT.PrintPair(item.name, item.sep, item.first) == text + [NEWLINE];
    FileTextJoin(item.name + [item.sep], item.first);
    FileTextJoin(item.name, [item.sep]);
    LineOf(text);
    FileLinesJoin([RT.PrintPair(item.name, item.sep, item.first)], RT.PrintMore(item.indent, item.more));
    MoreFileLines(item.indent, item.more);
    hide FileLine, RT.PrintPair, RT.PrintMore;
    OneFileLine(RT.PrintPair(item.name, item.sep, item.first));
  }

  lemma {:induction false} ItemsFileLines(items: seq<RT.Item>)
    ensures FileLines(RT.PrintItems(items)) <==> forall i :: 0 <= i < |items| ==> FileItem(items[i])
    decreases |items|
  {
    hide FileLines, FileItem;
    if items == [] {
      assert FileLines([]) by { NoFileLines(); }
    } else {
      FileLinesJoin(RT.PrintItem(items[0]), RT.PrintItems(items[1..]));
      ItemFileLines(items[0]);
      ItemsFileLines(items[1..]);
      assert items == [items[0]] + items[1..];
    }
  }

  lemma NoFileLines()
    ensures FileLines([])
  {
  }

  lemma BlockFileLines(b: RT.Block)
    ensures FileLines(RT.PrintBlock(b)) <==> FileBlock(b)
  {
    var text := [OPEN] + b.section + [CLOSE];
    assert RT.PrintHeader(b.section) == text + [NEWLINE];
    FileTextJoin([OPEN] + b.section, [CLOSE]);
    FileTextJoin([OPEN], b.section);
    LineOf(text);
    FileLinesJoin([RT.PrintHeader(b.section)], RT.PrintItems(b.items));
    ItemsFileLines(b.items);
    hide FileLine, FileItem, RT.PrintHeader, RT.PrintItems;
    OneFileLine(RT.PrintHeader(b.section));
  }

  /** A document prints to lines of a file exactly if its sections, names and values allow it. */
  lemma {:induction false} PrintsFileLines(doc: RT.Document)
    ensures FileLines(RT.Print(doc)) <==> FileDocument(doc)
    decreases |doc|
  {
    hide FileLines, FileBlock;
    if doc == [] {
      NoFileLines();
    } else {
      FileLinesJoin(RT.PrintBlock(doc[0]), RT.Print(doc[1..]));
      BlockFileLines(doc[0]);
      PrintsFileLines(doc[1..]);
      assert doc == [doc[0]] + doc[1..];
    }
  }

  /** The round trip through a file: loading the text of a printed document reports no error, and
      finds every original value where sections and names are distinct ignoring case. */
  lemma {:induction false} FileReadsBack(doc: RT.Document)
    requires RT.Good(doc) && FileDocument(doc)
    ensures
      var p := Parse(START, Lines(Text(RT.Print(doc))));
      && p.error == 0 && p.out == RT.Entries(doc)
      && (DistinctSections(doc) ==>
        forall k: nat, i: nat :: k < |doc| && i < |doc[k].items| && DistinctNames(doc[k].items) ==>
          Lookup(AddAll([], p.out), doc[k].section, doc[k].items[i].name) == Some(Join(ItemLines(doc[k].items[i]))))
  {
    PrintsFileLines(doc);
    hide FileLine, FileDocument, RT.Print, RT.Good, Parse, Lines, Text, Lookup, AddAll, DistinctSections, DistinctNames;
    LinesOfText(RT.Print(doc));
    hide *;
    PrintedDocumentReadsBack(doc);
  }

  /** The first line of a printed document is short: there is room for a byte-order mark. */
  lemma MarkedFileLines(doc: RT.Document)
    requires RT.Good(doc) && FileDocument(doc)
    ensures FileLines(Laws.Marked(RT.Print(doc)))
    ensures doc != [] ==> Text(Laws.Marked(RT.Print(doc))) == [0xEF, 0xBB, 0xBF] + Text(RT.Print(doc))
  {
    PrintsFileLines(doc);
    if doc != [] {
      var lines := RT.Print(doc);
      assert lines == RT.PrintBlock(doc[0]) + RT.Print(doc[1..]);
      assert lines[0] == RT.PrintHeader(doc[0].section) && RT.GoodBlock(doc[0]);
      hide RT.Print, RT.PrintBlock;
      MarkedLines(lines);
    }
  }

  lemma MarkedFileLine(mark: Str, line: Str)
    requires FileLine(line) && FileText(mark) && |mark| + |line| < MAX_LINE
    ensures FileLine(mark + line)
  {
    var text := line[..|line| - 1];
    assert line == text + [NEWLINE];
    assert mark + line == (mark + text) + [NEWLINE];
    hide FileText, FileLine;
    LineOf(text);
    LineOf(mark + text);
    FileTextJoin(mark, text);
  }

  lemma TextCons(line: Str, rest: seq<Str>)
    ensures Text([line] + rest) == line + Text(rest)
  {
    assert ([line] + rest)[1..] == rest;
  }

  lemma LinesAfter(mark: Str, line: Str, rest: seq<Str>)
    requires FileLines([line] + rest) && FileText(mark) && |mark| + |line| < MAX_LINE
    ensures FileLines([mark + line] + rest)
  {
    hide *;
    FileLinesJoin([line], rest);
    OneFileLine(line);
    MarkedFileLine(mark, line);
    OneFileLine(mark + line);
    FileLinesJoin([mark + line], rest);
  }

  lemma TextAfter(mark: Str, line: Str, rest: seq<Str>)
    ensures Text([mark + line] + rest) == mark + Text([line] + rest)
  {
    hide *;
    TextCons(line, rest);
    TextCons(mark + line, rest);
    assert (mark + line) + Text(rest) == mark + (line + Text(rest));
  }

  lemma MarkedLines(lines: seq<Str>)
    requires lines != [] && FileLines(lines) && |lines[0]| + 3 < MAX_LINE
    ensures FileLines(Laws.Marked(lines))
    ensures Text(Laws.Marked(lines)) == [0xEF, 0xBB, 0xBF] + Text(lines)
  {
    var mark: Str := [0xEF, 0xBB, 0xBF];
    assert FileText(mark);
    hide Text, FileLines, FileLine, FileText;
    assert lines == [lines[0]] + lines[1..];
    LinesAfter(mark, lines[0], lines[1..]);
    TextAfter(mark, lines[0], lines[1..]);
  }

  /** A byte-order mark before the text of such a file changes nothing. */
  lemma {:induction false} MarkedFileReadsBack(doc: RT.Document)
    requires doc != [] && RT.Good(doc) && FileDocument(doc)
    ensures Parse(START, Lines([0xEF, 0xBB, 0xBF] + Text(RT.Print(doc)))) == Parse(START, Lines(Text(RT.Print(doc))))
  {
    MarkedFileLines(doc);
    PrintsFileLines(doc);
    hide FileLine, FileDocument, RT.Print, RT.Good, Parse, Lines, Text, Laws.Marked;
    LinesOfText(RT.Print(doc));
    LinesOfText(Laws.Marked(RT.Print(doc)));
    Laws.MarkedDocument(doc);
  }

  // ---- The reader --------------------------------------------------------------------------

  /** `erase` of a key. */
  function Erased<V>(m: IMap<V>, key: Str): IMap<V> {
    if m == [] then []
    else if IEqual(m[0].key, key) then Erased(m[1..], key)
    else [m[0]] + Erased(m[1..], key)
  }

  lemma {:induction false} ValueAfterErase<V>(m: IMap<V>, key: Str, key': Str)
    ensures ValueOf(Erased(m, key), key') == if IEqual(key, key') then None else ValueOf(m, key')
    decreases |m|
  {
    hide CFold;
    if m != [] {
      ValueAfterErase(m[1..], key, key');
      var rest := Erased(m[1..], key);
      assert ([m[0]] + rest)[1..] == rest;
    }
  }

  lemma AddNone(st: Store)
    ensures AddAll(st, []) == st
  {
  }

  lemma AddOne(st: Store, e: Entry)
    ensures AddAll(st, [e]) == Add(st, e)
  {
    assert AddAll(Add(st, e), [e][1..]) == Add(st, e);
  }

  lemma {:induction false} AddAppend(st: Store, a: seq<Entry>, b: seq<Entry>)
    ensures AddAll(st, a + b) == AddAll(AddAll(st, a), b)
    decreases |a|
  {
    hide Add;
    if a == [] {
      assert a + b == b;
    } else {
      assert (a + b)[0] == a[0] && (a + b)[1..] == a[1..] + b;
      AddAppend(Add(st, a[0]), a[1..], b);
    }
  }

  /** The first character of the C string at `s`, or its terminator. */
  lemma AtHead(b: Str, s: nat)
    requires s <= |b| && Terminated(b, s)
    ensures s < |b| && b[s] == CharAt(At(b, s), 0) && (b[s] == 0 <==> At(b, s) == [])
    ensures At(b, s) != [] ==> b[s] == At(b, s)[0]
    ensures !IsComment(0)
  {
    AtEnds(b, s);
  }

  /** The parser's branches in the terms of the line's first character. */
  lemma CaseOf(text: Str, start: nat, open: bool)
    ensures text == [] || IsComment(text[0]) ==> Meaning(text, start, open) == Nothing
    ensures text != [] && !IsComment(text[0]) && open && start > 0 ==>
              Meaning(text, start, open) == Continued(Uncomment(text))
    ensures !(open && start > 0) ==> Meaning(text, start, open) == Meaning(text, 0, false)
  {
    hide Scan, Uncomment, RStrip, LSkip, IsComment;
  }

  /** One line more of the stream. */
  lemma NextLine(p: Parser, text: Str, pos: nat, next: nat)
    requires pos < |text| && next == pos + ChunkLength(text[pos..], MAX_LINE - 1)
    ensures next <= |text|
    ensures Parse(p, Lines(text[pos..])) == Parse(Step(p, CStr(text[pos..next])), Lines(text[next..]))
  {
    hide Step, CStr;
    var rest := text[pos..];
    var n := next - pos;
    assert rest[..n] == text[pos..next] && rest[n..] == text[next..];
    ParseCons(p, CStr(rest[..n]), Lines(rest[n..]));
  }

  /** Handling a line of the given kind takes the parser's variables from `p` to `q` (both with an empty
      list of entries) and the store from `st` to `st'`. */
  predicate Turn(p: Parser, kind: Kind, q: Parser, st: Store, st': Store) {
    var r := Apply(p, kind);
    p.out == [] && q == r.(out := []) && st' == AddAll(st, r.out)
  }

  lemma TurnQuietly(p: Parser, section: Str, st: Store)
    requires p.out == []
    ensures Turn(p, Nothing, p, st, st)
    ensures Turn(p, Header(section), p.(section := Copied(section), prev := []), st, st)
    ensures Turn(p, Malformed, p.(error := if p.error == 0 then p.lineno else p.error), st, st)
  {
  }

  lemma TurnEmitting(p: Parser, name: Str, value: Str, st: Store)
    requires p.out == []
    ensures Turn(p, Continued(value), p, st, Add(st, Entry(p.section, p.prev, value)))
    ensures Turn(p, Pair(name, value), p.(prev := Copied(name)), st, Add(st, Entry(p.section, name, value)))
  {
    hide Add, Copied;
    AddOne(st, Entry(p.section, p.prev, value));
    AddOne(st, Entry(p.section, name, value));
    assert [] + [Entry(p.section, p.prev, value)] == [Entry(p.section, p.prev, value)];
    assert [] + [Entry(p.section, name, value)] == [Entry(p.section, name, value)];
  }

  /** One turn of the loop is one step of the parser: it only appends to what has been emitted. */
  lemma TurnIsStep(p: Parser, line: Str, st0: Store, st: Store, q: Parser, st': Store)
    requires st == AddAll(st0, p.out)
    requires Turn(p.(lineno := p.lineno + 1, out := []), Classify(p.lineno + 1, line, p.prev != []), q, st, st')
    ensures Step(p, line) == q.(out := Step(p, line).out) && st' == AddAll(st0, Step(p, line).out)
  {
    hide Classify, Copied, Add, AddAll;
    var r := Apply(p.(lineno := p.lineno + 1, out := []), Classify(p.lineno + 1, line, p.prev != []));
    assert p.out + [] == p.out;
    assert Step(p, line).out == p.out + r.out;
    AddAppend(st0, p.out, r.out);
  }

  lemma TurnLeavesNothing(p: Parser, kind: Kind, q: Parser, st: Store, st': Store)
    requires Turn(p, kind, q, st, st')
    ensures q.out == []
  {
  }

  /** What a turn of the loop keeps: the parser is in a state `p` from which the rest of the text
      leads where the whole text leads, and the store holds what `p` has emitted. */
  predicate Underway(p: Parser, text: Str, pos: nat, vars: Parser, st0: Store, st: Store) {
    && pos <= |text| && vars == p.(out := []) && st == AddAll(st0, p.out)
    && Parse(p, Lines(text[pos..])) == Parse(START, Lines(text))
  }

  lemma TurnKeepsUnderway(p: Parser, text: Str, pos: nat, vars: Parser, st0: Store, st: Store,
                          next: nat, vars1: Parser, vars': Parser, st': Store)
    requires Underway(p, text, pos, vars, st0, st) && vars1 == vars.(lineno := vars.lineno + 1)
    requires pos < |text| && next == pos + ChunkLength(text[pos..], MAX_LINE - 1) <= |text|
    requires Turn(vars1, Classify(vars1.lineno, CStr(text[pos..next]), vars1.prev != []), vars', st, st')
    ensures Underway(Step(p, CStr(text[pos..next])), text, next, vars', st0, st')
  {
    hide Parse, Lines, AddAll, Step, Classify, Turn, CStr, ChunkLength;
    var line := CStr(text[pos..next]);
    NextLine(p, text, pos, next);
    TurnIsStep(p, line, st0, st, vars', st');
    assert vars'.out == [] by {
      TurnLeavesNothing(vars1, Classify(vars1.lineno, line, vars1.prev != []), vars', st, st');
    }
  }

  lemma Begun(text: Str, st: Store)
    ensures Underway(START, text, 0, START, st, st)
  {
    assert text[0..] == text;
    AddNone(st);
  }

  lemma Ended(p: Parser, text: Str, vars: Parser, st0: Store, st: Store)
    requires Underway(p, text, |text|, vars, st0, st)
    ensures vars.error == Parse(START, Lines(text)).error
    ensures st == AddAll(st0, Parse(START, Lines(text)).out)
  {
    assert text[|text|..] == [];
    assert Parse(p, []) == p;
  }

  class INIReader {
    var values: Store
    var error: int
    var loaded: bool

    constructor ()
      ensures values == [] && error == -1 && !loaded
    {
      values, error, loaded := [], -1, false;
    }

    /** Stores a value, or appends it after a newline to the value that is there. */
    method ValueHandler(section: Str, name: Str, value: Str)
      modifies this`values
      ensures values == Add(old(values), Entry(section, name, value))
    {
      var i := Find(values, section);
      if i == |values| {
        values := values + [Node(section, [])];
      }
      var inner := values[i].value;
      var j := Find(inner, name);
      if j == |inner| {
        inner := inner + [Node(name, value)];
      } else {
        inner := inner[j := inner[j].(value := inner[j].value + [NEWLINE] + value)];
      }
      values := values[i := values[i].(value := inner)];
    }

    method Get(section: Str, name: Str) returns (r: Option<Str>)
      ensures r == Lookup(values, section, name)
    {
      var i := Find(values, section);
      if i == |values| {
        return None;
      }
      var inner := values[i].value;
      var j := Find(inner, name);
      if j == |inner| {
        return None;
      }
      return Some(inner[j].value);
    }

    method Exists(section: Str, name: Str) returns (r: bool)
      ensures r <==> Lookup(values, section, name) != None
    {
      var i := Find(values, section);
      if i == |values| {
        return false;
      }
      return Find(values[i].value, name) < |values[i].value|;
    }

    /** Afterwards nothing is found under the section, and everything else is as before. */
    method RemoveSection(section: Str)
      modifies this`values
      ensures forall s, n :: Lookup(values, s, n) == if IEqual(section, s) then None else old(Lookup(values, s, n))
    {
      ghost var was := values;
      values := Erased(values, section);
      forall s, n ensures Lookup(values, s, n) == if IEqual(section, s) then None else Lookup(was, s, n) {
        ValueAfterErase(was, section, s);
      }
    }

    method Clear()
      modifies this`values
      ensures forall s, n :: Lookup(values, s, n) == None
    {
      values := [];
    }

    /** One turn of the parser's loop: the line in the buffer moves the parser's variables, and calls
        the handler, exactly as `Apply` of what the line means. */
    method ParseLine(a: array<bv8>, section: Str, prev: Str, lineno: nat, error: nat)
      returns (section': Str, prev': Str, error': nat)
      requires Terminated(a[..], 0)
      modifies this`values, a
      ensures Turn(Parser(section, prev, lineno, error, []), Classify(lineno, old(At(a[..], 0)), prev != []),
                   Parser(section', prev', lineno, error', []), old(values), values)
    {
      ghost var p := Parser(section, prev, lineno, error, []);
      ghost var kind := Classify(lineno, At(a[..], 0), prev != []);
      assert OPEN != 0;
      hide *;
      section', prev', error' := section, prev, error;
      ghost var line := At(a[..], 0);
      var start := FindText(a, lineno);
      TextMeans(lineno, line, a[..], start, prev != []);
      ghost var text := At(a[..], start);
      AtHead(a[..], start);
      CaseOf(text, start, prev != []);
      if IsComment(a[start]) {
        TurnQuietly(p, [], values);
      } else if prev != [] && a[start] != 0 && start > 0 {
        CutComment(a, start);
        var value := StringAt(a, start);
        TurnEmitting(p, [], value, values);
        ValueHandler(section, prev, value);
      } else if a[start] == OPEN {
        var ok, header := ReadHeader(a, start);
        TurnQuietly(p, header, values);
        if ok {
          section', prev' := Copied(header), [];
        } else if error == 0 {
          error' := lineno;
        }
      } else if a[start] != 0 {
        var ok, name, value := ReadPair(a, start);
        if ok {
          prev' := Copied(name);
          TurnEmitting(p, name, value, values);
          ValueHandler(section, name, value);
        } else {
          TurnQuietly(p, [], values);
          if error == 0 {
            error' := lineno;
          }
        }
      } else {
        TurnQuietly(p, [], values);
      }
    }

    /** The parser's loop over a stream. */
    method ParseStream(text: Str) returns (error: nat)
      modifies this`values
      ensures error == Parse(START, Lines(text)).error
      ensures values == AddAll(old(values), Parse(START, Lines(text)).out)
    {
      var line := new bv8[MAX_LINE];
      var section, prev, lineno, pos := [], [], 0, 0;
      error := 0;
      ghost var p, st := START, values;
      Begun(text, values);
      assert Parser(section, prev, lineno, error, []) == START;
      hide *;
      while pos < |text|
        invariant pos <= |text| && Underway(p, text, pos, Parser(section, prev, lineno, error, []), st, values)
      {
        ghost var was, vars := values, Parser(section, prev, lineno, error, []);
        var next := FGets(line, text, pos);
        lineno := lineno + 1;
        ghost var vars1, copy := Parser(section, prev, lineno, error, []), CStr(text[pos..next]);
        section, prev, error := ParseLine(line, section, prev, lineno, error);
        ghost var vars' := Parser(section, prev, lineno, error, []);
        assert Turn(vars1, Classify(vars1.lineno, copy, vars1.prev != []), vars', was, values);
        TurnKeepsUnderway(p, text, pos, vars, st, was, next, vars1, vars', values);
        p := Step(p, copy);
        pos := next;
      }
      Ended(p, text, Parser(section, prev, lineno, error, []), st, values);
    }

    /** The constructor from a file, and `Load`: an unreadable file is error -1 and stores nothing. */
    method Load(file: Option<Str>)
      modifies this
      ensures loaded
      ensures old(loaded) ==> values == old(values) && error == old(error)
      ensures !old(loaded) && file.None? ==> values == old(values) && error == -1
      ensures !old(loaded) && file.Some? ==>
        && error == Parse(START, Lines(file.value)).error
        && values == AddAll(old(values), Parse(START, Lines(file.value)).out)
    {
      if !loaded {
        error := -1;
        if file.Some? {
          error := ParseStream(file.value);
        }
        loaded := true;
      }
    }
  }
}
