/** Case folding, case-insensitive comparison and FNV hashing of byte strings.
    Characters are bytes (`bv8`); hashes are 64-bit words (`bv64`), so wrap-around is exact. */
module Hash {

  type Str = seq<bv8>

  // ---- Folding -----------------------------------------------------------------------------

  /** Upper-cases ASCII letters and the Latin-1 letters 0xE0..0xFE except the division sign 0xF7. */
  function Fold(c: bv8): bv8 {
    if (0x60 < c && c < 0x7B) || (0xDF < c && c < 0xFF && c != 0xF7) then c - 0x20 else c
  }

  /** Folding changes neither NUL-ness nor the top bit, and folding twice is folding once. */
  lemma FoldFacts(c: bv8)
    ensures Fold(c) == 0 <==> c == 0
    ensures Fold(c) < 0x80 <==> c < 0x80
    ensures Fold(Fold(c)) == Fold(c)
  {
  }

  function FoldAll(s: Str): (r: Str)
    ensures |r| == |s|
    ensures forall i :: 0 <= i < |s| ==> r[i] == Fold(s[i])
  {
    seq(|s|, i requires 0 <= i < |s| => Fold(s[i]))
  }

  predicate NulFree(s: Str) {
    forall i :: 0 <= i < |s| ==> s[i] != 0
  }

  // What folding means for two bytes, without naming it: the letters are those of ASCII and Latin-1.

  predicate UpperLetter(c: bv8) {
    (0x41 <= c && c <= 0x5A) || (0xC0 <= c && c <= 0xDE && c != 0xD7)
  }

  /** The bytes are equal, or the two cases of one letter. */
  predicate SameLetter(a: bv8, b: bv8) {
    a == b || (UpperLetter(a) && b == a + 0x20) || (UpperLetter(b) && a == b + 0x20)
  }

  /** In the order of bytes, with every letter taken in its upper case, `a` comes before `b`. */
  predicate Before(a: bv8, b: bv8) {
    !SameLetter(a, b)
    && (if a >= 0x20 && UpperLetter(a - 0x20) then a - 0x20 else a)
       < (if b >= 0x20 && UpperLetter(b - 0x20) then b - 0x20 else b)
  }

  lemma FoldIsCase(a: bv8, b: bv8)
    ensures Fold(a) == Fold(b) <==> SameLetter(a, b)
    ensures Fold(a) < Fold(b) <==> Before(a, b)
  {
  }

  /** What a reader of `c_str()` sees: the bytes before the first NUL. */
  function CStr(s: Str): (r: Str)
    ensures r <= s
    ensures NulFree(r)
    ensures |r| < |s| ==> s[|r|] == 0
  {
    if s == [] || s[0] == 0 then [] else [s[0]] + CStr(s[1..])
  }

  /** The folded form of the C string: two strings compare equal exactly when these agree. */
  function CFold(s: Str): Str {
    FoldAll(CStr(s))
  }

  lemma {:induction false} CStrOfNulFree(s: Str)
    requires NulFree(s)
    ensures CStr(s) == s
  {
    assert |CStr(s)| == |s|;
  }

  /** A NUL-free prefix that ends the string or is followed by NUL is the C string. */
  lemma CStrUnique(s: Str, n: nat)
    requires n <= |s| && NulFree(s[..n]) && (n < |s| ==> s[n] == 0)
    ensures CStr(s) == s[..n]
  {
    var r := CStr(s);
    assert forall j :: 0 <= j < n ==> s[..n][j] == s[j];
    assert forall j :: 0 <= j < |r| ==> r[j] == s[j] != 0;
  }

  // ---- Comparison --------------------------------------------------------------------------

  /** `k` is the first place where `a` and `b` differ and `a` is the smaller there
      (a string that ends is smaller than one that goes on). */
  predicate LessAt(a: Str, b: Str, k: nat) {
    k <= |a| && k < |b| && a[..k] == b[..k] && (k < |a| ==> a[k] < b[k])
  }

  ghost predicate LexLess(a: Str, b: Str) {
    exists k: nat :: LessAt(a, b, k)
  }

  lemma LexIrreflexive(a: Str)
    ensures !LexLess(a, a)
  {
  }

  lemma LexTransitive(a: Str, b: Str, c: Str)
    requires LexLess(a, b) && LexLess(b, c)
    ensures LexLess(a, c)
  {
    var i: nat :| LessAt(a, b, i);
    var j: nat :| LessAt(b, c, j);
    var k := if i < j then i else j;
    assert a[..k] == b[..k] by {
      assert a[..k] == a[..i][..k] && b[..k] == b[..i][..k];
    }
    assert b[..k] == c[..k] by {
      assert b[..k] == b[..j][..k] && c[..k] == c[..j][..k];
    }
    if i < j {
      assert b[i] == b[..j][i] == c[..j][i];
    } else if j < i {
      assert a[j] == a[..i][j] == b[..i][j];
    }
    assert LessAt(a, c, k);
  }

  lemma LexTotal(a: Str, b: Str)
    ensures LexLess(a, b) || a == b || LexLess(b, a)
  {
    var k: nat := 0;
    while k < |a| && k < |b| && a[k] == b[k]
      invariant k <= |a| && k <= |b| && a[..k] == b[..k]
    {
      k := k + 1;
    }
    if k < |a| && (k == |b| || b[k] < a[k]) {
      assert LessAt(b, a, k);
    } else if k < |b| {
      assert LessAt(a, b, k);
    } else {
      assert a == a[..k] && b == b[..k];
    }
  }

  /** The character a `c_str()` pointer sees at offset `i`: the terminator follows the last byte. */
  function CharAt(s: Str, i: nat): bv8
    requires i <= |s|
  {
    if i < |s| then s[i] else 0
  }

  /** The first `n` characters are not terminators and agree but for case. */
  predicate AgreeTo(l: Str, r: Str, n: nat) {
    n <= |l| && n <= |r| && forall j :: 0 <= j < n ==> l[j] != 0 && SameLetter(l[j], r[j])
  }

  /** The C strings are equal but for case: they agree up to where both end. */
  ghost predicate SameText(l: Str, r: Str) {
    exists n: nat :: AgreeTo(l, r, n) && CharAt(l, n) == 0 && CharAt(r, n) == 0
  }

  /** The C string `l` comes first: where they first differ, it has the smaller character, or has ended. */
  ghost predicate TextBefore(l: Str, r: Str) {
    exists n: nat :: AgreeTo(l, r, n) && Before(CharAt(l, n), CharAt(r, n))
  }

  /** Case-insensitive comparison of C strings: zero exactly when they are equal but for case, negative
      exactly when the left one comes first in the order of upper-case bytes. */
  method StriCmp(l: Str, r: Str) returns (d: int)
    ensures d == 0 <==> SameText(l, r)
    ensures d < 0 <==> TextBefore(l, r)
    ensures d > 0 <==> TextBefore(r, l)
    ensures d == 0 <==> CFold(l) == CFold(r)
    ensures d < 0 <==> LexLess(CFold(l), CFold(r))
    ensures d > 0 <==> LexLess(CFold(r), CFold(l))
  {
    TextOrder(l, r);
    hide SameText, TextBefore, AgreeTo, CFold, LexLess, Fold, CharAt;
    LexIrreflexive(CFold(l));
    AgreeNone(l, r);
    var i: nat := 0;
    while true
      invariant i <= |l| && i <= |r| && AgreeTo(l, r, i)
      decreases |l| - i
    {
      var cl, cr := Fold(CharAt(l, i)), Fold(CharAt(r, i));
      if cl != cr {
        d := (cl as int) - (cr as int);
        AgreeDiffer(l, r, i);
        return;
      }
      AgreeOn(l, r, i);
      if cl == 0 {
        return 0;
      }
      i := i + 1;
    }
  }

  lemma AgreeNone(l: Str, r: Str)
    ensures AgreeTo(l, r, 0)
  {
  }

  lemma AgreeDiffer(l: Str, r: Str, n: nat)
    requires AgreeTo(l, r, n) && Fold(CharAt(l, n)) != Fold(CharAt(r, n))
    ensures CFold(l) != CFold(r)
    ensures (Fold(CharAt(l, n)) as int) - (Fold(CharAt(r, n)) as int) < 0 <==> LexLess(CFold(l), CFold(r))
    ensures (Fold(CharAt(l, n)) as int) - (Fold(CharAt(r, n)) as int) > 0 <==> LexLess(CFold(r), CFold(l))
    ensures (Fold(CharAt(l, n)) as int) - (Fold(CharAt(r, n)) as int) != 0
  {
    AgreeingFold(l, r, n);
    hide AgreeTo, Fold, CharAt, CFold, LexLess;
    ByteOrder(Fold(CharAt(l, n)), Fold(CharAt(r, n)));
    FirstDifference(l, r, n);
  }

  /** The next characters agree too, and either end both strings or neither. */
  lemma AgreeOn(l: Str, r: Str, n: nat)
    requires AgreeTo(l, r, n) && Fold(CharAt(l, n)) == Fold(CharAt(r, n))
    ensures Fold(CharAt(l, n)) == 0 ==> CFold(l) == CFold(r)
    ensures Fold(CharAt(l, n)) != 0 ==> n < |l| && n < |r| && AgreeTo(l, r, n + 1)
  {
    FoldFacts(CharAt(l, n));
    FoldFacts(CharAt(r, n));
    FoldIsCase(CharAt(l, n), CharAt(r, n));
    hide Fold, CFold, SameLetter;
    if CharAt(l, n) == 0 {
      SameTextFolds(l, r, n);
    }
  }

  lemma ByteOrder(a: bv8, b: bv8)
    ensures (a as int) - (b as int) < 0 <==> a < b
    ensures (a as int) - (b as int) > 0 <==> b < a
    ensures (a as int) - (b as int) == 0 <==> a == b
  {
  }

  lemma LessIsOneWay(a: Str, b: Str, i: nat)
    requires LessAt(a, b, i)
    ensures LexLess(a, b) && !LexLess(b, a) && a != b
  {
    LexIrreflexive(a);
    if LexLess(b, a) { LexTransitive(a, b, a); }
  }

  lemma FirstLess(l: Str, r: Str, i: nat)
    requires i <= |l| && i <= |r|
    requires NulFree(l[..i]) && NulFree(r[..i])
    requires forall j :: 0 <= j < i ==> Fold(l[j]) == Fold(r[j])
    requires Fold(CharAt(l, i)) < Fold(CharAt(r, i))
    ensures LessAt(CFold(l), CFold(r), i)
  {
    CStrReaches(l, i);
    CStrReaches(r, i);
    FoldFacts(CharAt(l, i));
    FoldFacts(CharAt(r, i));
    hide Fold;
    assert CFold(l)[..i] == CFold(r)[..i];
  }

  /** Where the folded characters first differ decides the order of the folded C strings. */
  lemma FirstDifference(l: Str, r: Str, i: nat)
    requires i <= |l| && i <= |r|
    requires NulFree(l[..i]) && NulFree(r[..i])
    requires forall j :: 0 <= j < i ==> Fold(l[j]) == Fold(r[j])
    requires Fold(CharAt(l, i)) != Fold(CharAt(r, i))
    ensures CFold(l) != CFold(r)
    ensures (Fold(CharAt(l, i)) as int) - (Fold(CharAt(r, i)) as int) < 0 <==> LexLess(CFold(l), CFold(r))
    ensures (Fold(CharAt(l, i)) as int) - (Fold(CharAt(r, i)) as int) > 0 <==> LexLess(CFold(r), CFold(l))
  {
    hide CFold, Fold, CharAt, NulFree, LexLess, LessAt;
    ByteOrder(Fold(CharAt(l, i)), Fold(CharAt(r, i)));
    if Fold(CharAt(l, i)) < Fold(CharAt(r, i)) {
      FirstLess(l, r, i);
      LessIsOneWay(CFold(l), CFold(r), i);
    } else {
      FirstLess(r, l, i);
      LessIsOneWay(CFold(r), CFold(l), i);
    }
  }

  /** If no NUL occurs in the first `i` bytes, the C string has at least these, and byte `i` of
      the string is NUL exactly when the C string ends there. */
  lemma CStrReaches(s: Str, i: nat)
    requires i <= |s| && NulFree(s[..i])
    ensures i <= |CStr(s)|
    ensures |CStr(s)| == i <==> CharAt(s, i) == 0
    ensures CStr(s)[..i] == s[..i]
    ensures i < |CStr(s)| ==> i < |s| && CStr(s)[i] == s[i]
  {
    var r := CStr(s);
    assert forall j :: 0 <= j < i ==> s[..i][j] == s[j] != 0;
    if i < |r| {
      assert r[i] == s[i];
    }
  }

  lemma AgreeingFold(l: Str, r: Str, n: nat)
    requires AgreeTo(l, r, n)
    ensures NulFree(l[..n]) && NulFree(r[..n]) && forall j :: 0 <= j < n ==> Fold(l[j]) == Fold(r[j])
  {
    forall j | 0 <= j < n ensures Fold(l[j]) == Fold(r[j]) && r[j] != 0 {
      FoldIsCase(l[j], r[j]);
      FoldFacts(l[j]);
      FoldFacts(r[j]);
    }
  }

  lemma SameTextFolds(l: Str, r: Str, n: nat)
    requires AgreeTo(l, r, n) && CharAt(l, n) == 0 && CharAt(r, n) == 0
    ensures CFold(l) == CFold(r)
  {
    AgreeingFold(l, r, n);
    CStrUnique(l, n);
    CStrUnique(r, n);
    hide AgreeTo, Fold;
    assert CFold(l) == CFold(r);
  }

  lemma TextBeforeFolds(l: Str, r: Str, n: nat)
    requires AgreeTo(l, r, n) && Before(CharAt(l, n), CharAt(r, n))
    ensures LexLess(CFold(l), CFold(r)) && !LexLess(CFold(r), CFold(l)) && CFold(l) != CFold(r)
  {
    AgreeingFold(l, r, n);
    FoldIsCase(CharAt(l, n), CharAt(r, n));
    hide AgreeTo, Fold, CFold, LexLess, Before, SameLetter, CharAt;
    FirstLess(l, r, n);
    LessIsOneWay(CFold(l), CFold(r), n);
  }

  /** From an agreement on, the strings end together or one of them comes first. */
  lemma {:induction false} Decided(l: Str, r: Str, n: nat)
    requires AgreeTo(l, r, n)
    ensures SameText(l, r) || TextBefore(l, r) || TextBefore(r, l)
    decreases |l| - n
  {
    var a, b := CharAt(l, n), CharAt(r, n);
    FoldIsCase(a, b);
    FoldIsCase(b, a);
    FoldFacts(a);
    FoldFacts(b);
    hide Fold;
    if SameLetter(a, b) {
      if a == 0 {
        assert SameText(l, r);
      } else {
        Decided(l, r, n + 1);
      }
    } else {
      AgreeSymmetric(l, r, n);
      assert Before(a, b) || Before(b, a);
    }
  }

  lemma AgreeSymmetric(l: Str, r: Str, n: nat)
    requires AgreeTo(l, r, n)
    ensures AgreeTo(r, l, n)
  {
    AgreeingFold(l, r, n);
    forall j | 0 <= j < n ensures r[j] != 0 && SameLetter(r[j], l[j]) {
      FoldIsCase(r[j], l[j]);
      assert l[..n][j] != 0 && r[..n][j] != 0;
    }
  }

  /** Folded C strings are equal, or in order, exactly as the characters say. */
  lemma {:induction false} TextOrder(l: Str, r: Str)
    ensures CFold(l) == CFold(r) <==> SameText(l, r)
    ensures LexLess(CFold(l), CFold(r)) <==> TextBefore(l, r)
    ensures LexLess(CFold(r), CFold(l)) <==> TextBefore(r, l)
  {
    Decided(l, r, 0);
    LexIrreflexive(CFold(l));
    hide CFold, LexLess, Before, AgreeTo, CharAt;
    if SameText(l, r) {
      var n: nat :| AgreeTo(l, r, n) && CharAt(l, n) == 0 && CharAt(r, n) == 0;
      SameTextFolds(l, r, n);
    }
    if TextBefore(l, r) {
      var n: nat :| AgreeTo(l, r, n) && Before(CharAt(l, n), CharAt(r, n));
      TextBeforeFolds(l, r, n);
    }
    if TextBefore(r, l) {
      var n: nat :| AgreeTo(r, l, n) && Before(CharAt(r, n), CharAt(l, n));
      TextBeforeFolds(r, l, n);
    }
  }

  /** For NUL-free strings: equal size, and at each place the same letter. */
  lemma {:induction false} IEqualExactly(a: Str, b: Str)
    requires NulFree(a) && NulFree(b)
    ensures IEqual(a, b) <==> |a| == |b| && forall i :: 0 <= i < |a| ==> SameLetter(a[i], b[i])
  {
    IEqualNulFree(a, b);
    hide SameLetter, CFold;
    forall i | 0 <= i < |a| && i < |b| ensures Fold(a[i]) == Fold(b[i]) <==> SameLetter(a[i], b[i]) {
      FoldIsCase(a[i], b[i]);
    }
    hide Fold;
    if |a| == |b| && forall i :: 0 <= i < |a| ==> SameLetter(a[i], b[i]) {
      assert FoldAll(a) == FoldAll(b);
    }
    if FoldAll(a) == FoldAll(b) {
      assert |a| == |FoldAll(a)| == |b|;
      assert forall i :: 0 <= i < |a| ==> FoldAll(a)[i] == FoldAll(b)[i];
    }
  }

  /** `iequal_to`: sizes first, then the comparison of the C strings. */
  predicate IEqual(a: Str, b: Str) {
    |a| == |b| && CFold(a) == CFold(b)
  }

  method IEqualTo(a: Str, b: Str) returns (eq: bool)
    ensures eq <==> |a| == |b| && SameText(a, b)
    ensures eq <==> IEqual(a, b)
  {
    if |a| != |b| {
      return false;
    }
    var d := StriCmp(a, b);
    return d == 0;
  }

  /** For NUL-free strings `iequal_to` is equality of the folded strings, hence an equivalence. */
  lemma IEqualNulFree(a: Str, b: Str)
    requires NulFree(a) && NulFree(b)
    ensures IEqual(a, b) <==> FoldAll(a) == FoldAll(b)
  {
    CStrOfNulFree(a);
    CStrOfNulFree(b);
  }

  /** A string with an embedded NUL never equals a NUL-free one. */
  lemma IEqualKeepsNulFree(a: Str, b: Str)
    requires IEqual(a, b) && NulFree(a)
    ensures NulFree(b) && FoldAll(a) == FoldAll(b)
  {
    CStrOfNulFree(a);
    assert |CStr(b)| == |CFold(b)| == |a| == |b|;
    assert CStr(b) == b;
  }

  // ---- Hashing -----------------------------------------------------------------------------

  /** A folded `char` widened to 64 bits: `char` is signed, so the top bit is replicated. */
  function Widen(c: bv8): bv64 {
    if c < 0x80 then c as bv64 else (c as bv64) | 0xFFFF_FFFF_FFFF_FF00
  }

  /** The 64-bit words a string feeds to the hash. */
  function Words(s: Str): (ws: seq<bv64>)
    ensures |ws| == |s|
    ensures forall i :: 0 <= i < |s| ==> ws[i] == Widen(Fold(s[i]))
  {
    seq(|s|, i requires 0 <= i < |s| => Widen(Fold(s[i])))
  }

  /** A hash round: combines the running hash with one word. */
  type Rounding = (bv64, bv64) -> bv64

  const FNV_OFFSET_BASIS: bv64 := 14695981039346656037

  /** Multiplication of an unsigned 64-bit word by the FNV prime: modulo 2^64. */
  function TimesPrime(h: bv64): bv64 {
    ((h as int) * 1099511628211 % 0x1_0000_0000_0000_0000) as bv64
  }

  /** FNV-1 multiplies, then mixes the word in. */
  function Fnv1(h: bv64, w: bv64): bv64 {
    TimesPrime(h) ^ w
  }

  /** FNV-1a mixes the word in, then multiplies. */
  function Fnv1a(h: bv64, w: bv64): bv64 {
    TimesPrime(h ^ w)
  }

  function Absorb(round: Rounding, h: bv64, ws: seq<bv64>): bv64
    decreases |ws|
  {
    if ws == [] then h else Absorb(round, round(h, ws[0]), ws[1..])
  }

  /** The case-insensitive hash of a string. */
  function HashOf(round: Rounding, s: Str): bv64 {
    Absorb(round, FNV_OFFSET_BASIS, Words(s))
  }

  lemma {:induction false} AbsorbAppend(round: Rounding, h: bv64, s: seq<bv64>, t: seq<bv64>)
    ensures Absorb(round, h, s + t) == Absorb(round, Absorb(round, h, s), t)
    decreases |s|
  {
    if s == [] {
      assert s + t == t;
    } else {
      assert (s + t)[1..] == s[1..] + t;
      AbsorbAppend(round, round(h, s[0]), s[1..], t);
    }
  }

  lemma AbsorbOne(round: Rounding, s: Str, i: nat)
    requires i < |s|
    ensures HashOf(round, s[..i + 1]) == round(HashOf(round, s[..i]), Widen(Fold(s[i])))
  {
    var w := Widen(Fold(s[i]));
    assert Words(s[..i + 1]) == Words(s[..i]) + [w];
    AbsorbAppend(round, FNV_OFFSET_BASIS, Words(s[..i]), [w]);
    assert Absorb(round, HashOf(round, s[..i]), [w]) == Absorb(round, round(HashOf(round, s[..i]), w), []);
  }

  /** The loop of the case-insensitive hashers, and of the hash of a string-pool key
      (`round` is `Fnv1` in the first of the two hashers and `Fnv1a` elsewhere). */
  method IcaseHash(round: Rounding, s: Str) returns (hash: bv64)
    ensures hash == HashOf(round, s)
  {
    hash := FNV_OFFSET_BASIS;
    for i := 0 to |s|
      invariant hash == HashOf(round, s[..i])
    {
      AbsorbOne(round, s, i);
      hash := round(hash, Widen(Fold(s[i])));
    }
    assert s[..|s|] == s;
  }

  /** The hash/equality contract an unordered container needs. */
  lemma EqualImpliesSameHash(round: Rounding, a: Str, b: Str)
    requires NulFree(a) && IEqual(a, b)
    ensures HashOf(round, a) == HashOf(round, b)
  {
    IEqualKeepsNulFree(a, b);
    SameWords(a, b);
  }

  lemma SameWords(a: Str, b: Str)
    ensures FoldAll(a) == FoldAll(b) ==> Words(a) == Words(b)
  {
    if FoldAll(a) == FoldAll(b) {
      assert |a| == |FoldAll(a)| == |b|;
      assert forall i :: 0 <= i < |a| ==> Fold(a[i]) == FoldAll(a)[i] == Fold(b[i]);
    }
  }

  // A round loses nothing: multiplying by the odd prime is invertible modulo 2^64, and so is XOR.

  lemma Remainder(h: int, m: int)
    requires 0 <= h < 0x1_0000_0000_0000_0000
    ensures (h + m * 0x1_0000_0000_0000_0000) % 0x1_0000_0000_0000_0000 == h
  {
  }

  lemma PrimeTimesInverse(h: int, q: int, r: int)
    requires r == h * 1099511628211 - q * 0x1_0000_0000_0000_0000
    ensures r * 0xce96_5057_aff6_957b
         == h + (h * 887285111055 - q * 0xce96_5057_aff6_957b) * 0x1_0000_0000_0000_0000
  {
  }

  /** Multiplying by the inverse of the prime modulo 2^64 undoes multiplying by the prime. */
  lemma PrimeInverse(h: int)
    requires 0 <= h < 0x1_0000_0000_0000_0000
    ensures (h * 1099511628211 % 0x1_0000_0000_0000_0000) * 0xce96_5057_aff6_957b % 0x1_0000_0000_0000_0000 == h
  {
    var q := h * 1099511628211 / 0x1_0000_0000_0000_0000;
    var r := h * 1099511628211 % 0x1_0000_0000_0000_0000;
    PrimeTimesInverse(h, q, r);
    Remainder(h, h * 887285111055 - q * 0xce96_5057_aff6_957b);
  }

  lemma Doubling(b: bv64)
    requires b as int < 0x8000_0000_0000_0000
    ensures (b << 1) as int == 2 * (b as int)
    ensures ((b << 1) | 1) as int == 2 * (b as int) + 1
  {
  }

  lemma WordToInt(b: bv64)
    ensures 0 <= b as int < 0x1_0000_0000_0000_0000 && (b as int) as bv64 == b
  {
  }

  lemma {:induction false} WordOfInt(n: int) returns (b: bv64)
    requires 0 <= n < 0x1_0000_0000_0000_0000
    ensures b as int == n && n as bv64 == b
  {
    if n == 0 {
      b := 0;
    } else {
      var c := WordOfInt(n / 2);
      Doubling(c);
      b := if n % 2 == 0 then c << 1 else (c << 1) | 1;
    }
    WordToInt(b);
  }

  lemma ProductToInt(h: bv64)
    ensures TimesPrime(h) as int == (h as int) * 1099511628211 % 0x1_0000_0000_0000_0000
    ensures 0 <= h as int < 0x1_0000_0000_0000_0000
  {
    WordToInt(h);
    var _ := WordOfInt((h as int) * 1099511628211 % 0x1_0000_0000_0000_0000);
  }

  lemma TimesPrimeInjective(x: bv64, y: bv64)
    requires TimesPrime(x) == TimesPrime(y)
    ensures x == y
  {
    ProductToInt(x);
    ProductToInt(y);
    hide TimesPrime;
    PrimeInverse(x as int);
    PrimeInverse(y as int);
    WordToInt(x);
    WordToInt(y);
  }

  lemma WidenInjective(a: bv8, b: bv8)
    requires Widen(a) == Widen(b)
    ensures a == b
  {
  }

  lemma XorInjective(x: bv64, y: bv64, z: bv64)
    ensures x ^ z == y ^ z ==> x == y
    ensures z ^ x == z ^ y ==> x == y
  {
  }

  /** Changing the hash or the word alone changes the result. */
  ghost predicate Lossless(round: Rounding) {
    && (forall h1, h2, w :: h1 != h2 ==> round(h1, w) != round(h2, w))
    && (forall h, w1, w2 :: w1 != w2 ==> round(h, w1) != round(h, w2))
  }

  lemma Fnv1KeepsApart(h1: bv64, h2: bv64, w: bv64)
    requires h1 != h2
    ensures Fnv1(h1, w) != Fnv1(h2, w)
  {
    if TimesPrime(h1) == TimesPrime(h2) { TimesPrimeInjective(h1, h2); }
    XorInjective(TimesPrime(h1), TimesPrime(h2), w);
  }

  lemma Fnv1aKeepsApart(h1: bv64, h2: bv64, w: bv64)
    requires h1 != h2
    ensures Fnv1a(h1, w) != Fnv1a(h2, w)
  {
    XorInjective(h1, h2, w);
    if TimesPrime(h1 ^ w) == TimesPrime(h2 ^ w) { TimesPrimeInjective(h1 ^ w, h2 ^ w); }
  }

  lemma Fnv1SeesWord(h: bv64, w1: bv64, w2: bv64)
    requires w1 != w2
    ensures Fnv1(h, w1) != Fnv1(h, w2)
  {
    XorInjective(w1, w2, TimesPrime(h));
  }

  lemma Fnv1aSeesWord(h: bv64, w1: bv64, w2: bv64)
    requires w1 != w2
    ensures Fnv1a(h, w1) != Fnv1a(h, w2)
  {
    XorInjective(w1, w2, h);
    if TimesPrime(h ^ w1) == TimesPrime(h ^ w2) { TimesPrimeInjective(h ^ w1, h ^ w2); }
  }

  lemma FnvLossless()
    ensures Lossless(Fnv1) && Lossless(Fnv1a)
  {
    forall h1, h2, w | h1 != h2 ensures Fnv1(h1, w) != Fnv1(h2, w) {
      Fnv1KeepsApart(h1, h2, w);
    }
    forall h1, h2, w | h1 != h2 ensures Fnv1a(h1, w) != Fnv1a(h2, w) {
      Fnv1aKeepsApart(h1, h2, w);
    }
    forall h, w1, w2 | w1 != w2 ensures Fnv1(h, w1) != Fnv1(h, w2) {
      Fnv1SeesWord(h, w1, w2);
    }
    forall h, w1, w2 | w1 != w2 ensures Fnv1a(h, w1) != Fnv1a(h, w2) {
      Fnv1aSeesWord(h, w1, w2);
    }
  }

  lemma {:induction false} AbsorbKeepsApart(round: Rounding, h1: bv64, h2: bv64, ws: seq<bv64>)
    requires Lossless(round) && h1 != h2
    ensures Absorb(round, h1, ws) != Absorb(round, h2, ws)
    decreases |ws|
  {
    if ws != [] {
      var w := ws[0];
      assert round(h1, w) != round(h2, w);
      AbsorbKeepsApart(round, round(h1, w), round(h2, w), ws[1..]);
    }
  }

  /** Word sequences that differ in exactly one position never collide. */
  lemma OneWordDiffers(round: Rounding, h: bv64, p: seq<bv64>, w1: bv64, w2: bv64, s: seq<bv64>)
    requires Lossless(round) && w1 != w2
    ensures Absorb(round, h, p + [w1] + s) != Absorb(round, h, p + [w2] + s)
  {
    var k := Absorb(round, h, p);
    AbsorbAppend(round, h, p, [w1]);
    AbsorbAppend(round, h, p, [w2]);
    AbsorbAppend(round, h, p + [w1], s);
    AbsorbAppend(round, h, p + [w2], s);
    assert Absorb(round, k, [w1]) == Absorb(round, round(k, w1), []);
    assert Absorb(round, k, [w2]) == Absorb(round, round(k, w2), []);
    AbsorbKeepsApart(round, round(k, w1), round(k, w2), s);
  }

  /** Two strings of equal length whose folded bytes differ in exactly one position never collide. */
  lemma OneByteNeverCollides(round: Rounding, a: Str, b: Str, k: nat)
    requires Lossless(round)
    requires |a| == |b| && k < |a| && Fold(a[k]) != Fold(b[k])
    requires forall i :: 0 <= i < |a| && i != k ==> Fold(a[i]) == Fold(b[i])
    ensures HashOf(round, a) != HashOf(round, b)
  {
    var u, v := Words(a), Words(b);
    if u[k] == v[k] { WidenInjective(Fold(a[k]), Fold(b[k])); }
    assert u[..k] == v[..k] && u[k + 1..] == v[k + 1..];
    assert u == u[..k] + [u[k]] + u[k + 1..] && v == v[..k] + [v[k]] + v[k + 1..];
    OneWordDiffers(round, FNV_OFFSET_BASIS, u[..k], u[k], v[k], u[k + 1..]);
  }

  /** Both FNV variants qualify. */
  lemma {:induction false} FnvNeverCollides(a: Str, b: Str, k: nat)
    requires |a| == |b| && k < |a| && Fold(a[k]) != Fold(b[k])
    requires forall i :: 0 <= i < |a| && i != k ==> Fold(a[i]) == Fold(b[i])
    ensures HashOf(Fnv1, a) != HashOf(Fnv1, b) && HashOf(Fnv1a, a) != HashOf(Fnv1a, b)
  {
    FnvLossless();
    OneByteNeverCollides(Fnv1, a, b, k);
    OneByteNeverCollides(Fnv1a, a, b, k);
  }

  // ---- Agreement with the published algorithm ---------------------------------------------

  function Octet(c: bv8): bv64 {
    c as bv64
  }

  /** The words the draft feeds to the hash: octets, widened without sign
      (section 2 of draft-eastlake-fnv). */
  function Octets(s: Str): (ws: seq<bv64>)
    ensures |ws| == |s|
    ensures forall i :: 0 <= i < |s| ==> ws[i] == Octet(s[i])
  {
    seq(|s|, i requires 0 <= i < |s| => Octet(s[i]))
  }

  function StandardHash(round: Rounding, s: Str): bv64 {
    Absorb(round, FNV_OFFSET_BASIS, Octets(s))
  }

  predicate Ascii(s: Str) {
    forall i :: 0 <= i < |s| ==> s[i] < 0x80
  }

  lemma WordAgrees(c: bv8)
    ensures Widen(Fold(c)) == Octet(Fold(c)) <==> c < 0x80
  {
  }

  lemma WordsAreOctets(s: Str)
    requires Ascii(s)
    ensures Words(s) == Octets(FoldAll(s))
  {
    forall i | 0 <= i < |s| ensures Words(s)[i] == Octets(FoldAll(s))[i] {
      WordAgrees(s[i]);
    }
  }

  /** On ASCII the code computes the standard hash of the folded string. */
  lemma AsciiIsStandard(round: Rounding, s: Str)
    requires Ascii(s)
    ensures HashOf(round, s) == StandardHash(round, FoldAll(s))
  {
    WordsAreOctets(s);
  }

  /** Otherwise the last byte outside ASCII decides: the two hashes agree exactly when the two running
      hashes meet there. */
  lemma LastByteDecides(round: Rounding, p: Str, c: bv8, s: Str)
    requires Lossless(round) && Ascii(s)
    ensures HashOf(round, p + [c] + s) == StandardHash(round, FoldAll(p + [c] + s))
       <==> round(HashOf(round, p), Widen(Fold(c))) == round(StandardHash(round, FoldAll(p)), Octet(Fold(c)))
  {
    WordsAreOctets(s);
    var u, v, w, o := Words(p), Octets(FoldAll(p)), Widen(Fold(c)), Octet(Fold(c));
    assert Words(p + [c] + s) == u + [w] + Words(s);
    assert Octets(FoldAll(p + [c] + s)) == v + [o] + Words(s);
    AbsorbWord(round, u, w, Words(s));
    AbsorbWord(round, v, o, Words(s));
    var h1, h2 := round(HashOf(round, p), w), round(StandardHash(round, FoldAll(p)), o);
    if h1 != h2 {
      AbsorbKeepsApart(round, h1, h2, Words(s));
    }
  }

  lemma AbsorbWord(round: Rounding, p: seq<bv64>, w: bv64, s: seq<bv64>)
    ensures Absorb(round, FNV_OFFSET_BASIS, p + [w] + s)
         == Absorb(round, round(Absorb(round, FNV_OFFSET_BASIS, p), w), s)
  {
    var h := Absorb(round, FNV_OFFSET_BASIS, p);
    AbsorbAppend(round, FNV_OFFSET_BASIS, p, [w]);
    AbsorbAppend(round, FNV_OFFSET_BASIS, p + [w], s);
    assert Absorb(round, h, [w]) == Absorb(round, round(h, w), []);
  }

  /** With exactly one byte outside ASCII they never agree: sign extension is the departure. */
  lemma OneByteOutsideAscii(round: Rounding, p: Str, c: bv8, s: Str)
    requires Lossless(round) && Ascii(p) && Ascii(s)
    ensures HashOf(round, p + [c] + s) == StandardHash(round, FoldAll(p + [c] + s)) <==> c < 0x80
  {
    AsciiIsStandard(round, p);
    LastByteDecides(round, p, c, s);
    WordAgrees(c);
  }

  /** The words differ in all bits above the octet and in no other: what sign extension changes. */
  predicate Extended(h1: bv64, h2: bv64) {
    h1 ^ h2 == 0xFFFF_FFFF_FFFF_FF00
  }

  lemma ExtensionIs(c: bv8)
    requires c >= 0x80
    ensures Extended(Widen(Fold(c)), Octet(Fold(c)))
  {
  }

  lemma XorMoves(x: bv64, y: bv64, w: bv64, o: bv64)
    ensures x ^ w == y ^ o <==> x ^ y == w ^ o
  {
  }

  lemma Fnv1aMeets(meets: bool, h1: bv64, w: bv64, h2: bv64, o: bv64, d: bv64)
    requires w ^ o == d && (meets <==> Fnv1a(h1, w) == Fnv1a(h2, o))
    ensures meets <==> h1 ^ h2 == d
  {
    XorMoves(h1, h2, w, o);
    var x, y := h1 ^ w, h2 ^ o;
    assert Fnv1a(h1, w) == TimesPrime(x) && Fnv1a(h2, o) == TimesPrime(y);
    hide TimesPrime, Fnv1a;
    if TimesPrime(x) == TimesPrime(y) { TimesPrimeInjective(x, y); }
  }

  lemma MeetsExactly(meets: bool, h1: bv64, h2: bv64, w: bv64, o: bv64, c: bv8)
    requires c >= 0x80 && w == Widen(Fold(c)) && o == Octet(Fold(c))
    requires meets <==> Fnv1a(h1, w) == Fnv1a(h2, o)
    ensures meets <==> Extended(h1, h2)
  {
    ExtensionIs(c);
    Fnv1aMeets(meets, h1, w, h2, o, 0xFFFF_FFFF_FFFF_FF00);
  }

  /** For the hash of the string pool: a string that is not ASCII is hashed as published exactly when,
      before its last byte outside ASCII, the two running hashes differ in all bits above the octet and
      in no other. */
  lemma AgreesExactly(p: Str, c: bv8, s: Str)
    requires c >= 0x80 && Ascii(s)
    ensures HashOf(Fnv1a, p + [c] + s) == StandardHash(Fnv1a, FoldAll(p + [c] + s))
       <==> Extended(HashOf(Fnv1a, p), StandardHash(Fnv1a, FoldAll(p)))
  {
    hide *;
    FnvLossless();
    LastByteDecides(Fnv1a, p, c, s);
    var agree := HashOf(Fnv1a, p + [c] + s) == StandardHash(Fnv1a, FoldAll(p + [c] + s));
    var h1, h2, w, o := HashOf(Fnv1a, p), StandardHash(Fnv1a, FoldAll(p)), Widen(Fold(c)), Octet(Fold(c));
    MeetsExactly(agree, h1, h2, w, o, c);
  }

  lemma OneByteHashes(c: bv8)
    ensures HashOf(Fnv1a, [c]) == TimesPrime(FNV_OFFSET_BASIS ^ Widen(Fold(c)))
    ensures StandardHash(Fnv1a, FoldAll([c])) == TimesPrime(FNV_OFFSET_BASIS ^ Octet(Fold(c)))
  {
    var w, o := Widen(Fold(c)), Octet(Fold(c));
    hide TimesPrime, Widen, Octet, Fold;
    assert Words([c]) == [w] && Octets(FoldAll([c])) == [o];
    assert Absorb(Fnv1a, FNV_OFFSET_BASIS, [w]) == Absorb(Fnv1a, Fnv1a(FNV_OFFSET_BASIS, w), []);
    assert Absorb(Fnv1a, FNV_OFFSET_BASIS, [o]) == Absorb(Fnv1a, Fnv1a(FNV_OFFSET_BASIS, o), []);
  }

  lemma WordsOfA5()
    ensures FNV_OFFSET_BASIS ^ Widen(Fold(0xA5)) == 0x340d_631b_7bdd_dc80
    ensures FNV_OFFSET_BASIS ^ Octet(Fold(0xA5)) == 0xcbf2_9ce4_8422_2380
  {
  }

  lemma ProductIs(h: bv64, r: bv64)
    requires (h as int) * 1099511628211 % 0x1_0000_0000_0000_0000 == r as int
    ensures TimesPrime(h) == r
  {
    WordToInt(r);
  }

  /** After the byte 0xA5 the two running hashes stand in just that relation. */
  lemma AfterA5()
    ensures Extended(HashOf(Fnv1a, [0xA5]), StandardHash(Fnv1a, FoldAll([0xA5])))
  {
    hide HashOf, StandardHash, TimesPrime, Widen, Octet, Fold, FoldAll;
    OneByteHashes(0xA5);
    WordsOfA5();
    ProductIs(0x340d_631b_7bdd_dc80, 0x509b_e7b3_79fd_ad80);
    ProductIs(0xcbf2_9ce4_8422_2380, 0xaf64_184c_8602_5280);
  }

  /** So they do agree outside ASCII: any second byte outside ASCII cancels the first. */
  lemma TwoBytesCanAgree(c: bv8, s: Str)
    requires c >= 0x80 && Ascii(s)
    ensures HashOf(Fnv1a, [0xA5, c] + s) == StandardHash(Fnv1a, FoldAll([0xA5, c] + s))
  {
    hide *;
    AfterA5();
    AgreesExactly([0xA5], c, s);
    assert [0xA5, c] + s == [0xA5] + [c] + s;
  }

  lemma LetterFnv1a(c: bv8, x: bv64, r: bv64)
    requires FNV_OFFSET_BASIS ^ Widen(Fold(c)) == x && TimesPrime(x) == r
    ensures HashOf(Fnv1a, [c]) == r
  {
    OneByteHashes(c);
  }

  lemma LetterFnv1(c: bv8, w: bv64, x: bv64, r: bv64)
    requires Widen(Fold(c)) == w && TimesPrime(FNV_OFFSET_BASIS) == x && x ^ w == r
    ensures HashOf(Fnv1, [c]) == r
  {
    hide TimesPrime, Widen, Fold;
    assert Words([c]) == [w];
    assert Absorb(Fnv1, FNV_OFFSET_BASIS, [w]) == Absorb(Fnv1, Fnv1(FNV_OFFSET_BASIS, w), []);
  }

  lemma WordOfA(c: bv8)
    requires c == 0x61 || c == 0x41
    ensures Widen(Fold(c)) == 0x41 && FNV_OFFSET_BASIS ^ Widen(Fold(c)) == 0xcbf2_9ce4_8422_2364
    ensures FNV_OFFSET_BASIS == 0xcbf2_9ce4_8422_2325
  {
  }

  /** What the two hashers make of the one-letter strings "a" and "A". */
  lemma OneLetterHashes(c: bv8)
    requires c == 0x61 || c == 0x41
    ensures HashOf(Fnv1a, [c]) == 0xaf63_fc4c_8602_22ec
    ensures HashOf(Fnv1, [c]) == 0xaf63_bd4c_8601_b79e
  {
    WordOfA(c);
    hide *;
    ProductIs(0xcbf2_9ce4_8422_2364, 0xaf63_fc4c_8602_22ec);
    LetterFnv1a(c, 0xcbf2_9ce4_8422_2364, 0xaf63_fc4c_8602_22ec);
    ProductIs(0xcbf2_9ce4_8422_2325, 0xaf63_bd4c_8601_b7df);
    LetterFnv1(c, 0x41, 0xaf63_bd4c_8601_b7df, 0xaf63_bd4c_8601_b79e);
  }
}
