/** Unsigned integers as the sets of the positions of their one bits: `|` is union, `&` intersection,
    zero the empty set. The number a word stands for matters only where words are compared. */
module Words {

  const WIDTH: nat := 64

  type Word = set<nat>

  function Pow2(n: nat): (p: nat)
    ensures p > 0
  {
    if n == 0 then 1 else 2 * Pow2(n - 1)
  }

  /** The number that the lowest `n` bits of a word make up. */
  function Number(w: Word, n: nat): nat {
    if n == 0 then 0 else Number(w, n - 1) + if n - 1 in w then Pow2(n - 1) else 0
  }

  lemma {:induction false} Pow2Grows(m: nat, n: nat)
    requires m <= n
    ensures Pow2(m) <= Pow2(n)
    decreases n
  {
    if m < n {
      Pow2Grows(m, n - 1);
    }
  }

  /** A word reaches each of its bits. */
  lemma {:induction false} NumberReaches(w: Word, n: nat, i: nat)
    requires i < n && i in w
    ensures Number(w, n) >= Pow2(i)
    decreases n
  {
    if i < n - 1 {
      NumberReaches(w, n - 1, i);
    }
  }

  lemma {:induction false} NumberIsMonotone(a: Word, b: Word, n: nat)
    requires a <= b
    ensures Number(a, n) <= Number(b, n)
    decreases n
  {
    if n > 0 {
      NumberIsMonotone(a, b, n - 1);
    }
  }

  /** The positions from `k` up to before `m`. */
  function Run(k: nat, m: nat): (w: Word)
    ensures forall i :: i in w <==> k <= i < m
  {
    if m <= k then {} else Run(k, m - 1) + {m - 1}
  }

  lemma {:induction false} NumberOfRun(k: nat, m: nat, n: nat)
    requires k <= m
    ensures Number(Run(k, m), n) == if n <= k then 0 else Pow2(if n < m then n else m) - Pow2(k)
    decreases n
  {
    if n > 0 {
      NumberOfRun(k, m, n - 1);
    }
  }

  lemma {:induction false} NumberOfNone(n: nat)
    ensures Number({}, n) == 0
    decreases n
  {
    if n > 0 {
      NumberOfNone(n - 1);
    }
  }

  lemma NumberOfBit(k: nat)
    requires k < WIDTH
    ensures Number({k}, WIDTH) == Pow2(k)
  {
    assert {k} == Run(k, k + 1);
    NumberOfRun(k, k + 1, WIDTH);
  }

  /** Bits of the run only, and some, put the word between the lowest bit of the run and the whole run. */
  lemma RunBounds(v: Word, k: nat, m: nat, n: nat)
    requires k < m <= n && v != {} && v <= Run(k, m)
    ensures Pow2(k) <= Number(v, n) <= Number(Run(k, m), n)
  {
    var i: nat :| i in v;
    assert i in Run(k, m);
    hide Number, Run, Pow2;
    NumberReaches(v, n, i);
    Pow2Grows(k, i);
    NumberIsMonotone(v, Run(k, m), n);
  }

  /** A word below the next power of two with no bit below the run has bits of the run only. */
  lemma BoundsRun(v: Word, k: nat, m: nat, n: nat)
    requires v <= Run(0, n) && v * Run(0, k) == {} && Number(v, n) < Pow2(m)
    ensures v <= Run(k, m)
  {
    hide Number, Run, Pow2;
    forall i: nat | i in v ensures i in Run(k, m) {
      assert i in Run(0, n);
      assert i !in v * Run(0, k);
      NumberReaches(v, n, i);
      if m <= i {
        Pow2Grows(m, i);
      }
    }
  }

  /** A word has bits of the run only, and some, exactly when it lies between the lowest bit of the
      run and the whole run and has no bit below the run. */
  lemma InRun(v: Word, k: nat, m: nat, n: nat)
    requires k < m <= n && v <= Run(0, n)
    ensures v != {} && v <= Run(k, m) <==>
              Pow2(k) <= Number(v, n) <= Number(Run(k, m), n) && v * Run(0, k) == {}
  {
    NumberOfRun(k, m, n);
    NumberOfNone(n);
    hide Number, Run, Pow2;
    if v != {} && v <= Run(k, m) {
      RunBounds(v, k, m, n);
      assert v * Run(0, k) == {};
    } else if Pow2(k) <= Number(v, n) <= Number(Run(k, m), n) && v * Run(0, k) == {} {
      BoundsRun(v, k, m, n);
    }
  }
}
