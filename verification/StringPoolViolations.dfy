/** What a run that breaks the hypothesis leads to: from every violating step the process can be halted,
    and a handle at rest can be left outside the pool. So exactly the violating runs matter. */
module StringPoolViolations {
  import opened Hash
  import opened Options
  import opened StringPool
  import opened StringPoolCounts
  import opened StringPoolLeaks
  import opened StringPoolSafety
  import opened StringPoolRaces

  // ---- A releaser whose entry is gone -------------------------------------------------------

  /** The thread waits for the lock to erase an uncounted entry. */
  ghost predicate AwaitsZero(s: State, r: Thread, e: Id) {
    r in s.pcs && s.pcs[r].Releasing? && s.pcs[r].at == Awaiting(e) && Zero(s, e)
  }

  /** Nothing in the pool has the key of the entry `r` is going to erase, and `w` has time. */
  ghost predicate Orphaned(s: State, r: Thread, w: Thread, e: Id) {
    && Shape(s) && Exclusive(s) && !s.halted && s.lock == None && AwaitsZero(s, r, e)
    && Hit(s.heap, s.pool, s.heap[e].text) == {}
    && w != r && w in s.pcs && s.pcs[w].Idle?
    && s.heap[EMPTY].text == [] && s.heap[e].text != []
  }

  lemma OrphanHalts(s: State, r: Thread, w: Thread, e: Id) returns (ls: seq<Label>)
    requires Orphaned(s, r, w, e)
    ensures Run(s, ls) && After(s, ls).halted
  {
    hide Hit, Shape, Exclusive, Run, After;
    ls := LateRelease(s, r, e);
  }

  lemma {:induction false} FreshHandle(handles: set<Handle>) returns (h: Handle)
    ensures forall g :: g in handles ==> g < h
  {
    h := 0;
    if handles != {} {
      var g :| g in handles;
      var k := FreshHandle(handles - {g});
      h := if k > g then k else g + 1;
      assert forall x :: x in handles ==> x == g || x in handles - {g};
    }
  }

  /** A handle that no thread is writing points outside the pool. */
  ghost predicate Unseated(s: State, h: Handle) {
    AtRest(s, h) && s.refs[h] !in s.pool
  }

  /** If the other thread first stores the same text in a fresh handle, the handle is unseated. */
  lemma OrphanUnseats(s: State, r: Thread, w: Thread, e: Id) returns (ls: seq<Label>, h: Handle)
    requires Orphaned(s, r, w, e)
    ensures Run(s, ls) && Unseated(After(s, ls), h)
  {
    KeyEqEquivalence();
    hide Hit, Shape, Exclusive, Run, After, KeyEq, Writable;
    h := FreshHandle(s.refs.Keys);
    var text := s.heap[e].text;
    var x: Id;
    ls, x := TakeAlone(s, w, h, text, e);
    var m := After(s, ls);
    assert Readable(m, h) by { WritableIsReadable(m, h); }
    assert x == |s.heap| && m.heap[x].text == text == m.heap[e].text && Zero(m, e);
    var more := LateReleaserUnseats(m, r, e, h);
    RunAppend(s, ls, more);
    ls := ls + more;
  }

  lemma WritableIsReadable(s: State, h: Handle)
    requires Writable(s, h)
    ensures Readable(s, h)
  {
  }

  // ---- Two releasers of one entry -----------------------------------------------------------

  /** `t` and `u` both wait for the lock to erase `e`, which is still in the pool. */
  ghost predicate Pair(s: State, t: Thread, u: Thread, e: Id) {
    && Weak(s) && !s.halted && t != u && e != EMPTY && e < |s.heap| && e in s.pool
    && t in s.pcs && s.pcs[t].Releasing? && s.pcs[t].at == Awaiting(e)
    && u in s.pcs && s.pcs[u].Releasing? && s.pcs[u].at == Awaiting(e)
  }

  lemma WeakShape(s: State)
    requires Weak(s)
    ensures Shape(s) && Exclusive(s) && s.heap[EMPTY] == Entry([], 0)
    ensures forall x: Id :: 0 < x < |s.heap| ==> s.heap[x].text != []
  {
  }

  /** The source of a copy assignment does not own an uncounted entry. */
  lemma SourceIsCounted(s: State, t: Thread, e: Id)
    requires Weak(s) && Zero(s, e) && e != EMPTY && t in s.pcs
    requires s.pcs[t].Releasing? && s.pcs[t].purpose.CopyFrom?
    ensures s.pcs[t].purpose.src in s.refs && s.refs[s.pcs[t].purpose.src] != e && s.pcs[t].purpose.src != s.pcs[t].dst
  {
    var pc, src := s.pcs[t], s.pcs[t].purpose.src;
    assert PcShape(s, pc) && src in pc.Touches() && ApartPc(pc);
    forall u | u in s.pcs ensures src !in s.pcs[u].Writes() {
      assert u != t && src in s.pcs[u].Writes() ==> src !in pc.Touches();
    }
    NotFloating(s, src);
    OwnsIt(s.refs, Floating(s), src);
  }

  /** `m` is `s` after `t` has come to rest, as far as entries are concerned. */
  ghost predicate Rested(s: State, t: Thread, e: Id, m: State) {
    && m.halted == s.halted && m.lock == s.lock && m.pool == s.pool && t in s.pcs && m.pcs == s.pcs[t := Idle]
    && Zero(m, e) && |m.heap| == |s.heap| && forall x: Id :: x < |s.heap| ==> m.heap[x].text == s.heap[x].text
  }

  lemma PlainMoves(s: State, t: Thread)
    requires Shape(s) && t in s.pcs && s.pcs[t].Releasing? && s.pcs[t].at.Dropped? && !s.pcs[t].purpose.CopyFrom?
    ensures CanAdvance(s, t) && Continue(s, t) == Goto(s.(refs := Continue(s, t).refs), t, Idle)
  {
    assert PcShape(s, s.pcs[t]);
    hide Shape;
  }

  lemma FinishPlain(s: State, t: Thread, e: Id) returns (ls: seq<Label>)
    requires Weak(s) && !s.halted && Zero(s, e)
    requires t in s.pcs && s.pcs[t].Releasing? && s.pcs[t].at.Dropped? && !s.pcs[t].purpose.CopyFrom?
    ensures Run(s, ls) && Rested(s, t, e, After(s, ls))
  {
    WeakShape(s);
    RunNothing(s);
    PlainMoves(s, t);
    hide Run, After, Weak, Shape, Exclusive, Continue, CanAdvance;
    ls := Tick(s, [], s, t, Continue(s, t));
  }

  lemma FinishAcquire(s: State, t: Thread, d: Handle, src: Handle, e: Id) returns (ls: seq<Label>)
    requires Shape(s) && Exclusive(s) && !s.halted && Zero(s, e) && t in s.pcs && s.pcs[t] == Acquiring(d, src)
    requires d in s.refs && s.refs[d] != e
    ensures Run(s, ls) && Rested(s, t, e, After(s, ls))
  {
    RunNothing(s);
    ShapeOf(s, d);
    hide Run, After, Shape, Exclusive;
    var x := s.refs[d];
    var s1 := Goto(if x == EMPTY then s else AddCount(s, x, 1), t, Idle);
    assert Continue(s, t) == s1;
    hide Continue;
    ls := Tick(s, [], s, t, s1);
  }

  /** The first step of finishing a copy: the pointer is copied, not yet counted. */
  lemma CopyPoints(s: State, t: Thread, d: Handle, src: Handle, e: Id) returns (ls: seq<Label>, s1: State)
    requires Weak(s) && !s.halted && Zero(s, e) && e != EMPTY
    requires t in s.pcs && s.pcs[t] == Releasing(d, CopyFrom(src), Dropped)
    ensures Run(s, ls) && After(s, ls) == s1 && Shape(s1) && Exclusive(s1) && src in s.refs && s.refs[src] != e
    ensures s1 == s.(refs := s.refs[d := s.refs[src]], pcs := s.pcs[t := Acquiring(d, src)])
  {
    SourceIsCounted(s, t, e);
    WeakShape(s);
    RunNothing(s);
    hide Run, After, Weak, Exclusive;
    s1 := Goto(s.(refs := s.refs[d := s.refs[src]]), t, Acquiring(d, src));
    assert Continue(s, t) == s1;
    hide Shape, Continue;
    ls := Tick(s, [], s, t, s1);
  }

  lemma RestedLater(s: State, s1: State, t: Thread, d: Handle, src: Handle, e: Id, m: State)
    requires t in s.pcs && src in s.refs
    requires s1 == s.(refs := s.refs[d := s.refs[src]], pcs := s.pcs[t := Acquiring(d, src)])
    requires Rested(s1, t, e, m)
    ensures Rested(s, t, e, m)
  {
    assert s1.pcs[t := Idle] == s.pcs[t := Idle];
  }

  lemma FinishCopy(s: State, t: Thread, d: Handle, src: Handle, e: Id) returns (ls: seq<Label>)
    requires Weak(s) && !s.halted && Zero(s, e) && e != EMPTY
    requires t in s.pcs && s.pcs[t] == Releasing(d, CopyFrom(src), Dropped)
    ensures Run(s, ls) && Rested(s, t, e, After(s, ls))
  {
    hide Run, After, Weak, Exclusive, Shape, Rested;
    var s1: State;
    ls, s1 := CopyPoints(s, t, d, src, e);
    var more := FinishAcquire(s1, t, d, src, e);
    RunAppend(s, ls, more);
    ls := ls + more;
    RestedLater(s, s1, t, d, src, e, After(s1, more));
  }

  /** After giving up a reference the thread finishes its operation; no entry changes its key, and
      the pool and an uncounted entry stay as they are. */
  lemma FinishDropped(s: State, t: Thread, e: Id) returns (ls: seq<Label>)
    requires Weak(s) && !s.halted && Zero(s, e) && e != EMPTY
    requires t in s.pcs && s.pcs[t].Releasing? && s.pcs[t].at.Dropped?
    ensures Run(s, ls) && Rested(s, t, e, After(s, ls)) && Weak(After(s, ls))
  {
    hide Weak, Rested, Run, After;
    if s.pcs[t].purpose.CopyFrom? {
      ls := FinishCopy(s, t, s.pcs[t].dst, s.pcs[t].purpose.src, e);
    } else {
      ls := FinishPlain(s, t, e);
    }
    RunWeak(s, ls);
  }

  lemma ShapeOf(s: State, h: Handle)
    requires Shape(s) && h in s.refs
    ensures s.refs[h] < |s.heap|
  {
  }

  /** With the lock free, one of the two erases the entry and finishes; the other is orphaned. */
  lemma PairOrphans(s: State, t: Thread, u: Thread, e: Id) returns (ls: seq<Label>)
    requires Pair(s, t, u, e) && s.lock == None && Zero(s, e)
    ensures Run(s, ls) && Orphaned(After(s, ls), u, t, e)
  {
    var m: State;
    ls, m := OneErases(s, t, u, e);
    hide Weak, Run, After, Hit, Pair, Rested;
    var more := FinishDropped(m, t, e);
    RunAppend(s, ls, more);
    ls := ls + more;
    NowOrphaned(m, After(m, more), t, u, e);
  }

  lemma InPoolIsHit(s: State, e: Id)
    requires e < |s.heap| && e in s.pool
    ensures e in Hit(s.heap, s.pool, s.heap[e].text)
  {
    KeyEqEquivalence();
  }

  lemma HitErased(heap: seq<Entry>, pool: set<Id>, text: Str)
    ensures Hit(heap, pool - Hit(heap, pool, text), text) == {}
  {
    hide KeyEq;
  }

  lemma OneErases(s: State, t: Thread, u: Thread, e: Id) returns (ls: seq<Label>, m: State)
    requires Pair(s, t, u, e) && s.lock == None && Zero(s, e)
    ensures Run(s, ls) && After(s, ls) == m && Weak(m) && !m.halted && m.lock == None && e < |m.heap|
    ensures Hit(m.heap, m.pool, m.heap[e].text) == {} && t != u && e != EMPTY
    ensures t in m.pcs && m.pcs[t].Releasing? && m.pcs[t].at.Dropped? && AwaitsZero(m, u, e)
  {
    WeakShape(s);
    InPoolIsHit(s, e);
    HitErased(s.heap, s.pool, s.heap[e].text);
    hide Weak, Run, After, Shape, Exclusive, Hit;
    ls := EraseAlone(s, t, e);
    RunWeak(s, ls);
    m := After(s, ls);
  }

  lemma NowOrphaned(m: State, n: State, t: Thread, u: Thread, e: Id)
    requires Rested(m, t, e, n) && Weak(n) && !m.halted && m.lock == None && e < |m.heap| && e != EMPTY
    requires Hit(m.heap, m.pool, m.heap[e].text) == {} && t != u && AwaitsZero(m, u, e)
    ensures Orphaned(n, u, t, e)
  {
    WeakShape(n);
    SameHit(m, n, m.heap[e].text);
    hide Weak, Hit, Shape, Exclusive;
  }

  lemma SameHit(s: State, s': State, text: Str)
    requires s'.pool == s.pool && |s'.heap| == |s.heap|
    requires forall x: Id :: x < |s.heap| ==> s'.heap[x].text == s.heap[x].text
    ensures Hit(s'.heap, s'.pool, text) == Hit(s.heap, s.pool, text)
  {
    hide KeyEq;
  }

  // ---- Running whoever holds the lock --------------------------------------------------------

  /** Nobody counts `e`, or the handle `d` alone does. */
  ghost predicate OwnedAtMostBy(s: State, d: Handle, e: Id) {
    Zero(s, e) || (e < |s.heap| && s.heap[e].count == 1 && d in s.refs && s.refs[d] == e)
  }

  /** What erases another entry will find it. */
  ghost predicate ErasesOther(s: State, pc: Pc, e: Id) {
    && (forall x: Id :: pc.Dooms(x) ==> x in s.pool && x != e)
    && (pc.Assigning? && (pc.step.Inserting? || pc.step.Comparing? || pc.step.Replacing?) ==>
          pc.dst in s.refs && s.refs[pc.dst] in s.pool)
  }

  /** `v` holds the lock while `t` and `u` wait for it to erase `e`. */
  ghost predicate Busy(s: State, t: Thread, u: Thread, v: Thread, e: Id) {
    && Pair(s, t, u, e) && v != t && v != u && v in s.pcs && s.pcs[v].HoldsLock() && s.lock == Some(v)
    && ErasesOther(s, s.pcs[v], e)
    && (Zero(s, e) || (s.pcs[v].Assigning? && s.pcs[v].step.Leaving? && OwnedAtMostBy(s, s.pcs[v].dst, e)))
  }

  /** How far the holder is from giving the lock back. */
  function Remaining(pc: Pc): nat {
    match pc
    case Releasing(_, _, at) =>
      (match at
       case Rechecking(_) => 3
       case Erasing(_) => 2
       case _ => 1)
    case Assigning(_, step) =>
      (match step
       case Inserting(_) => 7
       case Comparing(_) => 6
       case Replacing(_) => 5
       case Discarding(_, _) => 4
       case Storing(_) => 3
       case Counting => 2
       case _ => 1)
    case _ => 0
  }

  /** Erasing one pool entry by key leaves every other one. */
  lemma EraseOnlyOne(s: State, x: Id, e: Id)
    requires Canonical(s.heap, s.pool) && x in s.pool && x < |s.heap| && e in s.pool && e < |s.heap| && x != e
    ensures !EraseKey(s, s.heap[x].text).halted || s.halted
    ensures e in EraseKey(s, s.heap[x].text).pool
  {
    InPoolIsHit(s, x);
    hide KeyEq;
    forall y | y in Hit(s.heap, s.pool, s.heap[x].text) ensures y == x {
      assert KeyEq(s.heap[y].text, s.heap[x].text);
    }
  }

  /** After a step of `v` the two others still wait, if `e` is still there. */
  lemma PairKept(s: State, t: Thread, u: Thread, v: Thread, e: Id)
    requires Pair(s, t, u, e) && v != t && v != u && CanAdvance(s, v)
    requires !Continue(s, v).halted && e in Continue(s, v).pool
    ensures Pair(Continue(s, v), t, u, e)
  {
    WeakShape(s);
    StepWeak(s, Advance(v));
    OtherThreads(s, v);
    hide Weak, Continue, Shape, Exclusive;
  }

  lemma OtherThreads(s: State, v: Thread)
    requires Shape(s) && CanAdvance(s, v)
    ensures forall t :: t in s.pcs && t != v ==> t in Continue(s, v).pcs && Continue(s, v).pcs[t] == s.pcs[t]
    ensures v in Continue(s, v).pcs && |Continue(s, v).heap| >= |s.heap|
  {
    assert PcShape(s, s.pcs[v]) && (!s.pcs[v].Idle? ==> s.pcs[v].dst in s.pcs[v].Touches());
  }

  lemma WeakCanonical(s: State)
    requires Weak(s)
    ensures Canonical(s.heap, s.pool) && LockHeld(s)
  {
  }

  lemma ErasesReleasing(s: State, d: Handle, p: Purpose, x: Id, e: Id)
    ensures ErasesOther(s, Releasing(d, p, Rechecking(x)), e) <==> x in s.pool && x != e
    ensures ErasesOther(s, Releasing(d, p, Erasing(x)), e) <==> x in s.pool && x != e
    ensures ErasesOther(s, Releasing(d, p, Unlocking), e)
  {
    assert Releasing(d, p, Rechecking(x)).Dooms(x) && Releasing(d, p, Erasing(x)).Dooms(x);
  }

  lemma ErasesLater(s: State, d: Handle, step: Setting, e: Id)
    requires step.Inserting? || step.Comparing? || step.Replacing?
    ensures ErasesOther(s, Assigning(d, step), e) <==> d in s.refs && s.refs[d] in s.pool
  {
  }

  lemma ErasesPrevious(s: State, d: Handle, prev: Id, x: Id, e: Id)
    ensures ErasesOther(s, Assigning(d, Discarding(prev, x)), e) <==> prev in s.pool && prev != e
  {
    assert Assigning(d, Discarding(prev, x)).Dooms(prev);
  }

  lemma ErasesNoMore(s: State, d: Handle, step: Setting, e: Id)
    requires step.Storing? || step.Counting? || step.Leaving?
    ensures ErasesOther(s, Assigning(d, step), e)
  {
  }

  /** `m` differs from `s` in nothing that the two waiting threads need. */
  ghost predicate Spares(s: State, m: State, e: Id) {
    m.pcs == s.pcs && m.lock == s.lock && !m.halted && e in m.pool && Zero(m, e)
  }

  lemma BusyFacts(s: State, t: Thread, u: Thread, v: Thread, e: Id)
    requires Busy(s, t, u, v, e)
    ensures Shape(s) && Exclusive(s) && Canonical(s.heap, s.pool) && !s.halted && Pair(s, t, u, e) && v != t && v != u
    ensures e != EMPTY && e < |s.heap| && e in s.pool && EMPTY < |s.heap|
    ensures v in s.pcs && s.pcs[v].HoldsLock() && s.lock == Some(v) && ErasesOther(s, s.pcs[v], e)
    ensures CanAdvance(s, v) && Weak(s)
    ensures !(s.pcs[v].Assigning? && s.pcs[v].step.Leaving?) ==> Zero(s, e) && Spares(s, s, e)
  {
    WeakShape(s);
    WeakCanonical(s);
    hide Weak, Shape, Exclusive, Canonical, LockHeld, ErasesOther;
  }

  lemma NowBusy(s: State, t: Thread, u: Thread, v: Thread, e: Id, pc: Pc)
    requires Pair(s, t, u, e) && v != t && v != u && v in s.pcs && s.pcs[v] == pc
    requires pc.HoldsLock() && s.lock == Some(v) && ErasesOther(s, pc, e) && Zero(s, e)
    ensures Busy(s, t, u, v, e)
  {
    hide Pair, ErasesOther, Zero, Pc.HoldsLock;
  }

  /** A step of the holder that keeps the lock and counts nothing of `e`: the rest of the state becomes
      that of `m`. */
  lemma StillBusy(s: State, t: Thread, u: Thread, v: Thread, e: Id, m: State, pc': Pc)
    requires Busy(s, t, u, v, e) && CanAdvance(s, v) && Shape(s) && Continue(s, v) == Goto(m, v, pc')
    requires Spares(s, m, e) && pc'.HoldsLock() && ErasesOther(m, pc', e) && Remaining(pc') < Remaining(s.pcs[v])
    ensures Busy(Continue(s, v), t, u, v, e) && Remaining(Continue(s, v).pcs[v]) < Remaining(s.pcs[v])
  {
    assert ErasesOther(Goto(m, v, pc'), pc', e);
    BusyFacts(s, t, u, v, e);
    hide Busy, Pair, Shape, Exclusive, Canonical, Continue, CanAdvance, ErasesOther, Pc.HoldsLock, Remaining;
    PairKept(s, t, u, v, e);
    NowBusy(Continue(s, v), t, u, v, e, pc');
  }

  lemma EraseKeyMoves(s: State, text: Str)
    ensures
      var s' := EraseKey(s, text);
      s'.refs == s.refs && s'.heap == s.heap && s'.lock == s.lock && s'.pcs == s.pcs
  {
  }

  // What one step of the lock holder does, stage by stage.

  lemma ReleaseStages(d: Handle, p: Purpose, x: Id)
    ensures Releasing(d, p, Erasing(x)).HoldsLock() && Releasing(d, p, Unlocking).HoldsLock()
    ensures Remaining(Releasing(d, p, Rechecking(x))) == 3 && Remaining(Releasing(d, p, Erasing(x))) == 2
    ensures Remaining(Releasing(d, p, Unlocking)) == 1
  {
  }

  lemma SetStages(d: Handle, text: Str, prev: Id, x: Id)
    ensures Assigning(d, Comparing(x)).HoldsLock() && Assigning(d, Replacing(x)).HoldsLock()
    ensures Assigning(d, Discarding(prev, x)).HoldsLock() && Assigning(d, Storing(x)).HoldsLock()
    ensures Assigning(d, Counting).HoldsLock() && Assigning(d, Leaving).HoldsLock()
    ensures Remaining(Assigning(d, Inserting(text))) == 7 && Remaining(Assigning(d, Comparing(x))) == 6
    ensures Remaining(Assigning(d, Replacing(x))) == 5 && Remaining(Assigning(d, Discarding(prev, x))) == 4
    ensures Remaining(Assigning(d, Storing(x))) == 3 && Remaining(Assigning(d, Counting)) == 2
    ensures Remaining(Assigning(d, Leaving)) == 1
  {
  }

  lemma PointOf(s: State, v: Thread)
    requires Shape(s) && v in s.pcs
    ensures PcShape(s, s.pcs[v]) && (!s.pcs[v].Idle? ==> s.pcs[v].dst in s.refs && s.refs[s.pcs[v].dst] < |s.heap|)
  {
    assert !s.pcs[v].Idle? ==> s.pcs[v].dst in s.pcs[v].Touches();
  }

  lemma RecheckMoves(s: State, v: Thread, d: Handle, p: Purpose, x: Id, at: Release)
    requires Shape(s) && v in s.pcs && s.pcs[v] == Releasing(d, p, Rechecking(x)) && x < |s.heap|
    requires at == if s.heap[x].count == 0 then Erasing(x) else Unlocking
    ensures CanAdvance(s, v) && Continue(s, v) == Goto(s, v, Releasing(d, p, at))
  {
    hide Shape, EraseKey;
  }

  lemma RecheckTo(s: State, t: Thread, u: Thread, v: Thread, e: Id, d: Handle, p: Purpose, x: Id, at: Release)
    requires Busy(s, t, u, v, e) && Shape(s) && s.pcs[v] == Releasing(d, p, Rechecking(x)) && x < |s.heap|
    requires at == if s.heap[x].count == 0 then Erasing(x) else Unlocking
    requires ErasesOther(s, Releasing(d, p, at), e)
    ensures CanAdvance(s, v) && Busy(Continue(s, v), t, u, v, e)
    ensures Remaining(Continue(s, v).pcs[v]) < Remaining(s.pcs[v])
  {
    hide *;
    BusyFacts(s, t, u, v, e);
    RecheckMoves(s, v, d, p, x, at);
    ReleaseStages(d, p, x);
    StillBusy(s, t, u, v, e, s, Releasing(d, p, at));
  }

  /** The holder re-reads the count. */
  lemma HolderRechecks(s: State, t: Thread, u: Thread, v: Thread, e: Id)
    requires Busy(s, t, u, v, e) && s.pcs[v].Releasing? && s.pcs[v].at.Rechecking?
    ensures CanAdvance(s, v) && Shape(s) && Busy(Continue(s, v), t, u, v, e)
    ensures Remaining(Continue(s, v).pcs[v]) < Remaining(s.pcs[v])
  {
    BusyFacts(s, t, u, v, e);
    PointOf(s, v);
    hide *;
    var d, p, x := s.pcs[v].dst, s.pcs[v].purpose, s.pcs[v].at.e;
    ErasesReleasing(s, d, p, x, e);
    if s.heap[x].count == 0 {
      RecheckTo(s, t, u, v, e, d, p, x, Erasing(x));
    } else {
      RecheckTo(s, t, u, v, e, d, p, x, Unlocking);
    }
  }

  lemma UnlockMoves(s: State, v: Thread, d: Handle, p: Purpose)
    requires Shape(s) && v in s.pcs && s.pcs[v] == Releasing(d, p, Unlocking)
    ensures CanAdvance(s, v) && Continue(s, v) == Goto(s, v, Releasing(d, p, Dropped)).(lock := None)
  {
    hide Shape, EraseKey;
  }

  lemma HolderUnlocks(s: State, t: Thread, u: Thread, v: Thread, e: Id)
    requires Busy(s, t, u, v, e) && s.pcs[v].Releasing? && s.pcs[v].at.Unlocking?
    ensures CanAdvance(s, v) && Shape(s)
    ensures Pair(Continue(s, v), t, u, e) && Continue(s, v).lock == None && Zero(Continue(s, v), e)
  {
    BusyFacts(s, t, u, v, e);
    hide Busy, Pair, Shape, Exclusive, ErasesOther, Continue, CanAdvance, Weak;
    UnlockMoves(s, v, s.pcs[v].dst, s.pcs[v].purpose);
    PairKept(s, t, u, v, e);
  }

  /** Erasing another entry by key touches nothing that the two waiting threads need. */
  lemma EraseSpares(s: State, x: Id, e: Id, m: State)
    requires Canonical(s.heap, s.pool) && !s.halted && x < |s.heap| && x in s.pool && x != e
    requires e in s.pool && Zero(s, e) && m == EraseKey(s, s.heap[x].text)
    ensures Spares(s, m, e)
  {
    EraseOnlyOne(s, x, e);
    EraseKeyMoves(s, s.heap[x].text);
    hide EraseKey, Canonical;
  }

  lemma EraseMoves(s: State, v: Thread, d: Handle, p: Purpose, x: Id)
    requires Shape(s) && v in s.pcs && x < |s.heap| && s.pcs[v] == Releasing(d, p, Erasing(x))
    ensures CanAdvance(s, v) && Continue(s, v) == Goto(EraseKey(s, s.heap[x].text), v, Releasing(d, p, Unlocking))
  {
    hide Shape, EraseKey;
  }

  /** The holder erases another entry. */
  lemma HolderErases(s: State, t: Thread, u: Thread, v: Thread, e: Id)
    requires Busy(s, t, u, v, e) && s.pcs[v].Releasing? && s.pcs[v].at.Erasing?
    ensures CanAdvance(s, v) && Shape(s) && Busy(Continue(s, v), t, u, v, e)
    ensures Remaining(Continue(s, v).pcs[v]) < Remaining(s.pcs[v])
  {
    BusyFacts(s, t, u, v, e);
    PointOf(s, v);
    hide *;
    var d, p, x := s.pcs[v].dst, s.pcs[v].purpose, s.pcs[v].at.e;
    EraseMoves(s, v, d, p, x);
    ReleaseStages(d, p, x);
    ErasesReleasing(s, d, p, x, e);
    var m := EraseKey(s, s.heap[x].text);
    EraseSpares(s, x, e, m);
    ErasesReleasing(m, d, p, x, e);
    StillBusy(s, t, u, v, e, m, Releasing(d, p, Unlocking));
  }

  lemma InsertMoves(s: State, v: Thread, d: Handle, text: Str, e: Id) returns (x: Id, m: State)
    requires Shape(s) && v in s.pcs && s.pcs[v] == Assigning(d, Inserting(text)) && !s.halted
    requires e in s.pool && Zero(s, e)
    ensures CanAdvance(s, v) && Continue(s, v) == Goto(m, v, Assigning(d, Comparing(x)))
    ensures Spares(s, m, e) && m.refs == s.refs && s.pool <= m.pool
  {
    x := Inserted(s, v, d, text);
    hide Shape, Hit, Continue;
    m := if Hit(s.heap, s.pool, text) == {} then s.(heap := s.heap + [Entry(text, 0)], pool := s.pool + {x}) else s;
  }

  lemma HolderInserts(s: State, t: Thread, u: Thread, v: Thread, e: Id)
    requires Busy(s, t, u, v, e) && s.pcs[v].Assigning? && s.pcs[v].step.Inserting?
    ensures CanAdvance(s, v) && Shape(s) && Busy(Continue(s, v), t, u, v, e)
    ensures Remaining(Continue(s, v).pcs[v]) < Remaining(s.pcs[v])
  {
    hide *;
    BusyFacts(s, t, u, v, e);
    var d, text := s.pcs[v].dst, s.pcs[v].step.text;
    ErasesLater(s, d, Inserting(text), e);
    var x, m := InsertMoves(s, v, d, text, e);
    ErasesLater(m, d, Comparing(x), e);
    SetStages(d, text, x, x);
    StillBusy(s, t, u, v, e, m, Assigning(d, Comparing(x)));
  }

  lemma CompareMoves(s: State, v: Thread, d: Handle, x: Id, step: Setting)
    requires Shape(s) && v in s.pcs && s.pcs[v] == Assigning(d, Comparing(x)) && d in s.refs
    requires step == if x == s.refs[d] then Leaving else Replacing(x)
    ensures CanAdvance(s, v) && Continue(s, v) == Goto(s, v, Assigning(d, step))
  {
    hide Shape;
  }

  lemma HolderCompares(s: State, t: Thread, u: Thread, v: Thread, e: Id)
    requires Busy(s, t, u, v, e) && s.pcs[v].Assigning? && s.pcs[v].step.Comparing?
    ensures CanAdvance(s, v) && Shape(s) && Busy(Continue(s, v), t, u, v, e)
    ensures Remaining(Continue(s, v).pcs[v]) < Remaining(s.pcs[v])
  {
    hide *;
    BusyFacts(s, t, u, v, e);
    var d, x := s.pcs[v].dst, s.pcs[v].step.e;
    ErasesLater(s, d, Comparing(x), e);
    SetStages(d, [], x, x);
    if x == s.refs[d] {
      CompareMoves(s, v, d, x, Leaving);
      ErasesNoMore(s, d, Leaving, e);
      StillBusy(s, t, u, v, e, s, Assigning(d, Leaving));
    } else {
      CompareMoves(s, v, d, x, Replacing(x));
      ErasesLater(s, d, Replacing(x), e);
      StillBusy(s, t, u, v, e, s, Assigning(d, Replacing(x)));
    }
  }

  lemma ReplaceMoves(s: State, v: Thread, d: Handle, x: Id, e: Id) returns (m: State, step: Setting)
    requires Weak(s) && v in s.pcs && s.pcs[v] == Assigning(d, Replacing(x)) && !s.halted
    requires e in s.pool && Zero(s, e)
    ensures Shape(s) && CanAdvance(s, v) && Continue(s, v) == Goto(m, v, Assigning(d, step))
    ensures Spares(s, m, e) && m.pool == s.pool && d in s.refs
    ensures step == Storing(x) || (step == Discarding(s.refs[d], x) && s.refs[d] != e)
  {
    OwnedIsCounted(s, v, d);
    hide Shape, Weak, Always;
    var prev := s.refs[d];
    m := if prev == EMPTY then s else AddCount(s, prev, -1);
    step := Continue(s, v).pcs[v].step;
  }

  lemma HolderReplaces(s: State, t: Thread, u: Thread, v: Thread, e: Id)
    requires Busy(s, t, u, v, e) && s.pcs[v].Assigning? && s.pcs[v].step.Replacing?
    ensures CanAdvance(s, v) && Shape(s) && Busy(Continue(s, v), t, u, v, e)
    ensures Remaining(Continue(s, v).pcs[v]) < Remaining(s.pcs[v])
  {
    hide *;
    BusyFacts(s, t, u, v, e);
    var d, x := s.pcs[v].dst, s.pcs[v].step.e;
    ErasesLater(s, d, Replacing(x), e);
    var m, step := ReplaceMoves(s, v, d, x, e);
    SetStages(d, [], s.refs[d], x);
    if step.Storing? {
      ErasesNoMore(m, d, Storing(x), e);
      StillBusy(s, t, u, v, e, m, Assigning(d, Storing(x)));
    } else {
      ErasesPrevious(m, d, s.refs[d], x, e);
      StillBusy(s, t, u, v, e, m, Assigning(d, Discarding(s.refs[d], x)));
    }
  }

  lemma DiscardMoves(s: State, v: Thread, d: Handle, prev: Id, x: Id)
    requires Shape(s) && v in s.pcs && s.pcs[v] == Assigning(d, Discarding(prev, x)) && prev < |s.heap|
    ensures CanAdvance(s, v) && Continue(s, v) == Goto(EraseKey(s, s.heap[prev].text), v, Assigning(d, Storing(x)))
  {
    hide Shape, EraseKey;
  }

  lemma HolderDiscards(s: State, t: Thread, u: Thread, v: Thread, e: Id)
    requires Busy(s, t, u, v, e) && s.pcs[v].Assigning? && s.pcs[v].step.Discarding?
    ensures CanAdvance(s, v) && Shape(s) && Busy(Continue(s, v), t, u, v, e)
    ensures Remaining(Continue(s, v).pcs[v]) < Remaining(s.pcs[v])
  {
    BusyFacts(s, t, u, v, e);
    PointOf(s, v);
    hide *;
    var d, prev, x := s.pcs[v].dst, s.pcs[v].step.prev, s.pcs[v].step.e;
    ErasesPrevious(s, d, prev, x, e);
    DiscardMoves(s, v, d, prev, x);
    SetStages(d, [], prev, x);
    var m := EraseKey(s, s.heap[prev].text);
    EraseSpares(s, prev, e, m);
    ErasesNoMore(m, d, Storing(x), e);
    StillBusy(s, t, u, v, e, m, Assigning(d, Storing(x)));
  }

  lemma StoreMoves(s: State, v: Thread, d: Handle, x: Id, e: Id) returns (m: State)
    requires Shape(s) && v in s.pcs && s.pcs[v] == Assigning(d, Storing(x)) && Spares(s, s, e)
    ensures CanAdvance(s, v) && Continue(s, v) == Goto(m, v, Assigning(d, Counting)) && Spares(s, m, e)
  {
    hide Shape;
    m := s.(refs := s.refs[d := x]);
  }

  lemma HolderStores(s: State, t: Thread, u: Thread, v: Thread, e: Id)
    requires Busy(s, t, u, v, e) && s.pcs[v].Assigning? && s.pcs[v].step.Storing?
    ensures CanAdvance(s, v) && Shape(s) && Busy(Continue(s, v), t, u, v, e)
    ensures Remaining(Continue(s, v).pcs[v]) < Remaining(s.pcs[v])
  {
    hide *;
    BusyFacts(s, t, u, v, e);
    var d, x := s.pcs[v].dst, s.pcs[v].step.e;
    var m := StoreMoves(s, v, d, x, e);
    SetStages(d, [], x, x);
    ErasesNoMore(m, d, Counting, e);
    StillBusy(s, t, u, v, e, m, Assigning(d, Counting));
  }

  lemma CountMoves(s: State, v: Thread, d: Handle, e: Id)
    requires Shape(s) && v in s.pcs && s.pcs[v] == Assigning(d, Counting) && Spares(s, s, e)
    requires d in s.refs && s.refs[d] < |s.heap| && EMPTY < e
    ensures CanAdvance(s, v)
    ensures
      var s' := Continue(s, v);
      && !s'.halted && s'.lock == s.lock && e in s'.pool && v in s'.pcs && s'.pcs[v] == Assigning(d, Leaving)
      && OwnedAtMostBy(s', d, e)
  {
    hide Shape;
  }

  lemma NowRevived(s: State, t: Thread, u: Thread, v: Thread, d: Handle, e: Id)
    requires Pair(s, t, u, e) && v != t && v != u && v in s.pcs && s.pcs[v] == Assigning(d, Leaving)
    requires s.lock == Some(v) && ErasesOther(s, s.pcs[v], e) && OwnedAtMostBy(s, d, e)
    ensures Busy(s, t, u, v, e)
  {
    hide Pair, ErasesOther;
  }

  /** The holder counts its new entry: perhaps `e` itself, which it thereby revives. */
  lemma HolderCounts(s: State, t: Thread, u: Thread, v: Thread, e: Id)
    requires Busy(s, t, u, v, e) && s.pcs[v].Assigning? && s.pcs[v].step.Counting?
    ensures CanAdvance(s, v) && Shape(s) && Busy(Continue(s, v), t, u, v, e)
    ensures Remaining(Continue(s, v).pcs[v]) < Remaining(s.pcs[v])
  {
    BusyFacts(s, t, u, v, e);
    PointOf(s, v);
    assert EMPTY < e;
    hide *;
    var d := s.pcs[v].dst;
    CountMoves(s, v, d, e);
    SetStages(d, [], e, e);
    PairKept(s, t, u, v, e);
    ErasesNoMore(Continue(s, v), d, Leaving, e);
    NowRevived(Continue(s, v), t, u, v, d, e);
  }

  lemma LeaveMoves(s: State, v: Thread, d: Handle)
    requires Shape(s) && v in s.pcs && s.pcs[v] == Assigning(d, Leaving)
    ensures CanAdvance(s, v) && Continue(s, v) == Goto(s, v, Idle).(lock := None)
  {
    hide Shape;
  }

  /** The holder gives the lock back at the end of its operation. */
  lemma HolderLeaves(s: State, t: Thread, u: Thread, v: Thread, e: Id)
    requires Busy(s, t, u, v, e) && s.pcs[v].Assigning? && s.pcs[v].step.Leaving?
    ensures CanAdvance(s, v) && Shape(s)
    ensures
      var s', d := Continue(s, v), s.pcs[v].dst;
      && Pair(s', t, u, e) && s'.lock == None && v in s'.pcs && s'.pcs[v].Idle?
      && OwnedAtMostBy(s', d, e) && Writable(s', d)
  {
    BusyFacts(s, t, u, v, e);
    PointOf(s, v);
    var d := s.pcs[v].dst;
    LeaveMoves(s, v, d);
    var s' := Continue(s, v);
    assert s.pcs[v] == Assigning(d, Leaving) && s' == Goto(s, v, Idle).(lock := None);
    assert d in s.pcs[v].Writes();
    hide Weak, Shape, ErasesOther, Continue, CanAdvance;
    NobodyUses(s, v, d);
    PairKept(s, t, u, v, e);
  }

  lemma NobodyUses(s: State, v: Thread, d: Handle)
    requires Exclusive(s) && v in s.pcs && d in s.pcs[v].Writes() && d in s.refs
    ensures Writable(Goto(s, v, Idle).(lock := None), d)
  {
    forall w | w in s.pcs && w != v ensures d !in s.pcs[w].Writes() && d !in s.pcs[w].Reads() {
      assert d !in s.pcs[w].Touches();
    }
  }

  /** The holder runs until the lock is free again; if it revived `e`, it then gives `e` up once more. */
  lemma {:induction false} FreeTheLock(s: State, t: Thread, u: Thread, v: Thread, e: Id) returns (ls: seq<Label>)
    requires Busy(s, t, u, v, e)
    ensures Run(s, ls) && Pair(After(s, ls), t, u, e) && After(s, ls).lock == None && Zero(After(s, ls), e)
    decreases Remaining(s.pcs[v])
  {
    var more: seq<Label>;
    if s.pcs[v].Releasing? && s.pcs[v].at.Unlocking? {
      HolderUnlocks(s, t, u, v, e);
      hide *;
      RunNothing(Continue(s, v));
      more := [];
    } else if s.pcs[v].Assigning? && s.pcs[v].step.Leaving? {
      HolderLeaves(s, t, u, v, e);
      more := GiveUp(Continue(s, v), t, u, v, s.pcs[v].dst, e);
    } else {
      HolderSteps(s, t, u, v, e);
      more := FreeTheLock(Continue(s, v), t, u, v, e);
    }
    ls := StepThen(s, v, more);
  }

  lemma HolderSteps(s: State, t: Thread, u: Thread, v: Thread, e: Id)
    requires Busy(s, t, u, v, e)
    requires !(s.pcs[v].Releasing? && s.pcs[v].at.Unlocking?) && !(s.pcs[v].Assigning? && s.pcs[v].step.Leaving?)
    ensures CanAdvance(s, v) && Shape(s) && Busy(Continue(s, v), t, u, v, e)
    ensures Remaining(Continue(s, v).pcs[v]) < Remaining(s.pcs[v])
  {
    assert s.pcs[v].HoldsLock();
    hide Busy, Continue, Shape, Remaining, CanAdvance;
    match s.pcs[v] {
      case Releasing(_, _, at) =>
        if at.Rechecking? {
          HolderRechecks(s, t, u, v, e);
        } else {
          HolderErases(s, t, u, v, e);
        }
      case Assigning(_, step) =>
        match step {
          case Inserting(_) => HolderInserts(s, t, u, v, e);
          case Comparing(_) => HolderCompares(s, t, u, v, e);
          case Replacing(_) => HolderReplaces(s, t, u, v, e);
          case Discarding(_, _) => HolderDiscards(s, t, u, v, e);
          case Storing(_) => HolderStores(s, t, u, v, e);
          case Counting => HolderCounts(s, t, u, v, e);
        }
    }
  }

  /** One step before a run. */
  lemma StepThen(s: State, v: Thread, more: seq<Label>) returns (ls: seq<Label>)
    requires !s.halted && Shape(s) && CanAdvance(s, v) && Run(Continue(s, v), more)
    ensures ls == [Advance(v)] + more && Run(s, ls) && After(s, ls) == After(Continue(s, v), more)
  {
    ls := [Advance(v)] + more;
    hide Shape, Continue, CanAdvance;
    assert ls[0] == Advance(v) && ls[1..] == more;
  }

  /** A handle that alone counts `e` gives it up. */
  lemma GiveUp(s: State, t: Thread, u: Thread, v: Thread, d: Handle, e: Id) returns (ls: seq<Label>)
    requires Pair(s, t, u, e) && s.lock == None && v != t && v != u && v in s.pcs && s.pcs[v].Idle?
    requires OwnedAtMostBy(s, d, e) && Writable(s, d)
    ensures Run(s, ls) && Pair(After(s, ls), t, u, e) && After(s, ls).lock == None && Zero(After(s, ls), e)
  {
    WeakShape(s);
    hide Weak, Run, After, Shape, Exclusive, Writable;
    if Zero(s, e) {
      RunNothing(s);
      ls := [];
    } else {
      ls := DropAlone(s, v, d, e);
      RunWeak(s, ls);
    }
  }

  // ---- From a violating step -----------------------------------------------------------------

  /** What is left of the invariant after a violating step, for the two threads it concerns. */
  lemma AfterViolation(s: State, t: Thread, u: Thread, e: Id)
    requires Inv(s) && CanAdvance(s, t) && DropsToZero(s, t, e) && u in s.pcs && u != t && s.pcs[u].Pending(e)
    ensures
      var s' := Continue(s, t);
      && Weak(s') && !s'.halted && Zero(s', e) && e != EMPTY && e in s'.pool && s'.pcs[u] == s.pcs[u]
      && s'.lock == s.lock && s'.pool == s.pool && !s.pcs[u].at.Erasing?
      && (if s.pcs[t].Releasing? then s'.pcs[t] == s.pcs[t].(at := Awaiting(e))
          else s'.pcs[t] == Assigning(s.pcs[t].dst, Discarding(e, s.pcs[t].step.e)))
  {
    InvIsWeak(s);
    StepWeak(s, Advance(t));
    assert PcFacts(s, s.pcs[u]) && s.pcs[u].Dooms(e);
    hide Weak, DataInv, NoLeak, LockHeld, Shape, Exclusive;
  }

  lemma DoomsOther(s: State, u: Thread, v: Thread, e: Id)
    requires PendingInPool(s) && u in s.pcs && v in s.pcs && u != v && s.pcs[u].Dooms(e)
    ensures forall x: Id :: s.pcs[v].Dooms(x) ==> x in s.pool && x != e
  {
  }

  lemma SetterOwns(s: State, v: Thread)
    requires Inv(s) && v in s.pcs && s.pcs[v].Assigning? && !s.pcs[v].Floats()
    ensures s.pcs[v].dst in s.refs && s.refs[s.pcs[v].dst] in s.pool
  {
    var d := s.pcs[v].dst;
    InvIsWeak(s);
    assert d in s.pcs[v].Writes();
    hide Shape, PendingInPool, LockHeld, NoLeak, AllFacts, DataInv;
    OwnedIsCounted(s, v, d);
    OwnerCounts(s, d);
  }

  lemma DropKeepsPool(s: State, t: Thread, e: Id)
    requires Shape(s) && CanAdvance(s, t) && DropsToZero(s, t, e)
    ensures Continue(s, t).pool == s.pool && Continue(s, t).refs == s.refs && s.pcs.Keys <= Continue(s, t).pcs.Keys
  {
    hide Shape;
  }

  lemma InvIsOrderly(s: State)
    requires Inv(s)
    ensures Shape(s) && PendingInPool(s)
  {
  }

  /** The threads other than `t` stand as before, so the holder's erasing still finds what it needs. */
  lemma HolderIsFine(s: State, t: Thread, u: Thread, v: Thread, e: Id)
    requires Inv(s) && CanAdvance(s, t) && DropsToZero(s, t, e) && u in s.pcs && u != t && s.pcs[u].Pending(e)
    requires v in s.pcs && v != t && v != u
    ensures v in Continue(s, t).pcs && ErasesOther(Continue(s, t), s.pcs[v], e)
  {
    InvIsOrderly(s);
    hide Inv, Shape, PendingInPool, Continue, CanAdvance, DropsToZero, Zero;
    assert s.pcs[u].Dooms(e);
    hide Pc.Dooms, Pc.Pending;
    DoomsOther(s, u, v, e);
    DropKeepsPool(s, t, e);
    if s.pcs[v].Assigning? && !s.pcs[v].Floats() {
      SetterOwns(s, v);
    }
  }

  /** In the release case both threads end up waiting with the lock free. */
  lemma ReleaseOrphans(s: State, t: Thread, u: Thread, e: Id) returns (ls: seq<Label>, r: Thread, w: Thread)
    requires Inv(s) && CanAdvance(s, t) && DropsToZero(s, t, e) && u in s.pcs && u != t && s.pcs[u].Pending(e)
    requires s.pcs[t].Releasing? && s.pcs[u].at.Awaiting?
    ensures Shape(s) && Run(Continue(s, t), ls) && Orphaned(After(Continue(s, t), ls), r, w, e)
  {
    AfterViolation(s, t, u, e);
    var s' := Continue(s, t);
    assert Pair(s', t, u, e);
    ls := [];
    if s'.lock != None {
      var v := s'.lock.value;
      assert v in s.pcs && v != t && v != u && s.pcs[v].HoldsLock() by { LockIsHeld(s); }
      HolderIsFine(s, t, u, v, e);
      assert Busy(s', t, u, v, e);
      hide Busy, Pair, Run, After, Inv, Continue;
      ls := FreeTheLock(s', t, u, v, e);
    }
    hide Pair, Run, After, Inv, Continue, Orphaned;
    var more := PairOrphans(After(s', ls), t, u, e);
    RunAppend(s', ls, more);
    ls := ls + more;
    r, w := u, t;
  }

  lemma LockIsHeld(s: State)
    requires LockHeld(s)
    ensures s.lock.Some? ==> s.lock.value in s.pcs && s.pcs[s.lock.value].HoldsLock()
    ensures forall t :: t in s.pcs && !s.pcs[t].HoldsLock() ==> s.lock != Some(t)
  {
  }

  /** The holder of the lock re-reads a zero count, erases by key, and gives the lock back. */
  lemma EraseHeld(s: State, u: Thread, d: Handle, p: Purpose, e: Id) returns (ls: seq<Label>)
    requires Shape(s) && Exclusive(s) && !s.halted && Zero(s, e)
    requires u in s.pcs && s.pcs[u] == Releasing(d, p, Rechecking(e))
    requires Hit(s.heap, s.pool, s.heap[e].text) != {}
    ensures Run(s, ls)
    ensures After(s, ls) == s.(pool := s.pool - Hit(s.heap, s.pool, s.heap[e].text), lock := None,
                               pcs := s.pcs[u := Releasing(d, p, Dropped)])
  {
    RunNothing(s);
    hide Hit, Shape, Exclusive, Run, After, PcShape;
    var s1 := Goto(s, u, Releasing(d, p, Erasing(e)));
    ls := Tick(s, [], s, u, s1);
    var s2 := Goto(s1.(pool := s.pool - Hit(s.heap, s.pool, s.heap[e].text)), u, Releasing(d, p, Unlocking));
    ls := Tick(s, ls, s1, u, s2);
    var s3 := Goto(s2, u, Releasing(d, p, Dropped)).(lock := None);
    ls := Tick(s, ls, s2, u, s3);
    assert s3.pcs == s.pcs[u := Releasing(d, p, Dropped)];
  }

  /** `set_impl` from the moment its old entry's count fell to zero. */
  lemma DiscardAlone(s: State, t: Thread, d: Handle, e: Id, x: Id) returns (ls: seq<Label>)
    requires Shape(s) && Exclusive(s) && !s.halted && t in s.pcs && s.pcs[t] == Assigning(d, Discarding(e, x))
    requires d in s.refs && e < |s.heap| && x < |s.heap| && Hit(s.heap, s.pool, s.heap[e].text) != {}
    ensures Run(s, ls)
    ensures After(s, ls) == s.(refs := s.refs[d := x], pool := s.pool - Hit(s.heap, s.pool, s.heap[e].text),
                               heap := if x == EMPTY then s.heap else Bump(s.heap, x, 1),
                               pcs := s.pcs[t := Idle], lock := None)
  {
    RunNothing(s);
    hide Hit, Shape, Exclusive, Run, After, PcShape;
    var s1 := Goto(s.(pool := s.pool - Hit(s.heap, s.pool, s.heap[e].text)), t, Assigning(d, Storing(x)));
    ls := Tick(s, [], s, t, s1);
    var s2 := Goto(s1.(refs := s.refs[d := x]), t, Assigning(d, Counting));
    ls := Tick(s, ls, s1, t, s2);
    var s3 := Goto(if x == EMPTY then s2 else AddCount(s2, x, 1), t, Assigning(d, Leaving));
    ls := Tick(s, ls, s2, t, s3);
    var s4 := Goto(s3, t, Idle).(lock := None);
    ls := Tick(s, ls, s3, t, s4);
    assert s4.pcs == s.pcs[t := Idle];
  }

  /** In the release case with the earlier releaser holding the lock, that one erases first. */
  lemma HeldOrphans(s: State, t: Thread, u: Thread, e: Id) returns (ls: seq<Label>, r: Thread, w: Thread)
    requires Inv(s) && CanAdvance(s, t) && DropsToZero(s, t, e) && u in s.pcs && u != t && s.pcs[u].Pending(e)
    requires s.pcs[t].Releasing? && s.pcs[u].at.Rechecking?
    ensures Shape(s) && Run(Continue(s, t), ls) && Orphaned(After(Continue(s, t), ls), r, w, e)
  {
    AfterViolation(s, t, u, e);
    var s', d, p := Continue(s, t), s.pcs[u].dst, s.pcs[u].purpose;
    assert s.pcs[u] == Releasing(d, p, Rechecking(e));
    hide Inv, Continue, CanAdvance, DropsToZero;
    var m: State;
    ls, m := HeldErases(s', t, u, d, p, e);
    hide Weak, Run, After, Hit, Rested, Orphaned;
    var more := FinishDropped(m, u, e);
    RunAppend(s', ls, more);
    ls := ls + more;
    NowOrphaned(m, After(m, more), u, t, e);
    r, w := t, u;
  }

  lemma HeldErases(s: State, t: Thread, u: Thread, d: Handle, p: Purpose, e: Id) returns (ls: seq<Label>, m: State)
    requires Weak(s) && !s.halted && AwaitsZero(s, t, e) && t != u && e in s.pool
    requires u in s.pcs && s.pcs[u] == Releasing(d, p, Rechecking(e))
    ensures Run(s, ls) && After(s, ls) == m && Weak(m) && !m.halted && m.lock == None && e < |m.heap|
    ensures Hit(m.heap, m.pool, m.heap[e].text) == {}
    ensures u in m.pcs && m.pcs[u].Releasing? && m.pcs[u].at.Dropped? && AwaitsZero(m, t, e)
  {
    WeakShape(s);
    InPoolIsHit(s, e);
    HitErased(s.heap, s.pool, s.heap[e].text);
    hide Weak, Run, After, Shape, Exclusive, Hit;
    ls := EraseHeld(s, u, d, p, e);
    RunWeak(s, ls);
    m := After(s, ls);
  }

  lemma SetterFacts(s: State, t: Thread, u: Thread, e: Id)
    requires Inv(s) && CanAdvance(s, t) && DropsToZero(s, t, e) && u in s.pcs && u != t && s.pcs[u].Pending(e)
    requires s.pcs[t].Assigning?
    ensures s.pcs[t].step.Replacing? && s.pcs[t].step.e != e && s.pcs[u].at == Awaiting(e)
    ensures Shape(s) && s.pcs[t].dst in Continue(s, t).refs
  {
    LockIsHeld(s);
    DropKeepsPool(s, t, e);
    assert PcFacts(s, s.pcs[t]);
    hide DataInv, NoLeak, Shape, Exclusive, PendingInPool, Continue, LockHeld;
  }

  /** In the assignment case the thread erases the entry itself before it gives the lock back. */
  lemma SetOrphans(s: State, t: Thread, u: Thread, e: Id) returns (ls: seq<Label>, r: Thread, w: Thread)
    requires Inv(s) && CanAdvance(s, t) && DropsToZero(s, t, e) && u in s.pcs && u != t && s.pcs[u].Pending(e)
    requires s.pcs[t].Assigning?
    ensures Shape(s) && Run(Continue(s, t), ls) && Orphaned(After(Continue(s, t), ls), r, w, e)
  {
    SetterFacts(s, t, u, e);
    hide Inv, Continue, CanAdvance, DropsToZero;
    AfterViolation(s, t, u, e);
    var s', d, x := Continue(s, t), s.pcs[t].dst, s.pcs[t].step.e;
    ls := SetterOrphans(s', t, u, d, e, x);
    r, w := u, t;
  }

  lemma CountedElsewhere(s: State, heap: seq<Entry>, e: Id, x: Id)
    requires Zero(s, e) && x != e && x < |s.heap|
    requires heap == if x == EMPTY then s.heap else Bump(s.heap, x, 1)
    ensures |heap| == |s.heap| && heap[e].count == 0
    ensures forall y: Id :: y < |s.heap| ==> heap[y].text == s.heap[y].text
  {
  }

  lemma SetterErases(s: State, t: Thread, d: Handle, e: Id, x: Id) returns (ls: seq<Label>, m: State)
    requires Weak(s) && !s.halted && Zero(s, e) && e in s.pool && x != e
    requires t in s.pcs && s.pcs[t] == Assigning(d, Discarding(e, x)) && d in s.refs
    ensures Run(s, ls) && After(s, ls) == m && e < |s.heap|
    ensures Rested(s.(pool := s.pool - Hit(s.heap, s.pool, s.heap[e].text), lock := None), t, e, m)
  {
    WeakShape(s);
    InPoolIsHit(s, e);
    PointOf(s, t);
    hide Weak, Run, After, Shape, Exclusive, Hit;
    ls := DiscardAlone(s, t, d, e, x);
    m := After(s, ls);
    CountedElsewhere(s, m.heap, e, x);
  }

  lemma SetterOrphans(s: State, t: Thread, u: Thread, d: Handle, e: Id, x: Id) returns (ls: seq<Label>)
    requires Weak(s) && !s.halted && AwaitsZero(s, u, e) && t != u && e in s.pool && e != EMPTY && x != e
    requires t in s.pcs && s.pcs[t] == Assigning(d, Discarding(e, x)) && d in s.refs
    ensures Run(s, ls) && Orphaned(After(s, ls), u, t, e)
  {
    hide Weak, Run, After, Hit, Rested, Orphaned;
    var m: State;
    ls, m := SetterErases(s, t, d, e, x);
    RunWeak(s, ls);
    HitErased(s.heap, s.pool, s.heap[e].text);
    NowOrphaned(s.(pool := s.pool - Hit(s.heap, s.pool, s.heap[e].text), lock := None), m, t, u, e);
  }

  // ---- The exact condition ---------------------------------------------------------------------

  /** From every violating step a releaser can be left whose entry is gone. */
  lemma ViolationOrphans(s: State, l: Label) returns (ls: seq<Label>, r: Thread, w: Thread, e: Id)
    requires Inv(s) && CanStep(s, l) && !Respects(s, l)
    ensures Run(Next(s, l), ls) && Orphaned(After(Next(s, l), ls), r, w, e)
  {
    var t := l.t;
    var u: Thread;
    e, u :| DropsToZero(s, t, e) && u in s.pcs && u != t && s.pcs[u].Pending(e);
    AfterViolation(s, t, u, e);
    hide Inv, Run, After, Orphaned, Weak, Continue;
    if s.pcs[t].Assigning? {
      ls, r, w := SetOrphans(s, t, u, e);
    } else if s.pcs[u].at.Awaiting? {
      ls, r, w := ReleaseOrphans(s, t, u, e);
    } else {
      ls, r, w := HeldOrphans(s, t, u, e);
    }
  }

  /** From every step that breaks the hypothesis there is a continuation that halts the process. */
  lemma {:induction false} ViolationCanHalt(s: State, l: Label) returns (ls: seq<Label>)
    requires Inv(s) && CanStep(s, l) && !Respects(s, l)
    ensures Run(Next(s, l), ls) && After(Next(s, l), ls).halted
  {
    hide Inv, Run, After, Orphaned, Respects, Next, CanStep;
    var r, w, e;
    ls, r, w, e := ViolationOrphans(s, l);
    var s' := Next(s, l);
    var more := OrphanHalts(After(s', ls), r, w, e);
    RunAppend(s', ls, more);
    ls := ls + more;
  }

  /** And one that leaves a handle at rest outside the pool. */
  lemma {:induction false} ViolationCanUnseat(s: State, l: Label) returns (ls: seq<Label>, h: Handle)
    requires Inv(s) && CanStep(s, l) && !Respects(s, l)
    ensures Run(Next(s, l), ls) && Unseated(After(Next(s, l), ls), h)
  {
    hide Inv, Run, After, Orphaned, Respects, Next, CanStep;
    var r, w, e;
    ls, r, w, e := ViolationOrphans(s, l);
    var s' := Next(s, l);
    var more;
    more, h := OrphanUnseats(After(s', ls), r, w, e);
    RunAppend(s', ls, more);
    ls := ls + more;
  }

  /** The first step of a run that breaks the hypothesis, and the run up to it. */
  lemma {:induction false} FirstViolation(s: State, ls: seq<Label>) returns (pre: seq<Label>, l: Label)
    requires Inv(s) && Run(s, ls) && !RespectsAll(s, ls)
    ensures Run(s, pre) && Inv(After(s, pre)) && CanStep(After(s, pre), l) && !Respects(After(s, pre), l)
    decreases |ls|
  {
    hide Inv, CanStep, Next, Respects;
    if !Respects(s, ls[0]) {
      RunNothing(s);
      pre, l := [], ls[0];
    } else {
      StepKeepsExactly(s, ls[0]);
      var rest;
      rest, l := FirstViolation(Next(s, ls[0]), ls[1..]);
      pre := [ls[0]] + rest;
      assert pre[0] == ls[0] && pre[1..] == rest;
    }
  }

  ghost predicate CanBreak(s: State) {
    exists ls :: Run(s, ls) && !RespectsAll(s, ls)
  }

  ghost predicate CanHalt(s: State) {
    exists ls :: Run(s, ls) && After(s, ls).halted
  }

  ghost predicate CanUnseat(s: State) {
    exists ls, h :: Run(s, ls) && Unseated(After(s, ls), h)
  }

  lemma ThenStep(s: State, pre: seq<Label>, l: Label, more: seq<Label>) returns (ls: seq<Label>)
    requires Run(s, pre) && CanStep(After(s, pre), l) && Run(Next(After(s, pre), l), more)
    ensures Run(s, ls) && After(s, ls) == After(Next(After(s, pre), l), more)
  {
    hide CanStep, Next, Run, After;
    var first := RunStep(s, pre, l);
    RunAppend(s, first, more);
    ls := first + more;
  }

  /** The process can be halted, and a handle at rest can be left outside the pool, from exactly the
      states of the invariant from which some run breaks the hypothesis. */
  lemma {:induction false} FailsExactly(s: State)
    requires Inv(s)
    ensures CanHalt(s) <==> CanBreak(s)
    ensures CanUnseat(s) <==> CanBreak(s)
  {
    hide Inv, RespectsAll, CanStep, Next, Respects, Unseated, Run, After;
    if CanBreak(s) {
      var bad :| Run(s, bad) && !RespectsAll(s, bad);
      var pre, l := FirstViolation(s, bad);
      var m := After(s, pre);
      var more := ViolationCanHalt(m, l);
      var ls := ThenStep(s, pre, l, more);
      var h;
      more, h := ViolationCanUnseat(m, l);
      ls := ThenStep(s, pre, l, more);
    }
    forall ls | Run(s, ls) && RespectsAll(s, ls)
      ensures !After(s, ls).halted && forall h :: !Unseated(After(s, ls), h)
    {
      RunSafeExactly(s, ls);
      InvIsSafe(After(s, ls));
    }
  }

  lemma InvIsSafe(s: State)
    requires Inv(s)
    ensures !s.halted && forall h :: !Unseated(s, h)
  {
    hide DataInv;
    forall h | AtRest(s, h) ensures s.refs[h] in s.pool {
      NotFloating(s, h);
      OwnerCounts(s, h);
    }
  }

  // ---- From the initial state ------------------------------------------------------------------

  lemma ThreadsStay(s: State, l: Label)
    requires CanStep(s, l)
    ensures Next(s, l).pcs.Keys == s.pcs.Keys
  {
    match l {
      case Begin(t, op) => assert Start(s, t, op).pcs == s.pcs[t := Start(s, t, op).pcs[t]];
      case Advance(t) =>
        PointOf(s, t);
        assert Continue(s, t).pcs == s.pcs[t := Continue(s, t).pcs[t]];
    }
  }

  /** A thread alone never finds an earlier releaser. */
  lemma {:induction false} AloneRespects(s: State, ls: seq<Label>)
    requires Run(s, ls) && forall t, u :: t in s.pcs && u in s.pcs ==> t == u
    ensures RespectsAll(s, ls)
    decreases |ls|
  {
    hide CanStep, Next;
    if ls != [] {
      ThreadsStay(s, ls[0]);
      AloneRespects(Next(s, ls[0]), ls[1..]);
    }
  }

  lemma TwoThreadsBreak(threads: set<Thread>, a: Thread, b: Thread)
    requires a in threads && b in threads && a != b
    ensures CanBreak(Init(threads))
  {
    var s := Init(threads);
    InitInv(threads);
    hide Inv, Run, After, RespectsAll, Exclusive, Shape, Init;
    var ls := BothPending(threads, a, b);
    if RespectsAll(s, ls) {
      RunSafeExactly(s, ls);
      AtMostOneDooms(After(s, ls), a, b, 1);
    }
  }

  lemma AtMostOneDooms(s: State, a: Thread, b: Thread, e: Id)
    requires Inv(s) && a in s.pcs && b in s.pcs && s.pcs[a].Dooms(e) && s.pcs[b].Dooms(e)
    ensures a == b
  {
  }

  /** A fresh pool can reach the halt, and a handle at rest outside the pool, exactly when at least two
      threads use it. */
  lemma {:induction false} FreshPoolFailsExactly(threads: set<Thread>)
    ensures CanHalt(Init(threads)) <==> |threads| >= 2
    ensures CanUnseat(Init(threads)) <==> |threads| >= 2
  {
    var s := Init(threads);
    InitInv(threads);
    FailsExactly(s);
    hide Run, CanHalt, CanUnseat, RespectsAll;
    if |threads| >= 2 {
      var a :| a in threads;
      assert |threads - {a}| >= 1;
      var b :| b in threads - {a};
      TwoThreadsBreak(threads, a, b);
    } else {
      forall t, u | t in s.pcs && u in s.pcs ensures t == u {
        assert |threads - {t}| == 0;
      }
      forall ls | Run(s, ls) ensures RespectsAll(s, ls) {
        AloneRespects(s, ls);
      }
    }
  }
}
