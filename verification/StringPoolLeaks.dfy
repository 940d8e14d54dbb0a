/** No leak, in every run and without any hypothesis: an entry that nobody counts is never forgotten. */
module StringPoolLeaks {
  import opened Hash
  import opened Options
  import opened StringPool
  import opened StringPoolCounts

  ghost predicate LockHeld(s: State) {
    && (s.lock.Some? ==> s.lock.value in s.pcs)
    && forall t :: t in s.pcs ==> (s.pcs[t].HoldsLock() <==> s.lock == Some(t))
  }

  /** The lock holder is about to count `e`, or about to discard it. */
  predicate InFlight(refs: Refs, pc: Pc, e: Id) {
    pc.Assigning? && match pc.step
      case Comparing(x) => x == e
      case Replacing(x) => x == e
      case Discarding(p, x) => p == e || x == e
      case Storing(x) => x == e
      case Counting => pc.dst in refs && refs[pc.dst] == e
      case _ => false
  }

  /** The thread at `pc` will erase the uncounted entry `e`, or count it. */
  predicate Covers(refs: Refs, pc: Pc, e: Id) {
    pc.Pending(e) || InFlight(refs, pc, e)
  }

  ghost predicate Zero(s: State, e: Id) {
    e < |s.heap| && s.heap[e].count == 0
  }

  /** An uncounted entry is never forgotten: some thread will erase it or count it. */
  ghost predicate NoLeak(s: State) {
    forall e: Id :: e in s.pool && e != EMPTY && e < |s.heap| && s.heap[e].count == 0 ==>
      exists t :: t in s.pcs && Covers(s.refs, s.pcs[t], e)
  }

  /** Only `t` moves, and it leaves other threads' handles alone. */
  ghost predicate OwnMove(s: State, s': State, t: Thread, pc': Pc) {
    && t in s.pcs && s'.pcs == s.pcs[t := pc']
    && (forall u, h :: u in s.pcs && u != t && h in s.pcs[u].Touches() && h in s.refs ==>
          h in s'.refs && s'.refs[h] == s.refs[h])
  }

  lemma LockKept(s: State, s': State, t: Thread, pc': Pc)
    requires LockHeld(s) && t in s.pcs && s'.pcs == s.pcs[t := pc']
    requires s'.lock == if pc'.HoldsLock() == s.pcs[t].HoldsLock() then s.lock
                        else if pc'.HoldsLock() then Some(t) else None
    requires pc'.HoldsLock() ==> s.pcs[t].HoldsLock() || s.lock == None
    ensures LockHeld(s')
  {
  }

  lemma CoversStable(refs: Refs, refs': Refs, pc: Pc, e: Id)
    requires Covers(refs, pc, e)
    requires forall h :: h in pc.Touches() && h in refs ==> h in refs' && refs'[h] == refs[h]
    ensures Covers(refs', pc, e)
  {
    assert pc.dst in pc.Touches();
  }

  /** `t` may take over responsibility for an uncounted entry but never drop it. */
  lemma NoLeakKept(s: State, s': State, t: Thread, pc': Pc)
    requires NoLeak(s) && OwnMove(s, s', t, pc')
    requires forall e: Id :: e in s'.pool && e != EMPTY && Zero(s', e) && !Covers(s'.refs, pc', e) ==>
      e in s.pool && Zero(s, e) && !Covers(s.refs, s.pcs[t], e)
    ensures NoLeak(s')
  {
    hide Covers;
    forall e: Id | e in s'.pool && e != EMPTY && Zero(s', e)
      ensures exists u :: u in s'.pcs && Covers(s'.refs, s'.pcs[u], e)
    {
      if Covers(s'.refs, pc', e) {
        assert s'.pcs[t] == pc';
      } else {
        assert Zero(s, e);
        var u :| u in s.pcs && Covers(s.refs, s.pcs[u], e);
        assert u != t && s'.pcs[u] == s.pcs[u];
        CoversStable(s.refs, s'.refs, s.pcs[u], e);
      }
    }
  }

  // ---- The permanent entry ------------------------------------------------------------------

  ghost predicate OneEmpty(heap: seq<Entry>) {
    forall x: Id :: 0 < x < |heap| ==> heap[x].text != []
  }

  /** The entry of the empty string stays in the pool: nobody is on its way to erase it, and no other
      entry has its key. */
  ghost predicate EmptyStays(s: State) {
    && EMPTY < |s.heap| && s.heap[EMPTY] == Entry([], 0) && EMPTY in s.pool
    && OneEmpty(s.heap)
    && (forall t, e: Id :: t in s.pcs && s.pcs[t].Dooms(e) ==> e != EMPTY)
  }

  lemma DoomsKept(s: State, s': State, t: Thread, pc': Pc)
    requires EmptyStays(s) && t in s.pcs && s'.pcs == s.pcs[t := pc'] && !pc'.Dooms(EMPTY)
    ensures forall u, e: Id :: u in s'.pcs && s'.pcs[u].Dooms(e) ==> e != EMPTY
  {
    forall u, e: Id | u in s'.pcs && s'.pcs[u].Dooms(e) ensures e != EMPTY {
      assert u != t ==> s.pcs[u].Dooms(e);
    }
  }

  lemma EmptyKeyIsAlone(s: State, e: Id)
    requires EmptyStays(s) && Shape(s) && e < |s.heap|
    ensures e != EMPTY ==> EMPTY !in Hit(s.heap, s.pool, s.heap[e].text)
    ensures EMPTY in Hit(s.heap, s.pool, [])
  {
  }

  /** A step that changes no text, leaves the permanent entry uncounted and erases nothing. */
  lemma EmptyUntouched(s: State, s': State, t: Thread, pc': Pc)
    requires EmptyStays(s) && t in s.pcs && s'.pcs == s.pcs[t := pc'] && !pc'.Dooms(EMPTY)
    requires |s'.heap| == |s.heap| && s'.heap[EMPTY] == s.heap[EMPTY] && EMPTY in s'.pool
    requires forall x: Id :: x < |s.heap| ==> s'.heap[x].text == s.heap[x].text
    ensures EmptyStays(s')
  {
    DoomsKept(s, s', t, pc');
  }

  lemma EmptyErased(s: State, s': State, t: Thread, e: Id)
    requires EmptyStays(s) && Shape(s) && t in s.pcs && s.pcs[t].Dooms(e) && e < |s.heap|
    requires t in s'.pcs && s'.pcs == s.pcs[t := s'.pcs[t]] && !s'.pcs[t].Dooms(EMPTY)
    requires s'.heap == s.heap && s'.pool == EraseKey(s, s.heap[e].text).pool
    ensures EmptyStays(s')
  {
    EmptyKeyIsAlone(s, e);
    hide KeyEq, Hit, Shape;
    EmptyUntouched(s, s', t, s'.pcs[t]);
  }

  lemma EmptyOnErase(s: State, t: Thread)
    requires EmptyStays(s) && Shape(s) && CanAdvance(s, t) && s.pcs[t].Releasing? && s.pcs[t].at.Erasing?
    ensures EmptyStays(Continue(s, t))
  {
    var s', e := Continue(s, t), s.pcs[t].at.e;
    assert PcShape(s, s.pcs[t]);
    hide Shape, EraseKey, EmptyStays;
    EmptyErased(s, s', t, e);
  }

  lemma EmptyOnRelease(s: State, t: Thread)
    requires EmptyStays(s) && Shape(s) && CanAdvance(s, t) && s.pcs[t].Releasing? && !s.pcs[t].at.Erasing?
    ensures EmptyStays(Continue(s, t))
  {
    var s', pc := Continue(s, t), s.pcs[t];
    assert PcShape(s, pc) && pc.dst in pc.Touches();
    assert (pc.at.Awaiting? || pc.at.Rechecking?) ==> pc.Dooms(pc.at.e);
    hide Shape;
    EmptyUntouched(s, s', t, s'.pcs[t]);
  }

  lemma EmptyOnInsert(s: State, t: Thread)
    requires EmptyStays(s) && Shape(s) && CanAdvance(s, t) && s.pcs[t].Assigning? && s.pcs[t].step.Inserting?
    ensures EmptyStays(Continue(s, t))
  {
    var s' := Continue(s, t);
    EmptyKeyIsAlone(s, EMPTY);
    hide KeyEq, Hit, Shape;
    DoomsKept(s, s', t, s'.pcs[t]);
  }

  lemma EmptyOnDiscard(s: State, t: Thread)
    requires EmptyStays(s) && Shape(s) && CanAdvance(s, t) && s.pcs[t].Assigning? && s.pcs[t].step.Discarding?
    ensures EmptyStays(Continue(s, t))
  {
    var s', e := Continue(s, t), s.pcs[t].step.prev;
    assert PcShape(s, s.pcs[t]);
    hide Shape, EraseKey, EmptyStays;
    EmptyErased(s, s', t, e);
  }

  lemma EmptyOnCount(s: State, t: Thread)
    requires EmptyStays(s) && Shape(s) && CanAdvance(s, t) && s.pcs[t].Assigning?
    requires s.pcs[t].step.Replacing? || s.pcs[t].step.Counting?
    ensures EmptyStays(Continue(s, t))
  {
    var s' := Continue(s, t);
    assert PcShape(s, s.pcs[t]) && s.pcs[t].dst in s.pcs[t].Touches();
    hide Shape;
    EmptyUntouched(s, s', t, s'.pcs[t]);
  }

  lemma EmptyOnSet(s: State, t: Thread)
    requires EmptyStays(s) && Shape(s) && CanAdvance(s, t) && s.pcs[t].Assigning?
    requires s.pcs[t].step.Waiting? || s.pcs[t].step.Comparing? || s.pcs[t].step.Storing? || s.pcs[t].step.Leaving?
    ensures EmptyStays(Continue(s, t))
  {
    var s' := Continue(s, t);
    hide Shape;
    EmptyUntouched(s, s', t, s'.pcs[t]);
  }

  lemma EmptyOnStart(s: State, t: Thread, op: Operation)
    requires EmptyStays(s) && CanBegin(s, t, op)
    ensures EmptyStays(Start(s, t, op))
  {
    var s' := Start(s, t, op);
    assert s'.pcs == s.pcs[t := s'.pcs[t]];
    DoomsKept(s, s', t, s'.pcs[t]);
  }

  lemma EmptyStep(s: State, l: Label)
    requires EmptyStays(s) && CanStep(s, l)
    ensures EmptyStays(Next(s, l))
  {
    match l {
      case Begin(t, op) => EmptyOnStart(s, t, op);
      case Advance(t) =>
        match s.pcs[t] {
          case Acquiring(d, _) =>
            assert PcShape(s, s.pcs[t]) && d in s.pcs[t].Touches();
            DoomsKept(s, Continue(s, t), t, Idle);
          case Releasing(_, _, at) =>
            if at.Erasing? {
              EmptyOnErase(s, t);
            } else {
              EmptyOnRelease(s, t);
            }
          case Assigning(_, step) =>
            if step.Inserting? {
              EmptyOnInsert(s, t);
            } else if step.Discarding? {
              EmptyOnDiscard(s, t);
            } else if step.Replacing? || step.Counting? {
              EmptyOnCount(s, t);
            } else {
              EmptyOnSet(s, t);
            }
        }
    }
  }

  // ---- Each step keeps uncounted entries in somebody's hands ---------------------------------

  ghost predicate Weak(s: State) {
    Always(s) && LockHeld(s) && NoLeak(s) && EmptyStays(s)
  }

  /** A handle whose pointer is not floating keeps the count of a non-empty entry above zero. */
  lemma OwnedIsCounted(s: State, t: Thread, d: Handle)
    requires Always(s) && t in s.pcs && d in s.pcs[t].Writes() && !s.pcs[t].Floats()
    ensures d in s.refs && s.refs[d] < |s.heap| && d !in Floating(s)
    ensures s.refs[d] != EMPTY ==> s.heap[s.refs[d]].count >= 1
  {
    FloatingAfter(s, s, t, s.pcs[t]);
    assert PcShape(s, s.pcs[t]) && d in s.pcs[t].Touches();
    assert d in Owners(s.refs, Floating(s), s.refs[d]);
  }

  lemma CountNatural(s: State, e: Id)
    requires Always(s) && 0 < e < |s.heap|
    ensures s.heap[e].count >= 0
  {
  }

  /** The lock changes hands only as the thread's program point says. */
  predicate LockMoves(s: State, s': State, t: Thread, pc': Pc)
    requires t in s.pcs
  {
    && s'.lock == (if pc'.HoldsLock() == s.pcs[t].HoldsLock() then s.lock
                   else if pc'.HoldsLock() then Some(t) else None)
    && (pc'.HoldsLock() ==> s.pcs[t].HoldsLock() || s.lock == None)
  }

  /** A step of one thread keeps the lock consistent and forgets nothing. */
  lemma MoveKeeps(s: State, s': State, t: Thread, pc': Pc)
    requires LockHeld(s) && NoLeak(s) && OwnMove(s, s', t, pc') && LockMoves(s, s', t, pc')
    requires forall e: Id :: e in s'.pool && e != EMPTY && Zero(s', e) && !Covers(s'.refs, pc', e) ==>
      e in s.pool && Zero(s, e) && !Covers(s.refs, s.pcs[t], e)
    ensures LockHeld(s') && NoLeak(s')
  {
    MoveIs(s, s', t, pc');
    LockKept(s, s', t, pc');
    hide Covers, OwnMove, LockHeld, Pc.HoldsLock;
    NoLeakKept(s, s', t, pc');
  }

  lemma MoveIs(s: State, s': State, t: Thread, pc': Pc)
    requires OwnMove(s, s', t, pc')
    ensures t in s.pcs && s'.pcs == s.pcs[t := pc']
  {
  }

  lemma ErasedIsGone(s: State, e: Id)
    requires Shape(s) && e < |s.heap|
    ensures e !in EraseKey(s, s.heap[e].text).pool
    ensures EraseKey(s, s.heap[e].text).pool <= s.pool
  {
    KeyEqEquivalence();
    hide KeyEq, Shape;
    assert e in s.pool ==> e in Hit(s.heap, s.pool, s.heap[e].text);
  }

  /** A thread that changes only handles it may write leaves the others' alone. */
  lemma WritesOnlyOwn(s: State, s': State, t: Thread, pc': Pc)
    requires Exclusive(s) && t in s.pcs && s'.pcs == s.pcs[t := pc']
    requires forall h :: h in s.refs && h !in s.pcs[t].Writes() ==> h in s'.refs && s'.refs[h] == s.refs[h]
    ensures OwnMove(s, s', t, pc')
  {
    hide Pc.Writes, Pc.Touches;
  }

  /** A step that changes no count and inserts nothing forgets nothing if what the thread was to erase
      or count stays in its hands, has a count, or leaves the pool. */
  lemma HandsOver(s: State, s': State, t: Thread, pc': Pc)
    requires Weak(s) && OwnMove(s, s', t, pc') && s'.heap == s.heap && s'.pool <= s.pool
    requires LockMoves(s, s', t, pc')
    requires forall e: Id :: e in s'.pool && e != EMPTY && Zero(s, e) && Covers(s.refs, s.pcs[t], e) ==>
      Covers(s'.refs, pc', e)
    ensures LockHeld(s') && NoLeak(s')
  {
    hide Covers, OwnMove, Always, NoLeak, LockHeld, EmptyStays, Pc.HoldsLock;
    MoveKeeps(s, s', t, pc');
  }

  lemma CoversNothing(refs: Refs, pc: Pc)
    requires pc.Releasing? && (pc.at.Dropping? || pc.at.Dropped? || pc.at.Unlocking?)
    ensures forall e: Id :: !Covers(refs, pc, e)
  {
  }

  /** A step of a release that only moves on: what the thread was to erase, it is still to erase, unless the
      entry has a count or left the pool. */
  lemma ReleaseMoves(s: State, s': State, t: Thread, d: Handle, p: Purpose, at: Release, at': Release)
    requires Weak(s) && t in s.pcs && s.pcs[t] == Releasing(d, p, at) && s'.pcs == s.pcs[t := Releasing(d, p, at')]
    requires s'.refs == s.refs && s'.heap == s.heap && s'.pool <= s.pool && LockMoves(s, s', t, Releasing(d, p, at'))
    requires forall e: Id :: e in s'.pool && Zero(s, e) && Releasing(d, p, at).Pending(e) ==>
      Releasing(d, p, at').Pending(e)
    ensures LockHeld(s') && NoLeak(s')
  {
    assert forall e: Id :: Covers(s.refs, Releasing(d, p, at), e) <==> Releasing(d, p, at).Pending(e);
    assert forall e: Id :: Covers(s.refs, Releasing(d, p, at'), e) <==> Releasing(d, p, at').Pending(e);
    assert OwnMove(s, s', t, Releasing(d, p, at'));
    hide Weak, OwnMove, LockMoves, Covers, Pc.Pending, Zero;
    HandsOver(s, s', t, Releasing(d, p, at'));
  }

  lemma QuietRelease(s: State, t: Thread)
    requires Weak(s) && CanAdvance(s, t) && s.pcs[t].Releasing?
    requires s.pcs[t].at.Awaiting? || s.pcs[t].at.Rechecking? || s.pcs[t].at.Unlocking?
    ensures LockHeld(Continue(s, t)) && NoLeak(Continue(s, t))
  {
    var s', pc := Continue(s, t), s.pcs[t];
    hide Shape, Exclusive, Apart, ExactCounts, Canonical, NoLeak, LockHeld, EmptyStays;
    assert LockMoves(s, s', t, s'.pcs[t]);
    hide LockMoves, Weak, Always;
    ReleaseMoves(s, s', t, pc.dst, pc.purpose, pc.at, s'.pcs[t].at);
  }

  lemma EraseForgetsNothing(s: State, t: Thread)
    requires Weak(s) && CanAdvance(s, t) && s.pcs[t].Releasing? && s.pcs[t].at.Erasing?
    ensures LockHeld(Continue(s, t)) && NoLeak(Continue(s, t))
  {
    var s', d, p, e := Continue(s, t), s.pcs[t].dst, s.pcs[t].purpose, s.pcs[t].at.e;
    assert PcShape(s, s.pcs[t]);
    assert s' == Goto(EraseKey(s, s.heap[e].text), t, Releasing(d, p, Unlocking));
    ErasedIsGone(s, e);
    hide Continue, Shape, Exclusive, Apart, ExactCounts, Canonical, NoLeak, LockHeld, EmptyStays, Hit;
    assert LockMoves(s, s', t, Releasing(d, p, Unlocking));
    hide LockMoves, Weak, Always;
    ReleaseMoves(s, s', t, d, p, Erasing(e), Unlocking);
  }

  /** What the last step of a release changes. */
  lemma DroppedMoves(s: State, t: Thread)
    requires Shape(s) && CanAdvance(s, t) && s.pcs[t].Releasing? && s.pcs[t].at.Dropped?
    ensures
      var s' := Continue(s, t);
      && s'.heap == s.heap && s'.pool == s.pool && s'.lock == s.lock && t in s'.pcs
      && s'.pcs == s.pcs[t := s'.pcs[t]] && (s'.pcs[t].Idle? || s'.pcs[t].Acquiring?)
      && forall h :: h in s.refs && h !in s.pcs[t].Writes() ==> h in s'.refs && s'.refs[h] == s.refs[h]
  {
    assert PcShape(s, s.pcs[t]);
    hide Shape;
  }

  lemma DroppedForgetsNothing(s: State, t: Thread)
    requires Weak(s) && CanAdvance(s, t) && s.pcs[t].Releasing? && s.pcs[t].at.Dropped?
    ensures LockHeld(Continue(s, t)) && NoLeak(Continue(s, t))
  {
    var s' := Continue(s, t);
    DroppedMoves(s, t);
    CoversNothing(s.refs, s.pcs[t]);
    hide Continue, Shape, Exclusive, ExactCounts, Canonical, NoLeak, LockHeld, EmptyStays, Covers, OwnMove, Pc.Writes;
    WritesOnlyOwn(s, s', t, s'.pcs[t]);
    HandsOver(s, s', t, s'.pcs[t]);
  }

  /** A step that changes a count: what has none afterwards had none before, unless the thread takes it
      into its hands. */
  lemma Recounts(s: State, s': State, t: Thread, pc': Pc)
    requires Weak(s) && OwnMove(s, s', t, pc') && s'.refs == s.refs && s'.pool == s.pool
    requires LockMoves(s, s', t, pc')
    requires forall e: Id :: e != EMPTY && Zero(s', e) && !Covers(s.refs, pc', e) ==>
      Zero(s, e) && !Covers(s.refs, s.pcs[t], e)
    ensures LockHeld(s') && NoLeak(s')
  {
    hide Covers, OwnMove, Always, NoLeak, LockHeld, EmptyStays, Pc.HoldsLock, Zero;
    MoveKeeps(s, s', t, pc');
  }

  lemma DropForgetsNothing(s: State, t: Thread)
    requires Weak(s) && CanAdvance(s, t) && s.pcs[t].Releasing? && s.pcs[t].at.Dropping?
    ensures LockHeld(Continue(s, t)) && NoLeak(Continue(s, t))
  {
    var s', d := Continue(s, t), s.pcs[t].dst;
    OwnedIsCounted(s, t, d);
    CoversNothing(s.refs, s.pcs[t]);
    hide Always, NoLeak, LockHeld, EmptyStays, Weak, Shape;
    Recounts(s, s', t, s'.pcs[t]);
  }

  lemma ReplaceForgetsNothing(s: State, t: Thread)
    requires Weak(s) && CanAdvance(s, t) && s.pcs[t].Assigning? && s.pcs[t].step.Replacing?
    ensures LockHeld(Continue(s, t)) && NoLeak(Continue(s, t))
  {
    var s', d := Continue(s, t), s.pcs[t].dst;
    OwnedIsCounted(s, t, d);
    hide Always, NoLeak, LockHeld, EmptyStays, Weak, Shape;
    Recounts(s, s', t, s'.pcs[t]);
  }

  lemma AcquireForgetsNothing(s: State, t: Thread)
    requires Weak(s) && CanAdvance(s, t) && s.pcs[t].Acquiring?
    ensures LockHeld(Continue(s, t)) && NoLeak(Continue(s, t))
  {
    var s', pc := Continue(s, t), s.pcs[t];
    assert PcShape(s, pc) && pc.dst in pc.Touches();
    if s.refs[pc.dst] != EMPTY {
      CountNatural(s, s.refs[pc.dst]);
    }
    hide Always, NoLeak, LockHeld, EmptyStays, Weak, Shape;
    Recounts(s, s', t, s'.pcs[t]);
  }

  lemma CountForgetsNothing(s: State, t: Thread)
    requires Weak(s) && CanAdvance(s, t) && s.pcs[t].Assigning? && s.pcs[t].step.Counting?
    ensures LockHeld(Continue(s, t)) && NoLeak(Continue(s, t))
  {
    var s', pc := Continue(s, t), s.pcs[t];
    assert PcShape(s, pc) && pc.dst in pc.Touches();
    if s.refs[pc.dst] != EMPTY {
      CountNatural(s, s.refs[pc.dst]);
    }
    hide Always, NoLeak, LockHeld, EmptyStays, Weak, Shape;
    Recounts(s, s', t, s'.pcs[t]);
  }

  lemma LockForgetsNothing(s: State, t: Thread)
    requires Weak(s) && CanAdvance(s, t) && s.pcs[t].Assigning? && (s.pcs[t].step.Waiting? || s.pcs[t].step.Leaving?)
    ensures LockHeld(Continue(s, t)) && NoLeak(Continue(s, t))
  {
    var s' := Continue(s, t);
    hide Always, NoLeak, LockHeld, EmptyStays, Weak;
    HandsOver(s, s', t, s'.pcs[t]);
  }

  /** The new entry is in the hands of the thread that inserted it. */
  lemma NewIsHeld(s: State, t: Thread, d: Handle, text: Str)
    requires LockHeld(s) && NoLeak(s) && t in s.pcs && s.pcs[t] == Assigning(d, Inserting(text))
    ensures
      var x: Id := |s.heap|;
      var s' := Goto(s.(heap := s.heap + [Entry(text, 0)], pool := s.pool + {x}), t, Assigning(d, Comparing(x)));
      LockHeld(s') && NoLeak(s')
  {
    hide NoLeak, LockHeld;
    var x: Id := |s.heap|;
    var s' := Goto(s.(heap := s.heap + [Entry(text, 0)], pool := s.pool + {x}), t, Assigning(d, Comparing(x)));
    MoveKeeps(s, s', t, Assigning(d, Comparing(x)));
  }

  lemma InsertForgetsNothing(s: State, t: Thread)
    requires Weak(s) && CanAdvance(s, t) && s.pcs[t].Assigning? && s.pcs[t].step.Inserting?
    ensures LockHeld(Continue(s, t)) && NoLeak(Continue(s, t))
  {
    var s', d, text := Continue(s, t), s.pcs[t].dst, s.pcs[t].step.text;
    var x := Inserted(s, t, d, text);
    hide KeyEq, Hit, Continue, Shape, Exclusive, Apart, ExactCounts, Canonical, NoLeak, LockHeld, EmptyStays;
    if Hit(s.heap, s.pool, text) == {} {
      NewIsHeld(s, t, d, text);
    } else {
      HandsOver(s, s', t, Assigning(d, Comparing(x)));
    }
  }

  lemma CompareForgetsNothing(s: State, t: Thread)
    requires Weak(s) && CanAdvance(s, t) && s.pcs[t].Assigning? && s.pcs[t].step.Comparing?
    ensures LockHeld(Continue(s, t)) && NoLeak(Continue(s, t))
  {
    var s' := Continue(s, t);
    OwnedIsCounted(s, t, s.pcs[t].dst);
    hide Always, NoLeak, LockHeld, EmptyStays, Weak;
    HandsOver(s, s', t, s'.pcs[t]);
  }

  lemma DiscardForgetsNothing(s: State, t: Thread)
    requires Weak(s) && CanAdvance(s, t) && s.pcs[t].Assigning? && s.pcs[t].step.Discarding?
    ensures LockHeld(Continue(s, t)) && NoLeak(Continue(s, t))
  {
    var s', prev := Continue(s, t), s.pcs[t].step.prev;
    assert PcShape(s, s.pcs[t]);
    ErasedIsGone(s, prev);
    assert prev !in s'.pool && s'.pool <= s.pool;
    hide EraseKey, Always, NoLeak, LockHeld, EmptyStays, Weak, Shape;
    HandsOver(s, s', t, s'.pcs[t]);
  }

  lemma StoringCovered(refs: Refs, d: Handle, x: Id)
    ensures forall e: Id :: Covers(refs, Assigning(d, Storing(x)), e) ==>
              Covers(refs[d := x], Assigning(d, Counting), e)
  {
  }

  lemma StoreForgetsNothing(s: State, t: Thread)
    requires Weak(s) && CanAdvance(s, t) && s.pcs[t].Assigning? && s.pcs[t].step.Storing?
    ensures LockHeld(Continue(s, t)) && NoLeak(Continue(s, t))
  {
    var d, e := s.pcs[t].dst, s.pcs[t].step.e;
    var s' := Goto(s.(refs := s.refs[d := e]), t, Assigning(d, Counting));
    assert Continue(s, t) == s' && s.pcs[t] == Assigning(d, Storing(e));
    StoringCovered(s.refs, d, e);
    hide Continue, Shape, Exclusive, ExactCounts, Canonical, NoLeak, LockHeld, EmptyStays, Covers, OwnMove;
    WritesOnlyOwn(s, s', t, Assigning(d, Counting));
    HandsOver(s, s', t, Assigning(d, Counting));
  }

  /** What the beginning of an operation changes. */
  lemma StartMoves(s: State, t: Thread, op: Operation)
    requires Shape(s) && CanBegin(s, t, op)
    ensures
      var s' := Start(s, t, op);
      && s'.heap == s.heap && s'.pool == s.pool && s'.lock == s.lock && t in s'.pcs
      && !s'.pcs[t].HoldsLock() && OwnMove(s, s', t, s'.pcs[t])
  {
    var s' := Start(s, t, op);
    if op.h !in s.refs {
      UnusedHandle(s, op.h);
    }
    hide Shape;
    assert s'.pcs == s.pcs[t := s'.pcs[t]];
  }

  lemma StartForgetsNothing(s: State, t: Thread, op: Operation)
    requires Weak(s) && CanBegin(s, t, op)
    ensures LockHeld(Start(s, t, op)) && NoLeak(Start(s, t, op))
  {
    assert forall e: Id :: !Covers(s.refs, s.pcs[t], e);
    StartMoves(s, t, op);
    hide Start, CanBegin, Covers, OwnMove, Always, NoLeak, LockHeld, EmptyStays;
    HandsOver(s, Start(s, t, op), t, Start(s, t, op).pcs[t]);
  }

  lemma {:induction false} StepWeak(s: State, l: Label)
    requires Weak(s) && CanStep(s, l)
    ensures Weak(Next(s, l))
  {
    StepAlways(s, l);
    EmptyStep(s, l);
    hide Always, LockHeld, NoLeak, EmptyStays, Continue, Start;
    match l {
      case Begin(t, op) => StartForgetsNothing(s, t, op);
      case Advance(t) =>
        match s.pcs[t] {
          case Acquiring(_, _) => AcquireForgetsNothing(s, t);
          case Releasing(_, _, at) =>
            match at {
              case Dropping => DropForgetsNothing(s, t);
              case Erasing(_) => EraseForgetsNothing(s, t);
              case Dropped => DroppedForgetsNothing(s, t);
              case _ => QuietRelease(s, t);
            }
          case Assigning(_, step) =>
            match step {
              case Inserting(_) => InsertForgetsNothing(s, t);
              case Comparing(_) => CompareForgetsNothing(s, t);
              case Replacing(_) => ReplaceForgetsNothing(s, t);
              case Discarding(_, _) => DiscardForgetsNothing(s, t);
              case Storing(_) => StoreForgetsNothing(s, t);
              case Counting => CountForgetsNothing(s, t);
              case _ => LockForgetsNothing(s, t);
            }
        }
    }
  }

  // ---- Every run ----------------------------------------------------------------------------

  lemma {:induction false} RunWeak(s: State, ls: seq<Label>)
    requires Weak(s) && Run(s, ls)
    ensures Weak(After(s, ls))
    decreases |ls|
  {
    hide Weak, CanStep, Next;
    if ls != [] {
      StepWeak(s, ls[0]);
      RunWeak(Next(s, ls[0]), ls[1..]);
    }
  }

  lemma InitWeak(threads: set<Thread>)
    ensures Weak(Init(threads))
  {
    hide KeyEq;
    var s := Init(threads);
    assert Floating(s) == {};
    assert Exclusive(s) && Shape(s);
  }

  /** Whenever the lock is free, an entry of the pool that nobody counts has a pending releaser. */
  lemma {:induction false} UncountedHasReleaser(s: State, e: Id)
    requires LockHeld(s) && NoLeak(s) && s.lock == None
    requires e in s.pool && e != EMPTY && Zero(s, e)
    ensures exists t :: t in s.pcs && s.pcs[t].Releasing? && s.pcs[t].at == Awaiting(e)
  {
    var t :| t in s.pcs && Covers(s.refs, s.pcs[t], e);
    assert !s.pcs[t].HoldsLock();
  }

  /** No leak, in every state of every interleaving: whenever the lock is free, an entry of the pool
      that nobody counts has a releaser that is about to take the lock. */
  lemma {:induction false} NoLeakAlways(threads: set<Thread>, ls: seq<Label>, e: Id)
    requires Run(Init(threads), ls)
    ensures
      var s := After(Init(threads), ls);
      s.lock == None && e in s.pool && e != EMPTY && e < |s.heap| && s.heap[e].count == 0 ==>
        exists t :: t in s.pcs && s.pcs[t].Releasing? && s.pcs[t].at == Awaiting(e)
  {
    InitWeak(threads);
    RunWeak(Init(threads), ls);
    var s := After(Init(threads), ls);
    hide Run, After, Always, EmptyStays, LockHeld, NoLeak;
    if s.lock == None && e in s.pool && e != EMPTY && Zero(s, e) {
      UncountedHasReleaser(s, e);
    }
  }

  /** When no operation is in progress, after any run whatever: the pool holds the permanent entry, and
      otherwise only entries of live handles, each counted exactly once per handle. It holds all of those
      exactly when no handle was unseated. */
  lemma {:induction false} QuiescentAlways(threads: set<Thread>, ls: seq<Label>)
    requires Run(Init(threads), ls)
    requires forall t :: t in After(Init(threads), ls).pcs ==> After(Init(threads), ls).pcs[t].Idle?
    ensures
      var s := After(Init(threads), ls);
      && EMPTY in s.pool && s.pool <= {EMPTY} + (set h | h in s.refs :: s.refs[h])
      && (s.pool == {EMPTY} + (set h | h in s.refs :: s.refs[h]) <==> forall h :: h in s.refs ==> s.refs[h] in s.pool)
      && forall e: Id :: 0 < e < |s.heap| ==> s.heap[e].count == |set h | h in s.refs && s.refs[h] == e|
  {
    InitWeak(threads);
    RunWeak(Init(threads), ls);
    Quiescent(After(Init(threads), ls));
  }

  lemma Quiescent(s: State)
    requires Weak(s) && forall t :: t in s.pcs ==> s.pcs[t].Idle?
    ensures EMPTY in s.pool && s.pool <= {EMPTY} + (set h | h in s.refs :: s.refs[h])
    ensures forall e: Id :: 0 < e < |s.heap| ==> s.heap[e].count == |set h | h in s.refs && s.refs[h] == e|
  {
    hide KeyEq, Canonical;
    assert Floating(s) == {};
    forall e: Id | 0 < e < |s.heap| ensures s.heap[e].count == |set h | h in s.refs && s.refs[h] == e| {
      assert Owners(s.refs, {}, e) == set h | h in s.refs && s.refs[h] == e;
    }
    forall e | e in s.pool && e != EMPTY ensures exists h :: h in s.refs && s.refs[h] == e {
      assert forall t :: t in s.pcs ==> !Covers(s.refs, s.pcs[t], e);
      assert s.heap[e].count == |Owners(s.refs, {}, e)| != 0;
      var h :| h in Owners(s.refs, {}, e);
    }
  }
}
