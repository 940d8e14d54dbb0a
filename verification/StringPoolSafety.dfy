/** Handle safety: the invariant of the string pool, and exactly which runs keep it. */
module StringPoolSafety {
  import opened Hash
  import opened Options
  import opened StringPool
  import opened StringPoolCounts
  import opened StringPoolLeaks

  // ---- The data invariant -----------------------------------------------------------------

  /** No live handle points to an entry that left the pool. */
  ghost predicate HandleSafe(refs: Refs, pool: set<Id>, f: set<Handle>) {
    forall h :: h in refs && h !in f ==> refs[h] in pool
  }

  ghost predicate DataInv(refs: Refs, heap: seq<Entry>, pool: set<Id>, f: set<Handle>) {
    // the empty entry is permanent and uncounted
    && EMPTY < |heap| && heap[EMPTY] == Entry([], 0) && EMPTY in pool && OneEmpty(heap)
    && (forall h :: h in refs ==> refs[h] < |heap|)
    && (forall x :: x in pool ==> x < |heap|)
    && ExactCounts(refs, heap, f) && HandleSafe(refs, pool, f) && Canonical(heap, pool)
  }

  lemma GainData(refs: Refs, heap: seq<Entry>, pool: set<Id>, f: set<Handle>, d: Handle)
    requires DataInv(refs, heap, pool, f) && d in f && d in refs && refs[d] != EMPTY && refs[d] in pool
    ensures DataInv(refs, Bump(heap, refs[d], 1), pool, f - {d})
  {
    hide KeyEq, ExactCounts;
    GainCounts(refs, heap, f, d);
  }

  lemma LoseData(refs: Refs, heap: seq<Entry>, pool: set<Id>, f: set<Handle>, d: Handle)
    requires DataInv(refs, heap, pool, f) && d !in f && d in refs && refs[d] != EMPTY
    ensures heap[refs[d]].count >= 1 && refs[d] in pool
    ensures DataInv(refs, Bump(heap, refs[d], -1), pool, f + {d})
  {
    hide KeyEq, ExactCounts;
    LoseCounts(refs, heap, f, d);
  }

  lemma EmptyData(refs: Refs, heap: seq<Entry>, pool: set<Id>, f: set<Handle>, d: Handle)
    requires DataInv(refs, heap, pool, f) && d in refs && refs[d] == EMPTY
    ensures DataInv(refs, heap, pool, f + {d}) && DataInv(refs, heap, pool, f - {d})
  {
    hide KeyEq, ExactCounts;
    EmptyCounts(refs, heap, f, d);
  }

  lemma PointData(refs: Refs, heap: seq<Entry>, pool: set<Id>, f: set<Handle>, d: Handle, e: Id)
    requires DataInv(refs, heap, pool, f) && (d in f || d !in refs) && e < |heap|
    ensures DataInv(refs[d := e], heap, pool, f + {d})
  {
    hide KeyEq, ExactCounts;
    PointCounts(refs, heap, f, d, e);
  }

  lemma RemoveData(refs: Refs, heap: seq<Entry>, pool: set<Id>, f: set<Handle>, d: Handle)
    requires DataInv(refs, heap, pool, f) && d in f
    ensures DataInv(refs - {d}, heap, pool, f - {d})
  {
    hide KeyEq, ExactCounts;
    RemoveCounts(refs, heap, f, d);
  }

  lemma MoveData(refs: Refs, heap: seq<Entry>, pool: set<Id>, f: set<Handle>, d: Handle, src: Handle)
    requires DataInv(refs, heap, pool, f) && (d in f || d !in refs)
    requires src in refs && src !in f && src != d
    ensures DataInv(refs[d := refs[src]][src := EMPTY], heap, pool, f - {d})
  {
    hide KeyEq, Canonical, ExactCounts;
    MoveCounts(refs, heap, f, d, src);
  }

  /** Erasing an uncounted entry by key removes exactly that entry, and no handle owned it. */
  lemma ForgetData(refs: Refs, heap: seq<Entry>, pool: set<Id>, f: set<Handle>, e: Id)
    requires DataInv(refs, heap, pool, f) && e in pool && e != EMPTY && heap[e].count == 0
    ensures Hit(heap, pool, heap[e].text) == {e}
    ensures DataInv(refs, heap, pool - {e}, f)
  {
    KeyEqEquivalence();
    hide KeyEq;
    var hit := Hit(heap, pool, heap[e].text);
    assert e in hit;
    forall x | x in hit ensures x == e {
      assert KeyEq(heap[x].text, heap[e].text);
    }
    assert Owners(refs, f, e) == {};
    assert forall h :: h in refs && h !in f && refs[h] == e ==> h in Owners(refs, f, e);
  }

  lemma CreateData(refs: Refs, heap: seq<Entry>, pool: set<Id>, f: set<Handle>, text: Str)
    requires DataInv(refs, heap, pool, f) && Hit(heap, pool, text) == {}
    ensures DataInv(refs, heap + [Entry(text, 0)], pool + {|heap|}, f)
  {
    assert text == [] ==> EMPTY in Hit(heap, pool, text);
    hide KeyEq, Canonical, ExactCounts;
    CreateCounts(refs, heap, f, text);
    CreateCanonical(heap, pool, text);
  }

  // ---- The thread invariant ---------------------------------------------------------------

  /** At most one thread is on its way to erase an entry, and that entry is still in the pool. */
  ghost predicate PendingInPool(s: State) {
    && (forall t, e: Id :: t in s.pcs && s.pcs[t].Dooms(e) ==> e in s.pool && e != EMPTY)
    && (forall t, u, e: Id :: t in s.pcs && u in s.pcs && s.pcs[t].Dooms(e) && s.pcs[u].Dooms(e) ==> t == u)
  }

  /** What a thread may rely on at its program point. */
  ghost predicate PcFacts(s: State, pc: Pc) {
    match pc
    case Idle => true
    case Acquiring(d, src) => d != src && d in s.refs && src in s.refs && s.refs[d] == s.refs[src]
    case Releasing(d, p, at) =>
      && (p.CopyFrom? || p.MoveFrom? ==> p.src != d)
      && (at.Erasing? ==> Zero(s, at.e))
    case Assigning(d, step) =>
      d in s.refs &&
      match step
      case Comparing(e) => e in s.pool
      case Replacing(e) => e in s.pool && e != s.refs[d]
      case Discarding(p, e) => p in s.pool && e in s.pool && p != e && p != EMPTY && Zero(s, p)
      case Storing(e) => e in s.pool
      case Counting => s.refs[d] in s.pool
      case _ => true
  }

  ghost predicate AllFacts(s: State) {
    forall t :: t in s.pcs ==> PcFacts(s, s.pcs[t])
  }

  ghost predicate Inv(s: State) {
    && !s.halted && Shape(s)
    && DataInv(s.refs, s.heap, s.pool, Floating(s))
    && Exclusive(s) && LockHeld(s) && NoLeak(s) && PendingInPool(s) && AllFacts(s)
  }

  // ---- What every step of one thread leaves alone -----------------------------------------

  /** Only `t` moves; other threads' handles and all entry texts stay; the pool and the zero counts
      stay too unless `t` holds the lock. */
  ghost predicate LocalTo(s: State, s': State, t: Thread, pc': Pc) {
    && t in s.pcs && s'.pcs == s.pcs[t := pc']
    && (forall u, h :: u in s.pcs && u != t && h in s.pcs[u].Touches() && h in s.refs ==>
          h in s'.refs && s'.refs[h] == s.refs[h])
    && |s.heap| <= |s'.heap|
    && (!s.pcs[t].HoldsLock() ==> s'.pool == s.pool && forall e :: Zero(s, e) ==> Zero(s', e))
  }

  /** Another thread's program point stays well-formed and keeps what it relies on. */
  lemma OtherKept(s: State, s': State, t: Thread, pc': Pc, u: Thread)
    requires Shape(s) && LockHeld(s) && LocalTo(s, s', t, pc') && u in s.pcs && u != t
    requires PcFacts(s, s.pcs[u])
    ensures PcShape(s', s.pcs[u]) && PcFacts(s', s.pcs[u])
  {
    var pc := s.pcs[u];
    assert PcShape(s, pc);
    forall h | h in pc.Touches() ensures h in s'.refs && s'.refs[h] == s.refs[h] {
    }
    if pc.HoldsLock() {
      assert !s.pcs[t].HoldsLock();
    }
  }

  lemma PendingKept(s: State, s': State, t: Thread, pc': Pc)
    requires PendingInPool(s) && t in s.pcs && s'.pcs == s.pcs[t := pc']
    requires forall e: Id :: pc'.Dooms(e) ==> e in s'.pool && e != EMPTY
    requires forall u, e: Id :: u in s.pcs && u != t && s.pcs[u].Dooms(e) ==> e in s'.pool && !pc'.Dooms(e)
    ensures PendingInPool(s')
  {
    forall u, e: Id | u in s'.pcs && s'.pcs[u].Dooms(e) ensures e in s'.pool && e != EMPTY {
      assert if u == t then pc'.Dooms(e) else s.pcs[u].Dooms(e) && e in s.pool;
    }
    forall u, v, e: Id | u in s'.pcs && v in s'.pcs && s'.pcs[u].Dooms(e) && s'.pcs[v].Dooms(e) ensures u == v {
      assert u != t ==> s.pcs[u].Dooms(e);
      assert v != t ==> s.pcs[v].Dooms(e);
    }
  }

  /** The thread invariant survives a step of `t` to `pc'`, given what only that step can tell. */
  lemma ThreadsKept(s: State, s': State, t: Thread, pc': Pc)
    requires Shape(s) && Exclusive(s) && LockHeld(s) && NoLeak(s) && PendingInPool(s) && AllFacts(s)
    requires LocalTo(s, s', t, pc') && Exclusive(s')
    requires forall h :: h in s'.refs ==> s'.refs[h] < |s'.heap|
    requires forall x :: x in s'.pool ==> x < |s'.heap|
    requires PcShape(s', pc') && PcFacts(s', pc')
    requires s'.lock == if pc'.HoldsLock() == s.pcs[t].HoldsLock() then s.lock
                        else if pc'.HoldsLock() then Some(t) else None
    requires pc'.HoldsLock() ==> s.pcs[t].HoldsLock() || s.lock == None
    requires forall e: Id :: pc'.Dooms(e) ==> e in s'.pool && e != EMPTY
    requires forall u, e: Id :: u in s.pcs && u != t && s.pcs[u].Dooms(e) ==> e in s'.pool && !pc'.Dooms(e)
    requires forall e: Id :: e in s'.pool && e != EMPTY && Zero(s', e) && !Covers(s'.refs, pc', e) ==>
      e in s.pool && Zero(s, e) && !Covers(s.refs, s.pcs[t], e)
    ensures Shape(s') && LockHeld(s') && NoLeak(s') && PendingInPool(s') && AllFacts(s')
  {
    hide PcShape, PcFacts, Covers, Exclusive;
    LockKept(s, s', t, pc');
    PendingKept(s, s', t, pc');
    NoLeakKept(s, s', t, pc');
    forall u | u in s'.pcs ensures PcShape(s', s'.pcs[u]) && PcFacts(s', s'.pcs[u]) {
      if u != t { OtherKept(s, s', t, pc', u); }
    }
  }

  // ---- Each step keeps the invariant ------------------------------------------------------

  /** Only operations on `t`'s own handles: what an in-progress step needs of `Exclusive`. */
  lemma OwnHandles(s: State, t: Thread)
    requires Exclusive(s) && t in s.pcs
    ensures forall u, h :: u in s.pcs && u != t && h in s.pcs[t].Writes() ==> h !in s.pcs[u].Touches()
  {
  }

  /** A live handle of a non-empty entry keeps its count above zero. */
  lemma OwnerCounts(s: State, h: Handle)
    requires DataInv(s.refs, s.heap, s.pool, Floating(s)) && h in s.refs && h !in Floating(s)
    ensures s.refs[h] in s.pool
    ensures s.refs[h] != EMPTY ==> s.refs[h] < |s.heap| && s.heap[s.refs[h]].count >= 1
  {
    hide KeyEq;
    assert h in Owners(s.refs, Floating(s), s.refs[h]);
  }

  lemma CountsNatural(s: State)
    requires DataInv(s.refs, s.heap, s.pool, Floating(s))
    ensures forall e: Id :: e < |s.heap| ==> s.heap[e].count >= 0
  {
    hide KeyEq;
    forall e: Id | e < |s.heap| ensures s.heap[e].count >= 0 {
      assert e == EMPTY || s.heap[e].count == |Owners(s.refs, Floating(s), e)|;
    }
  }

  lemma AcquiringKeeps(s: State, t: Thread)
    requires Inv(s) && t in s.pcs && s.pcs[t].Acquiring?
    ensures Inv(Continue(s, t))
  {
    hide DataInv, NoLeak, LockHeld, KeyEq;
    var s' := Continue(s, t);
    var d, src := s.pcs[t].dst, s.pcs[t].src;
    assert PcFacts(s, s.pcs[t]);
    assert src in s.pcs[t].Touches();
    NotFloating(s, src);
    hide Floating, Exclusive;
    OwnerCounts(s, src);
    FloatingLoses(s, s', t, Idle);
    if s.refs[d] == EMPTY {
      EmptyData(s.refs, s.heap, s.pool, Floating(s), d);
    } else {
      GainData(s.refs, s.heap, s.pool, Floating(s), d);
    }
    ExclusiveKept(s, s', t, Idle);
    ThreadsKept(s, s', t, Idle);
  }

  /** The step takes the count of `e` from one to zero. */
  ghost predicate DropsToZero(s: State, t: Thread, e: Id) {
    && t in s.pcs
    && ((s.pcs[t].Releasing? && s.pcs[t].at.Dropping?) || (s.pcs[t].Assigning? && s.pcs[t].step.Replacing?))
    && s.pcs[t].dst in s.refs && s.refs[s.pcs[t].dst] == e && e != EMPTY
    && e < |s.heap| && s.heap[e].count == 1
  }

  /** The hypothesis: an entry is not driven to zero again while an earlier releaser of the same
      entry is still pending. */
  ghost predicate Undisturbed(s: State, t: Thread) {
    forall e: Id, u :: DropsToZero(s, t, e) && u in s.pcs && u != t ==> !s.pcs[u].Pending(e)
  }

  lemma DroppingKeeps(s: State, t: Thread)
    requires Inv(s) && t in s.pcs && s.pcs[t].Releasing? && s.pcs[t].at.Dropping?
    requires Undisturbed(s, t)
    ensures Inv(Continue(s, t))
  {
    hide DataInv, NoLeak, LockHeld, KeyEq, Floating, Exclusive;
    var s' := Continue(s, t);
    var d, e, pc' := s.pcs[t].dst, s.refs[s.pcs[t].dst], s'.pcs[t];
    assert PcFacts(s, s.pcs[t]);
    FloatingGains(s, s', t, pc');
    if e == EMPTY {
      EmptyData(s.refs, s.heap, s.pool, Floating(s), d);
    } else {
      LoseData(s.refs, s.heap, s.pool, Floating(s), d);
      assert s.heap[e].count == 1 ==> DropsToZero(s, t, e);
      forall u | u in s.pcs && u != t && s.pcs[u].Dooms(e) ensures s.heap[e].count != 1 {
        assert PcFacts(s, s.pcs[u]);
      }
    }
    ExclusiveKept(s, s', t, pc');
    ThreadsKept(s, s', t, pc');
  }

  lemma AwaitingKeeps(s: State, t: Thread)
    requires Inv(s) && CanAdvance(s, t) && s.pcs[t].Releasing? && s.pcs[t].at.Awaiting?
    ensures Inv(Continue(s, t))
  {
    hide DataInv, NoLeak, LockHeld, KeyEq, Floating, Exclusive;
    var s' := Continue(s, t);
    var pc, pc' := s.pcs[t], s'.pcs[t];
    assert PcFacts(s, pc);
    FloatingKept(s, s', t, pc');
    assert pc.Dooms(pc.at.e) && pc.at.e in s.pool && pc.at.e != EMPTY;
    ExclusiveKept(s, s', t, pc');
    ThreadsKept(s, s', t, pc');
  }

  lemma RecheckingKeeps(s: State, t: Thread)
    requires Inv(s) && CanAdvance(s, t) && s.pcs[t].Releasing? && s.pcs[t].at.Rechecking?
    ensures Inv(Continue(s, t))
  {
    hide DataInv, NoLeak, LockHeld, KeyEq, Floating, Exclusive;
    var s' := Continue(s, t);
    var pc, pc' := s.pcs[t], s'.pcs[t];
    assert PcFacts(s, pc);
    FloatingKept(s, s', t, pc');
    assert pc.Dooms(pc.at.e) && pc.at.e in s.pool && pc.at.e != EMPTY;
    assert forall x: Id :: pc'.Dooms(x) ==> x == pc.at.e;
    ExclusiveKept(s, s', t, pc');
    ThreadsKept(s, s', t, pc');
  }

  lemma UnlockingKeeps(s: State, t: Thread)
    requires Inv(s) && CanAdvance(s, t) && s.pcs[t].Releasing? && s.pcs[t].at.Unlocking?
    ensures Inv(Continue(s, t))
  {
    hide DataInv, NoLeak, LockHeld, KeyEq, Floating, Exclusive;
    var s' := Continue(s, t);
    var pc, pc' := s.pcs[t], s'.pcs[t];
    assert PcFacts(s, pc);
    FloatingKept(s, s', t, pc');
    ExclusiveKept(s, s', t, pc');
    ThreadsKept(s, s', t, pc');
  }

  lemma ErasingKeeps(s: State, t: Thread)
    requires Inv(s) && t in s.pcs && s.pcs[t].Releasing? && s.pcs[t].at.Erasing?
    ensures Inv(Continue(s, t))
  {
    hide DataInv, NoLeak, LockHeld, KeyEq, Floating, Exclusive;
    var s' := Continue(s, t);
    var pc, pc', e := s.pcs[t], s'.pcs[t], s.pcs[t].at.e;
    assert PcFacts(s, pc) && pc.Dooms(e);
    FloatingKept(s, s', t, pc');
    ForgetData(s.refs, s.heap, s.pool, Floating(s), e);
    ExclusiveKept(s, s', t, pc');
    hide Hit;
    ThreadsKept(s, s', t, pc');
  }

  // The reference is gone: the handle gets its new pointer, or ends.

  lemma ClearKeeps(s: State, t: Thread)
    requires Inv(s) && t in s.pcs && s.pcs[t].Releasing? && s.pcs[t].at.Dropped? && s.pcs[t].purpose.Clear?
    ensures Inv(Continue(s, t))
  {
    hide DataInv, NoLeak, LockHeld, KeyEq, Floating, Exclusive;
    var s' := Continue(s, t);
    var pc, pc', d, f := s.pcs[t], s'.pcs[t], s.pcs[t].dst, Floating(s);
    assert PcFacts(s, pc);
    FloatingLoses(s, s', t, pc');
    OwnHandles(s, t);
    PointData(s.refs, s.heap, s.pool, f, d, EMPTY);
    EmptyData(s'.refs, s.heap, s.pool, f, d);
    ExclusiveKept(s, s', t, pc');
    ThreadsKept(s, s', t, pc');
  }

  lemma DestroyKeeps(s: State, t: Thread)
    requires Inv(s) && t in s.pcs && s.pcs[t].Releasing? && s.pcs[t].at.Dropped? && s.pcs[t].purpose.Destroy?
    ensures Inv(Continue(s, t))
  {
    hide DataInv, NoLeak, LockHeld, KeyEq, Floating, Exclusive;
    var s' := Continue(s, t);
    var pc, pc', d, f := s.pcs[t], s'.pcs[t], s.pcs[t].dst, Floating(s);
    assert PcFacts(s, pc);
    FloatingLoses(s, s', t, pc');
    OwnHandles(s, t);
    RemoveData(s.refs, s.heap, s.pool, f, d);
    ExclusiveKept(s, s', t, pc');
    ThreadsKept(s, s', t, pc');
  }

  lemma CopyFromKeeps(s: State, t: Thread)
    requires Inv(s) && t in s.pcs && s.pcs[t].Releasing? && s.pcs[t].at.Dropped? && s.pcs[t].purpose.CopyFrom?
    ensures Inv(Continue(s, t))
  {
    hide DataInv, NoLeak, LockHeld, KeyEq, Floating, Exclusive;
    var s' := Continue(s, t);
    var pc, pc', d, f := s.pcs[t], s'.pcs[t], s.pcs[t].dst, Floating(s);
    assert PcFacts(s, pc);
    FloatingKept(s, s', t, pc');
    OwnHandles(s, t);
    assert pc.purpose.src in pc.Touches();
    PointData(s.refs, s.heap, s.pool, f, d, s.refs[pc.purpose.src]);
    ExclusiveKept(s, s', t, pc');
    ThreadsKept(s, s', t, pc');
  }

  lemma MoveFromKeeps(s: State, t: Thread)
    requires Inv(s) && t in s.pcs && s.pcs[t].Releasing? && s.pcs[t].at.Dropped? && s.pcs[t].purpose.MoveFrom?
    ensures Inv(Continue(s, t))
  {
    hide DataInv, NoLeak, LockHeld, KeyEq, Floating, Exclusive;
    var s' := Continue(s, t);
    var pc, pc', d, f := s.pcs[t], s'.pcs[t], s.pcs[t].dst, Floating(s);
    assert PcFacts(s, pc);
    FloatingLoses(s, s', t, pc');
    OwnHandles(s, t);
    OwnRests(s, t, pc.purpose.src);
    MoveData(s.refs, s.heap, s.pool, f, d, pc.purpose.src);
    ExclusiveKept(s, s', t, pc');
    ThreadsKept(s, s', t, pc');
  }

  lemma InsertingKeeps(s: State, t: Thread)
    requires Inv(s) && t in s.pcs && s.pcs[t].Assigning? && s.pcs[t].step.Inserting?
    ensures Inv(Continue(s, t))
  {
    hide DataInv, NoLeak, LockHeld, KeyEq, Floating, Exclusive;
    var s' := Continue(s, t);
    var pc, pc', f := s.pcs[t], s'.pcs[t], Floating(s);
    assert PcFacts(s, pc) && pc.dst in pc.Touches();
    FloatingKept(s, s', t, pc');
    if Hit(s.heap, s.pool, pc.step.text) == {} {
      CreateData(s.refs, s.heap, s.pool, f, pc.step.text);
    } else {
      assert pc'.step.e in Hit(s.heap, s.pool, pc.step.text);
    }
    ExclusiveKept(s, s', t, pc');
    ThreadsKept(s, s', t, pc');
  }

  lemma ComparingKeeps(s: State, t: Thread)
    requires Inv(s) && t in s.pcs && s.pcs[t].Assigning? && s.pcs[t].step.Comparing?
    ensures Inv(Continue(s, t))
  {
    hide DataInv, NoLeak, LockHeld, KeyEq, Floating, Exclusive;
    var s' := Continue(s, t);
    var pc, pc', d := s.pcs[t], s'.pcs[t], s.pcs[t].dst;
    assert PcFacts(s, pc);
    FloatingKept(s, s', t, pc');
    OwnRests(s, t, d);
    OwnerCounts(s, d);
    ExclusiveKept(s, s', t, pc');
    ThreadsKept(s, s', t, pc');
  }

  lemma ReplacingKeeps(s: State, t: Thread)
    requires Inv(s) && t in s.pcs && s.pcs[t].Assigning? && s.pcs[t].step.Replacing?
    requires Undisturbed(s, t)
    ensures Inv(Continue(s, t))
  {
    hide DataInv, NoLeak, LockHeld, KeyEq, Floating, Exclusive;
    var s' := Continue(s, t);
    var d, e, pc' := s.pcs[t].dst, s.refs[s.pcs[t].dst], s'.pcs[t];
    assert PcFacts(s, s.pcs[t]);
    FloatingGains(s, s', t, pc');
    if e == EMPTY {
      EmptyData(s.refs, s.heap, s.pool, Floating(s), d);
    } else {
      LoseData(s.refs, s.heap, s.pool, Floating(s), d);
      assert s.heap[e].count == 1 ==> DropsToZero(s, t, e);
      forall u | u in s.pcs && u != t && s.pcs[u].Dooms(e) ensures s.heap[e].count != 1 {
        assert PcFacts(s, s.pcs[u]);
      }
    }
    ExclusiveKept(s, s', t, pc');
    ThreadsKept(s, s', t, pc');
  }

  lemma DiscardingKeeps(s: State, t: Thread)
    requires Inv(s) && t in s.pcs && s.pcs[t].Assigning? && s.pcs[t].step.Discarding?
    ensures Inv(Continue(s, t))
  {
    hide DataInv, NoLeak, LockHeld, KeyEq, Floating, Exclusive;
    var s' := Continue(s, t);
    var pc, pc', e := s.pcs[t], s'.pcs[t], s.pcs[t].step.prev;
    assert PcFacts(s, pc) && pc.Dooms(e);
    FloatingKept(s, s', t, pc');
    ForgetData(s.refs, s.heap, s.pool, Floating(s), e);
    ExclusiveKept(s, s', t, pc');
    ThreadsKept(s, s', t, pc');
  }

  lemma StoringKeeps(s: State, t: Thread)
    requires Inv(s) && t in s.pcs && s.pcs[t].Assigning? && s.pcs[t].step.Storing?
    ensures Inv(Continue(s, t))
  {
    hide DataInv, NoLeak, LockHeld, KeyEq, Floating, Exclusive;
    var s' := Continue(s, t);
    var pc, pc', f := s.pcs[t], s'.pcs[t], Floating(s);
    assert PcFacts(s, pc);
    FloatingKept(s, s', t, pc');
    OwnHandles(s, t);
    PointData(s.refs, s.heap, s.pool, f, pc.dst, pc.step.e);
    ExclusiveKept(s, s', t, pc');
    ThreadsKept(s, s', t, pc');
  }

  lemma CountingKeeps(s: State, t: Thread)
    requires Inv(s) && t in s.pcs && s.pcs[t].Assigning? && s.pcs[t].step.Counting?
    ensures Inv(Continue(s, t))
  {
    hide DataInv, NoLeak, LockHeld, KeyEq, Floating, Exclusive;
    var s' := Continue(s, t);
    var pc, pc', d := s.pcs[t], s'.pcs[t], s.pcs[t].dst;
    assert PcFacts(s, pc);
    FloatingLoses(s, s', t, pc');
    CountsNatural(s);
    if s.refs[d] == EMPTY {
      EmptyData(s.refs, s.heap, s.pool, Floating(s), d);
    } else {
      GainData(s.refs, s.heap, s.pool, Floating(s), d);
    }
    ExclusiveKept(s, s', t, pc');
    ThreadsKept(s, s', t, pc');
  }

  lemma LockedSetKeeps(s: State, t: Thread)
    requires Inv(s) && CanAdvance(s, t) && s.pcs[t].Assigning?
    requires s.pcs[t].step.Waiting? || s.pcs[t].step.Leaving?
    ensures Inv(Continue(s, t))
  {
    hide DataInv, NoLeak, LockHeld, KeyEq, Floating, Exclusive;
    var s' := Continue(s, t);
    var pc, pc' := s.pcs[t], s'.pcs[t];
    assert PcFacts(s, pc);
    FloatingKept(s, s', t, pc');
    ExclusiveKept(s, s', t, pc');
    ThreadsKept(s, s', t, pc');
  }

  // Starting an operation: the caller keeps conflicting uses of one handle apart.

  /** Operations on an existing handle: nothing changes yet but the thread's program point. */
  lemma BeginKeeps(s: State, t: Thread, pc': Pc)
    requires Inv(s) && t in s.pcs && s.pcs[t].Idle?
    requires (pc'.Releasing? && pc'.at.Dropping?) || (pc'.Assigning? && pc'.step.Waiting?) || pc'.Idle?
    requires forall h :: h in pc'.Writes() ==> Writable(s, h)
    requires forall h :: h in pc'.Reads() ==> Readable(s, h)
    requires PcFacts(s, pc')
    ensures Inv(Goto(s, t, pc'))
  {
    hide DataInv, NoLeak, LockHeld, KeyEq;
    var s' := Goto(s, t, pc');
    FloatingAfter(s, s', t, pc');
    assert Floating(s') == Floating(s);
    ExclusiveBegun(s, s', t, pc');
    ThreadsKept(s, s', t, pc');
  }

  lemma ConstructKeeps(s: State, t: Thread, h: Handle)
    requires Inv(s) && CanBegin(s, t, Construct(h))
    ensures Inv(Start(s, t, Construct(h)))
  {
    hide DataInv, NoLeak, LockHeld, KeyEq;
    var s', f := Start(s, t, Construct(h)), Floating(s);
    UnusedHandle(s, h);
    PointData(s.refs, s.heap, s.pool, f, h, EMPTY);
    EmptyData(s'.refs, s.heap, s.pool, f + {h}, h);
    assert Floating(s') == f == f + {h} - {h};
    assert s'.pcs == s.pcs[t := Idle];
    ThreadsKept(s, s', t, Idle);
  }

  lemma CopyConstructKeeps(s: State, t: Thread, h: Handle, src: Handle)
    requires Inv(s) && CanBegin(s, t, CopyConstruct(h, src))
    ensures Inv(Start(s, t, CopyConstruct(h, src)))
  {
    hide DataInv, NoLeak, LockHeld, KeyEq;
    var s', f := Start(s, t, CopyConstruct(h, src)), Floating(s);
    UnusedHandle(s, h);
    PointData(s.refs, s.heap, s.pool, f, h, s.refs[src]);
    FloatingAfter(s, s', t, Acquiring(h, src));
    assert Floating(s') == f + {h};
    ExclusiveBegun(s, s', t, Acquiring(h, src));
    ThreadsKept(s, s', t, Acquiring(h, src));
  }

  lemma MoveConstructKeeps(s: State, t: Thread, h: Handle, src: Handle)
    requires Inv(s) && CanBegin(s, t, MoveConstruct(h, src))
    ensures Inv(Start(s, t, MoveConstruct(h, src)))
  {
    hide DataInv, NoLeak, LockHeld, KeyEq;
    var s', f := Start(s, t, MoveConstruct(h, src)), Floating(s);
    UnusedHandle(s, h);
    NotFloating(s, src);
    MoveData(s.refs, s.heap, s.pool, f, h, src);
    assert Floating(s') == f == f - {h};
    assert s'.pcs == s.pcs[t := Idle];
    ThreadsKept(s, s', t, Idle);
  }

  // ---- Whole runs -------------------------------------------------------------------------

  lemma ReleaseStepKeeps(s: State, t: Thread)
    requires Inv(s) && CanAdvance(s, t) && s.pcs[t].Releasing? && Undisturbed(s, t)
    ensures Inv(Continue(s, t))
  {
    hide Inv, Continue, Undisturbed;
    match s.pcs[t].at {
      case Dropping => DroppingKeeps(s, t);
      case Awaiting(_) => AwaitingKeeps(s, t);
      case Rechecking(_) => RecheckingKeeps(s, t);
      case Erasing(_) => ErasingKeeps(s, t);
      case Unlocking => UnlockingKeeps(s, t);
      case Dropped =>
        match s.pcs[t].purpose {
          case Clear => ClearKeeps(s, t);
          case Destroy => DestroyKeeps(s, t);
          case CopyFrom(_) => CopyFromKeeps(s, t);
          case MoveFrom(_) => MoveFromKeeps(s, t);
        }
    }
  }

  lemma SetStepKeeps(s: State, t: Thread)
    requires Inv(s) && CanAdvance(s, t) && s.pcs[t].Assigning? && Undisturbed(s, t)
    ensures Inv(Continue(s, t))
  {
    hide Inv, Continue, Undisturbed;
    match s.pcs[t].step {
      case Waiting(_) => LockedSetKeeps(s, t);
      case Inserting(_) => InsertingKeeps(s, t);
      case Comparing(_) => ComparingKeeps(s, t);
      case Replacing(_) => ReplacingKeeps(s, t);
      case Discarding(_, _) => DiscardingKeeps(s, t);
      case Storing(_) => StoringKeeps(s, t);
      case Counting => CountingKeeps(s, t);
      case Leaving => LockedSetKeeps(s, t);
    }
  }

  lemma StartKeeps(s: State, t: Thread, op: Operation)
    requires Inv(s) && CanBegin(s, t, op)
    ensures Inv(Start(s, t, op))
  {
    hide Inv, PcFacts, Shape;
    match op {
      case Construct(h) => ConstructKeeps(s, t, h);
      case CopyConstruct(h, src) => CopyConstructKeeps(s, t, h, src);
      case MoveConstruct(h, src) => MoveConstructKeeps(s, t, h, src);
      case CopyAssign(h, src) => if h != src { StartOn(s, t, Releasing(h, CopyFrom(src), Dropping)); }
      case MoveAssign(h, src) => if h != src { StartOn(s, t, Releasing(h, MoveFrom(src), Dropping)); }
      case Reset(h) => StartOn(s, t, Releasing(h, Clear, Dropping));
      case Destruct(h) => StartOn(s, t, Releasing(h, Destroy, Dropping));
      case Set(h, text) => StartOn(s, t, Assigning(h, Waiting(text)));
    }
  }

  lemma StartOn(s: State, t: Thread, pc': Pc)
    requires Inv(s) && t in s.pcs && s.pcs[t].Idle?
    requires (pc'.Releasing? && pc'.at.Dropping?) || (pc'.Assigning? && pc'.step.Waiting?)
    requires pc'.Releasing? && (pc'.purpose.CopyFrom? || pc'.purpose.MoveFrom?) ==> pc'.purpose.src != pc'.dst
    requires forall h :: h in pc'.Writes() ==> Writable(s, h)
    requires forall h :: h in pc'.Reads() ==> Readable(s, h)
    ensures Inv(Goto(s, t, pc'))
  {
    hide Inv;
    assert pc'.dst in pc'.Writes();
    BeginKeeps(s, t, pc');
  }

  /** The step respects the hypothesis. Only a thread's own step can break it. */
  ghost predicate Respects(s: State, l: Label) {
    l.Advance? ==> Undisturbed(s, l.t)
  }

  /** Exactly the steps that respect the hypothesis keep the invariant: when one does not, two
      threads are on their way to erase the same entry. */
  lemma {:induction false} StepKeepsExactly(s: State, l: Label)
    requires Inv(s) && CanStep(s, l)
    ensures Respects(s, l) <==> Inv(Next(s, l))
  {
    hide DataInv, NoLeak;
    if Respects(s, l) {
      match l {
        case Begin(t, op) => StartKeeps(s, t, op);
        case Advance(t) =>
          if s.pcs[t].Releasing? {
            ReleaseStepKeeps(s, t);
          } else if s.pcs[t].Acquiring? {
            AcquiringKeeps(s, t);
          } else {
            SetStepKeeps(s, t);
          }
      }
    } else {
      Collision(s, l.t);
    }
  }

  lemma Collision(s: State, t: Thread)
    requires Inv(s) && CanAdvance(s, t) && !Undisturbed(s, t)
    ensures !PendingInPool(Continue(s, t))
  {
    hide DataInv, NoLeak, LockHeld, PendingInPool, Exclusive;
    var e: Id, u :| DropsToZero(s, t, e) && u in s.pcs && u != t && s.pcs[u].Pending(e);
    var s' := Continue(s, t);
    assert s'.pcs[u] == s.pcs[u];
    assert s'.pcs[t].Dooms(e) && s'.pcs[u].Dooms(e);
    TwoDoom(s', t, u, e);
  }

  lemma TwoDoom(s: State, t: Thread, u: Thread, e: Id)
    requires t in s.pcs && u in s.pcs && t != u && s.pcs[t].Dooms(e) && s.pcs[u].Dooms(e)
    ensures !PendingInPool(s)
  {
  }

  lemma InitInv(threads: set<Thread>)
    ensures Inv(Init(threads))
  {
    hide KeyEq;
    var s := Init(threads);
    assert Floating(s) == {};
  }

  /** No step of the run breaks the hypothesis. */
  ghost predicate RespectsAll(s: State, ls: seq<Label>)
    requires Run(s, ls)
    decreases |ls|
  {
    ls == [] || (Respects(s, ls[0]) && RespectsAll(Next(s, ls[0]), ls[1..]))
  }

  /** The invariant holds in every state of the run. */
  ghost predicate InvThroughout(s: State, ls: seq<Label>)
    requires Run(s, ls)
    decreases |ls|
  {
    (ls == [] || InvThroughout(Next(s, ls[0]), ls[1..])) && Inv(s)
  }

  /** Over every interleaving: the invariant holds throughout a run exactly when the run respects
      the hypothesis at every step. */
  lemma {:induction false} RunSafeExactly(s: State, ls: seq<Label>)
    requires Inv(s) && Run(s, ls)
    ensures InvThroughout(s, ls) <==> RespectsAll(s, ls)
    ensures RespectsAll(s, ls) ==> Inv(After(s, ls))
    decreases |ls|
  {
    hide Inv, CanStep, Next, Respects;
    if ls != [] {
      var s' := Next(s, ls[0]);
      StepKeepsExactly(s, ls[0]);
      if Inv(s') {
        RunSafeExactly(s', ls[1..]);
      } else {
        assert !InvThroughout(s', ls[1..]);
      }
    }
  }

  // ---- What the invariant means for callers -----------------------------------------------

  /** A handle at rest: constructed, and no thread is in the middle of writing it. */
  ghost predicate AtRest(s: State, h: Handle) {
    Readable(s, h)
  }

  /** In every state reached by a run that respects the hypothesis, a handle at rest points into
      the pool, its entry's count is the number of owners, and the process has not halted. */
  lemma {:induction false} ReachedStatesAreSafe(threads: set<Thread>, ls: seq<Label>, h: Handle)
    requires Run(Init(threads), ls) && RespectsAll(Init(threads), ls)
    requires AtRest(After(Init(threads), ls), h)
    ensures
      var s := After(Init(threads), ls);
      && !s.halted
      && s.refs[h] in s.pool && s.refs[h] < |s.heap|
      && (s.refs[h] != EMPTY ==>
            h in Owners(s.refs, Floating(s), s.refs[h])
            && s.heap[s.refs[h]].count == |Owners(s.refs, Floating(s), s.refs[h])|)
  {
    hide KeyEq;
    InitInv(threads);
    RunSafeExactly(Init(threads), ls);
    var s := After(Init(threads), ls);
    NotFloating(s, h);
    OwnerCounts(s, h);
  }

  lemma InvIsWeak(s: State)
    requires Inv(s)
    ensures Weak(s)
  {
    hide KeyEq;
    forall t | t in s.pcs ensures ApartPc(s.pcs[t]) {
      assert PcFacts(s, s.pcs[t]);
    }
  }

  /** After a run that respects the hypothesis, when no operation is in progress, the pool is exactly the
      permanent entry and the live handles' entries. */
  lemma {:induction false} QuiescentPool(threads: set<Thread>, ls: seq<Label>)
    requires Run(Init(threads), ls) && RespectsAll(Init(threads), ls)
    requires forall t :: t in After(Init(threads), ls).pcs ==> After(Init(threads), ls).pcs[t].Idle?
    ensures var s := After(Init(threads), ls); s.pool == {EMPTY} + set h | h in s.refs :: s.refs[h]
  {
    InitInv(threads);
    RunSafeExactly(Init(threads), ls);
    QuiescentAlways(threads, ls);
    var s := After(Init(threads), ls);
    hide Run, After;
    assert Floating(s) == {};
    forall h | h in s.refs ensures s.refs[h] in s.pool {
      OwnerCounts(s, h);
    }
  }

  /** Hash-consing: two handles at rest hold the same pointer exactly when their strings are equal
      ignoring case. */
  lemma {:induction false} PointerEquality(s: State, h1: Handle, h2: Handle)
    requires Inv(s) && AtRest(s, h1) && AtRest(s, h2)
    requires NulFree(s.heap[s.refs[h1]].text) && NulFree(s.heap[s.refs[h2]].text)
    ensures s.refs[h1] == s.refs[h2]
       <==> FoldAll(s.heap[s.refs[h1]].text) == FoldAll(s.heap[s.refs[h2]].text)
    ensures
      var a, b := s.heap[s.refs[h1]].text, s.heap[s.refs[h2]].text;
      s.refs[h1] == s.refs[h2] <==> |a| == |b| && forall i :: 0 <= i < |a| ==> SameLetter(a[i], b[i])
  {
    var a, b := s.heap[s.refs[h1]].text, s.heap[s.refs[h2]].text;
    IEqualExactly(a, b);
    NotFloating(s, h1);
    NotFloating(s, h2);
    OwnerCounts(s, h1);
    OwnerCounts(s, h2);
    IEqualNulFree(a, b);
    if FoldAll(a) == FoldAll(b) {
      EqualImpliesSameHash(Fnv1a, a, b);
      assert KeyEq(a, b);
    }
  }

  /** `operator<`: the comparison of the pooled strings ignoring case. */
  ghost predicate Less(s: State, h1: Handle, h2: Handle)
    requires Shape(s) && h1 in s.refs && h2 in s.refs
  {
    LexLess(CFold(s.heap[s.refs[h1]].text), CFold(s.heap[s.refs[h2]].text))
  }

  /** The handle comes first whose string has the smaller character where they first differ. */
  lemma LessIsOrder(s: State, h1: Handle, h2: Handle)
    requires Shape(s) && h1 in s.refs && h2 in s.refs
    ensures Less(s, h1, h2) <==> TextBefore(s.heap[s.refs[h1]].text, s.heap[s.refs[h2]].text)
  {
    TextOrder(s.heap[s.refs[h1]].text, s.heap[s.refs[h2]].text);
  }

  /** It is a strict order on the handles at rest, and total up to pointer equality. */
  lemma {:induction false} HandleOrder(s: State, h1: Handle, h2: Handle, h3: Handle)
    requires Inv(s) && AtRest(s, h1) && AtRest(s, h2) && AtRest(s, h3)
    requires NulFree(s.heap[s.refs[h1]].text) && NulFree(s.heap[s.refs[h2]].text)
    ensures s.refs[h1] == s.refs[h2] <==> !Less(s, h1, h2) && !Less(s, h2, h1)
    ensures !(Less(s, h1, h2) && Less(s, h2, h1))
    ensures Less(s, h1, h2) && Less(s, h2, h3) ==> Less(s, h1, h3)
  {
    var a, b, c := CFold(s.heap[s.refs[h1]].text), CFold(s.heap[s.refs[h2]].text), CFold(s.heap[s.refs[h3]].text);
    PointerEquality(s, h1, h2);
    hide Inv, Fold, Shape;
    CStrOfNulFree(s.heap[s.refs[h1]].text);
    CStrOfNulFree(s.heap[s.refs[h2]].text);
    LexTotal(a, b);
    LexIrreflexive(a);
    if LexLess(a, b) && LexLess(b, a) { LexTransitive(a, b, a); }
    if LexLess(a, b) && LexLess(b, c) { LexTransitive(a, b, c); }
  }
}
