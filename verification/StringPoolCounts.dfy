/** What every interleaving of the string pool keeps without any hypothesis: well-formedness, exact
    reference counts, and a pool without equal keys. */
module StringPoolCounts {
  import opened Hash
  import opened Options
  import opened StringPool

  // Stated on the pointers, the heap, the pool and the set `f` of handles whose pointer is in no
  // count at the moment.

  type Refs = map<Handle, Id>

  /** The live handles that own a reference to `e`. */
  ghost function Owners(refs: Refs, f: set<Handle>, e: Id): set<Handle> {
    set h | h in refs && refs[h] == e && h !in f
  }

  /** Every count is exactly the number of live handles that own the entry. */
  ghost predicate ExactCounts(refs: Refs, heap: seq<Entry>, f: set<Handle>) {
    forall e: Id :: 0 < e < |heap| ==> heap[e].count == |Owners(refs, f, e)|
  }

  /** No two pool entries have equal keys. */
  ghost predicate Canonical(heap: seq<Entry>, pool: set<Id>) {
    forall x, y :: x in pool && y in pool && x < |heap| && y < |heap| && KeyEq(heap[x].text, heap[y].text) ==> x == y
  }

  lemma KeyEqEquivalence()
    ensures forall a :: KeyEq(a, a)
    ensures forall a, b :: KeyEq(a, b) ==> KeyEq(b, a)
    ensures forall a, b, c :: KeyEq(a, b) && KeyEq(b, c) ==> KeyEq(a, c)
  {
  }

  lemma GainCounts(refs: Refs, heap: seq<Entry>, f: set<Handle>, d: Handle)
    requires ExactCounts(refs, heap, f) && d in f && d in refs && 0 < refs[d] < |heap|
    ensures ExactCounts(refs, Bump(heap, refs[d], 1), f - {d})
  {
    var e, heap' := refs[d], Bump(heap, refs[d], 1);
    forall x: Id | 0 < x < |heap| ensures heap'[x].count == |Owners(refs, f - {d}, x)| {
      assert Owners(refs, f - {d}, x) == Owners(refs, f, x) + (if x == e then {d} else {});
    }
  }

  lemma LoseCounts(refs: Refs, heap: seq<Entry>, f: set<Handle>, d: Handle)
    requires ExactCounts(refs, heap, f) && d !in f && d in refs && 0 < refs[d] < |heap|
    ensures heap[refs[d]].count >= 1
    ensures ExactCounts(refs, Bump(heap, refs[d], -1), f + {d})
  {
    var e, heap' := refs[d], Bump(heap, refs[d], -1);
    assert d in Owners(refs, f, e);
    forall x: Id | 0 < x < |heap| ensures heap'[x].count == |Owners(refs, f + {d}, x)| {
      assert Owners(refs, f, x) == Owners(refs, f + {d}, x) + (if x == e then {d} else {});
    }
  }

  /** The permanent entry is in no count, so pointing to it is owning nothing. */
  lemma EmptyCounts(refs: Refs, heap: seq<Entry>, f: set<Handle>, d: Handle)
    requires ExactCounts(refs, heap, f) && d in refs && refs[d] == EMPTY
    ensures ExactCounts(refs, heap, f + {d}) && ExactCounts(refs, heap, f - {d})
  {
    forall x: Id | 0 < x < |heap|
      ensures heap[x].count == |Owners(refs, f + {d}, x)| == |Owners(refs, f - {d}, x)|
    {
      assert Owners(refs, f + {d}, x) == Owners(refs, f, x) == Owners(refs, f - {d}, x);
    }
  }

  /** A floating pointer, old or new, may be overwritten freely. */
  lemma PointCounts(refs: Refs, heap: seq<Entry>, f: set<Handle>, d: Handle, e: Id)
    requires ExactCounts(refs, heap, f) && (d in f || d !in refs)
    ensures ExactCounts(refs[d := e], heap, f + {d})
  {
    forall x: Id | 0 < x < |heap| ensures heap[x].count == |Owners(refs[d := e], f + {d}, x)| {
      assert Owners(refs[d := e], f + {d}, x) == Owners(refs, f, x);
    }
  }

  lemma RemoveCounts(refs: Refs, heap: seq<Entry>, f: set<Handle>, d: Handle)
    requires ExactCounts(refs, heap, f) && d in f
    ensures ExactCounts(refs - {d}, heap, f - {d})
  {
    forall x: Id | 0 < x < |heap| ensures heap[x].count == |Owners(refs - {d}, f - {d}, x)| {
      assert Owners(refs - {d}, f - {d}, x) == Owners(refs, f, x);
    }
  }

  lemma SwapOne(was: set<Handle>, now: set<Handle>, src: Handle, d: Handle)
    requires src in was && d !in was && now == was - {src} + {d}
    ensures |now| == |was|
  {
    assert was == was - {src} + {src};
  }

  lemma MoveOwners(refs: Refs, f: set<Handle>, d: Handle, src: Handle, e: Id)
    requires (d in f || d !in refs) && src in refs && src !in f && src != d && e != EMPTY
    ensures |Owners(refs[d := refs[src]][src := EMPTY], f - {d}, e)| == |Owners(refs, f, e)|
  {
    var refs' := refs[d := refs[src]][src := EMPTY];
    var was, now := Owners(refs, f, e), Owners(refs', f - {d}, e);
    forall h ensures h in now <==> (h in was && h != src) || (h == d && e == refs[src]) {
      if h != d && h != src {
        assert h in refs' <==> h in refs;
      }
    }
    hide Owners;
    if e == refs[src] {
      assert src in was by { OwnsIt(refs, f, src); }
      SwapOne(was, now, src, d);
    } else {
      assert now == was;
    }
  }

  lemma OwnsIt(refs: Refs, f: set<Handle>, h: Handle)
    requires h in refs && h !in f
    ensures h in Owners(refs, f, refs[h])
  {
  }

  /** A move hands the reference over: the number of owners stays the same. */
  lemma MoveCounts(refs: Refs, heap: seq<Entry>, f: set<Handle>, d: Handle, src: Handle)
    requires ExactCounts(refs, heap, f) && (d in f || d !in refs)
    requires src in refs && src !in f && src != d
    ensures ExactCounts(refs[d := refs[src]][src := EMPTY], heap, f - {d})
  {
    hide Owners;
    forall x: Id | 0 < x < |heap|
      ensures heap[x].count == |Owners(refs[d := refs[src]][src := EMPTY], f - {d}, x)|
    {
      MoveOwners(refs, f, d, src, x);
    }
  }

  lemma CreateCounts(refs: Refs, heap: seq<Entry>, f: set<Handle>, text: Str)
    requires ExactCounts(refs, heap, f) && forall h :: h in refs ==> refs[h] < |heap|
    ensures ExactCounts(refs, heap + [Entry(text, 0)], f)
  {
    assert Owners(refs, f, |heap|) == {};
  }

  /** Only a text without an equal key is inserted, so the pool stays canonical. */
  lemma CreateCanonical(heap: seq<Entry>, pool: set<Id>, text: Str)
    requires Canonical(heap, pool) && Hit(heap, pool, text) == {} && forall x :: x in pool ==> x < |heap|
    ensures Canonical(heap + [Entry(text, 0)], pool + {|heap|})
  {
    KeyEqEquivalence();
    hide KeyEq;
    forall x | x in pool ensures !KeyEq(heap[x].text, text) && !KeyEq(text, heap[x].text) {
      assert x !in Hit(heap, pool, text);
    }
  }

  /** Counts play no part in the pool being canonical, and erasing keeps it so. */
  lemma SameTextsCanonical(heap: seq<Entry>, heap': seq<Entry>, pool: set<Id>, pool': set<Id>)
    requires Canonical(heap, pool) && pool' <= pool && |heap'| == |heap|
    requires forall x :: 0 <= x < |heap| ==> heap'[x].text == heap[x].text
    ensures Canonical(heap', pool')
  {
    hide KeyEq;
  }

  // ---- Threads and their handles ----------------------------------------------------------

  /** Handles whose pointer is currently in no count. */
  ghost function Floating(s: State): set<Handle> {
    set t | t in s.pcs && s.pcs[t].Floats() :: s.pcs[t].dst
  }

  ghost predicate Exclusive(s: State) {
    forall t, u, h :: t in s.pcs && u in s.pcs && t != u && h in s.pcs[t].Writes() ==> h !in s.pcs[u].Touches()
  }

  lemma ExclusiveKept(s: State, s': State, t: Thread, pc': Pc)
    requires Exclusive(s) && t in s.pcs && s'.pcs == s.pcs[t := pc']
    requires pc'.Writes() <= s.pcs[t].Writes() && pc'.Reads() <= s.pcs[t].Reads()
    ensures Exclusive(s')
  {
    assert pc'.Touches() <= s.pcs[t].Touches();
    hide Pc.Writes, Pc.Reads, Pc.Touches;
    forall a, b, h | a in s'.pcs && b in s'.pcs && a != b && h in s'.pcs[a].Writes() ensures h !in s'.pcs[b].Touches() {
      assert h in s.pcs[a].Writes() && h !in s.pcs[b].Touches();
    }
  }

  lemma ExclusiveBegun(s: State, s': State, t: Thread, pc': Pc)
    requires Exclusive(s) && t in s.pcs && s'.pcs == s.pcs[t := pc']
    requires forall u, h :: u in s.pcs && u != t && h in pc'.Writes() ==> h !in s.pcs[u].Touches()
    requires forall u, h :: u in s.pcs && u != t && h in pc'.Reads() ==> h !in s.pcs[u].Writes()
    ensures Exclusive(s')
  {
  }

  /** How one thread's move changes the floating handles. */
  lemma FloatingAfter(s: State, s': State, t: Thread, pc': Pc)
    requires t in s.pcs && s'.pcs == s.pcs[t := pc'] && Exclusive(s)
    ensures Floating(s') == Floating(s) - (if s.pcs[t].Floats() then {s.pcs[t].dst} else {})
                                        + (if pc'.Floats() then {pc'.dst} else {})
    ensures forall h :: h in s.pcs[t].Writes() ==> (h in Floating(s) <==> s.pcs[t].Floats() && h == s.pcs[t].dst)
  {
    var was := if s.pcs[t].Floats() then {s.pcs[t].dst} else {};
    var now := if pc'.Floats() then {pc'.dst} else {};
    forall h | h in Floating(s) - was ensures h in Floating(s') {
      var u :| u in s.pcs && s.pcs[u].Floats() && s.pcs[u].dst == h;
      assert u != t && s'.pcs[u] == s.pcs[u];
    }
    forall h | h in now ensures h in Floating(s') {
      assert s'.pcs[t] == pc';
    }
    forall h | h in Floating(s') ensures h in Floating(s) - was + now {
      var u :| u in s'.pcs && s'.pcs[u].Floats() && s'.pcs[u].dst == h;
      if u != t {
        assert s.pcs[u] == s'.pcs[u] && h in s.pcs[u].Writes();
        assert h !in s.pcs[t].Touches();
      }
    }
  }

  /** The thread's handle floats after the move exactly if it did before. */
  lemma FloatingKept(s: State, s': State, t: Thread, pc': Pc)
    requires t in s.pcs && s'.pcs == s.pcs[t := pc'] && Exclusive(s) && pc'.Floats() == s.pcs[t].Floats()
    requires pc'.Floats() ==> pc'.dst == s.pcs[t].dst
    ensures Floating(s') == Floating(s)
    ensures pc'.Floats() ==> Floating(s) + {pc'.dst} == Floating(s)
  {
    FloatingAfter(s, s', t, pc');
    if pc'.Floats() {
      assert pc'.dst in s.pcs[t].Writes();
    }
  }

  /** The thread's handle begins to float. */
  lemma FloatingGains(s: State, s': State, t: Thread, pc': Pc)
    requires t in s.pcs && s'.pcs == s.pcs[t := pc'] && Exclusive(s) && !s.pcs[t].Idle?
    requires !s.pcs[t].Floats() && pc'.Floats() && pc'.dst == s.pcs[t].dst
    ensures Floating(s') == Floating(s) + {pc'.dst} && pc'.dst !in Floating(s)
  {
    FloatingAfter(s, s', t, pc');
    assert pc'.dst in s.pcs[t].Writes();
  }

  /** The thread's handle no longer floats. */
  lemma FloatingLoses(s: State, s': State, t: Thread, pc': Pc)
    requires t in s.pcs && s'.pcs == s.pcs[t := pc'] && Exclusive(s) && s.pcs[t].Floats() && !pc'.Floats()
    ensures Floating(s') == Floating(s) - {s.pcs[t].dst}
    ensures s.pcs[t].dst in Floating(s) && Floating(s) + {s.pcs[t].dst} == Floating(s)
  {
    FloatingAfter(s, s', t, pc');
    assert s.pcs[t].dst in s.pcs[t].Writes();
  }

  /** A handle the thread may write does not float unless it is the one its operation assigns. */
  lemma OwnRests(s: State, t: Thread, h: Handle)
    requires Exclusive(s) && t in s.pcs && h in s.pcs[t].Writes() && !(s.pcs[t].Floats() && h == s.pcs[t].dst)
    ensures h !in Floating(s)
  {
    FloatingAfter(s, s, t, s.pcs[t]);
  }

  lemma NotFloating(s: State, h: Handle)
    requires forall t :: t in s.pcs ==> h !in s.pcs[t].Writes()
    ensures h !in Floating(s)
  {
  }

  /** A handle that is not constructed is used by no thread. */
  lemma UnusedHandle(s: State, h: Handle)
    requires Shape(s) && h !in s.refs
    ensures forall u :: u in s.pcs ==> h !in s.pcs[u].Touches()
    ensures h !in Floating(s)
  {
    forall u | u in s.pcs ensures h !in s.pcs[u].Touches() {
      assert PcShape(s, s.pcs[u]);
    }
    NotFloating(s, h);
  }

  // ---- Well-formedness --------------------------------------------------------------------

  lemma ShapeKept(s: State, s': State, t: Thread, pc': Pc)
    requires Shape(s) && t in s.pcs && s'.pcs == s.pcs[t := pc']
    requires forall u, h :: u in s.pcs && u != t && h in s.pcs[u].Touches() ==> h in s'.refs
    requires forall h :: h in s'.refs ==> s'.refs[h] < |s'.heap|
    requires forall x :: x in s'.pool ==> x < |s'.heap|
    requires |s.heap| <= |s'.heap| && PcShape(s', pc')
    ensures Shape(s')
  {
    forall u | u in s'.pcs ensures PcShape(s', s'.pcs[u]) {
      if u != t {
        assert PcShape(s, s.pcs[u]) && s'.pcs[u] == s.pcs[u];
        assert forall h :: h in s.pcs[u].Touches() ==> h in s'.refs;
      }
    }
  }

  lemma OthersKnown(s: State, t: Thread)
    requires Shape(s)
    ensures forall u, h :: u in s.pcs && u != t && h in s.pcs[u].Touches() ==> h in s.refs
  {
    forall u, h | u in s.pcs && u != t && h in s.pcs[u].Touches() ensures h in s.refs {
      assert PcShape(s, s.pcs[u]);
    }
  }

  lemma ShapeStaysOnStart(s: State, t: Thread, op: Operation)
    requires Shape(s) && Exclusive(s) && CanBegin(s, t, op)
    ensures Shape(Start(s, t, op)) && Exclusive(Start(s, t, op))
  {
    hide KeyEq;
    var s' := Start(s, t, op);
    var pc' := s'.pcs[t];
    assert s'.pcs == s.pcs[t := pc'];
    if op.h !in s.refs { UnusedHandle(s, op.h); }
    OthersKnown(s, t);
    ExclusiveBegun(s, s', t, pc');
    hide Exclusive, Writable, Readable, CanBegin;
    ShapeKept(s, s', t, pc');
  }

  /** Other threads' handles exist and are not this thread's to write. */
  lemma OwnPoint(s: State, t: Thread)
    requires Shape(s) && Exclusive(s) && t in s.pcs
    ensures PcShape(s, s.pcs[t])
    ensures forall h :: h in s.pcs[t].Writes() || h in s.pcs[t].Reads() ==> h in s.pcs[t].Touches()
    ensures forall u, h :: u in s.pcs && u != t && h in s.pcs[u].Touches() ==> h in s.refs && h !in s.pcs[t].Writes()
  {
    forall u, h | u in s.pcs && u != t && h in s.pcs[u].Touches() ensures h in s.refs && h !in s.pcs[t].Writes() {
      assert PcShape(s, s.pcs[u]);
    }
  }

  lemma ShapeStaysAcquiring(s: State, t: Thread)
    requires Shape(s) && Exclusive(s) && CanAdvance(s, t)
    requires s.pcs[t].Acquiring?
    ensures Shape(Continue(s, t)) && Exclusive(Continue(s, t))
  {
    var s' := Continue(s, t);
    var pc, pc' := s.pcs[t], s'.pcs[t];
    OwnPoint(s, t);
    hide KeyEq, Exclusive;
    ExclusiveKept(s, s', t, pc');
    ShapeKept(s, s', t, pc');
  }

  lemma ShapeStaysDropping(s: State, t: Thread)
    requires Shape(s) && Exclusive(s) && CanAdvance(s, t)
    requires s.pcs[t].Releasing? && s.pcs[t].at.Dropping?
    ensures Shape(Continue(s, t)) && Exclusive(Continue(s, t))
  {
    var s' := Continue(s, t);
    var pc, pc' := s.pcs[t], s'.pcs[t];
    OwnPoint(s, t);
    hide KeyEq, Exclusive;
    ExclusiveKept(s, s', t, pc');
    ShapeKept(s, s', t, pc');
  }

  lemma ShapeStaysReleasing(s: State, t: Thread)
    requires Shape(s) && Exclusive(s) && CanAdvance(s, t)
    requires s.pcs[t].Releasing? && !s.pcs[t].at.Dropping? && !s.pcs[t].at.Dropped?
    ensures Shape(Continue(s, t)) && Exclusive(Continue(s, t))
  {
    var s' := Continue(s, t);
    var pc, pc' := s.pcs[t], s'.pcs[t];
    OwnPoint(s, t);
    hide KeyEq, Exclusive;
    ExclusiveKept(s, s', t, pc');
    ShapeKept(s, s', t, pc');
  }

  lemma ShapeStaysDropped(s: State, t: Thread)
    requires Shape(s) && Exclusive(s) && CanAdvance(s, t)
    requires s.pcs[t].Releasing? && s.pcs[t].at.Dropped?
    ensures Shape(Continue(s, t)) && Exclusive(Continue(s, t))
  {
    var s' := Continue(s, t);
    var pc, pc' := s.pcs[t], s'.pcs[t];
    OwnPoint(s, t);
    hide KeyEq, Exclusive;
    ExclusiveKept(s, s', t, pc');
    ShapeKept(s, s', t, pc');
  }

  lemma ShapeStaysInserting(s: State, t: Thread)
    requires Shape(s) && Exclusive(s) && CanAdvance(s, t)
    requires s.pcs[t].Assigning? && (s.pcs[t].step.Waiting? || s.pcs[t].step.Inserting? || s.pcs[t].step.Leaving?)
    ensures Shape(Continue(s, t)) && Exclusive(Continue(s, t))
  {
    var s' := Continue(s, t);
    var pc, pc' := s.pcs[t], s'.pcs[t];
    OwnPoint(s, t);
    hide KeyEq, Exclusive;
    ExclusiveKept(s, s', t, pc');
    ShapeKept(s, s', t, pc');
  }

  lemma ShapeStaysAssigning(s: State, t: Thread)
    requires Shape(s) && Exclusive(s) && CanAdvance(s, t)
    requires s.pcs[t].Assigning? && !(s.pcs[t].step.Waiting? || s.pcs[t].step.Inserting? || s.pcs[t].step.Leaving?)
    ensures Shape(Continue(s, t)) && Exclusive(Continue(s, t))
  {
    var s' := Continue(s, t);
    var pc, pc' := s.pcs[t], s'.pcs[t];
    OwnPoint(s, t);
    hide KeyEq, Exclusive;
    ExclusiveKept(s, s', t, pc');
    ShapeKept(s, s', t, pc');
  }

  /** Well-formedness needs no hypothesis: every step of every run keeps it. */
  lemma {:induction false} ShapeStays(s: State, l: Label)
    requires CanStep(s, l) && Exclusive(s)
    ensures Shape(Next(s, l)) && Exclusive(Next(s, l))
  {
    hide Shape, Exclusive, Continue, Start;
    match l {
      case Begin(t, op) => ShapeStaysOnStart(s, t, op);
      case Advance(t) =>
        if s.pcs[t].Acquiring? {
          ShapeStaysAcquiring(s, t);
        } else if s.pcs[t].Assigning?
               && (s.pcs[t].step.Waiting? || s.pcs[t].step.Inserting? || s.pcs[t].step.Leaving?) {
          ShapeStaysInserting(s, t);
        } else if s.pcs[t].Assigning? {
          ShapeStaysAssigning(s, t);
        } else if s.pcs[t].at.Dropped? {
          ShapeStaysDropped(s, t);
        } else if s.pcs[t].at.Dropping? {
          ShapeStaysDropping(s, t);
        } else {
          ShapeStaysReleasing(s, t);
        }
    }
  }

  // ---- Counts and keys --------------------------------------------------------------------

  /** What every run keeps, whatever the threads do to each other's entries. */
  ghost predicate Always(s: State) {
    && Shape(s) && Exclusive(s) && Apart(s)
    && ExactCounts(s.refs, s.heap, Floating(s)) && Canonical(s.heap, s.pool)
  }

  /** An assignment copies or moves from another handle than its own. */
  ghost predicate Apart(s: State) {
    forall t :: t in s.pcs ==> ApartPc(s.pcs[t])
  }

  predicate ApartPc(pc: Pc) {
    pc.Releasing? && (pc.purpose.CopyFrom? || pc.purpose.MoveFrom?) ==> pc.purpose.src != pc.dst
  }

  lemma ApartKept(s: State, s': State, t: Thread, pc': Pc)
    requires Apart(s) && t in s.pcs && s'.pcs == s.pcs[t := pc'] && ApartPc(pc')
    ensures Apart(s')
  {
  }

  /** A step that only moves the thread's program point, and perhaps erases from the pool. */
  lemma QuietAlways(s: State, s': State, t: Thread, pc': Pc)
    requires Always(s) && Shape(s') && Exclusive(s') && t in s.pcs && s'.pcs == s.pcs[t := pc'] && ApartPc(pc')
    requires s'.refs == s.refs && s'.heap == s.heap && s'.pool <= s.pool
    requires pc'.Floats() == s.pcs[t].Floats() && (pc'.Floats() ==> pc'.dst == s.pcs[t].dst)
    ensures Always(s')
  {
    FloatingKept(s, s', t, pc');
    hide Shape, Exclusive, Floating, ExactCounts, Canonical;
    ApartKept(s, s', t, pc');
    SameTextsCanonical(s.heap, s'.heap, s.pool, s'.pool);
  }

  /** A step that changes counts, pointers and who is floating together. */
  lemma CountedAlways(s: State, s': State, t: Thread, pc': Pc)
    requires Always(s) && Shape(s') && Exclusive(s') && t in s.pcs && s'.pcs == s.pcs[t := pc'] && ApartPc(pc')
    requires s'.pool == s.pool && |s'.heap| == |s.heap|
    requires forall x :: 0 <= x < |s.heap| ==> s'.heap[x].text == s.heap[x].text
    requires ExactCounts(s'.refs, s'.heap, Floating(s'))
    ensures Always(s')
  {
    hide Shape, Exclusive, Floating, ExactCounts, Canonical;
    ApartKept(s, s', t, pc');
    SameTextsCanonical(s.heap, s'.heap, s.pool, s'.pool);
  }

  lemma LoseAlways(s: State, s': State, t: Thread, pc': Pc)
    requires Always(s) && Shape(s') && Exclusive(s') && t in s.pcs && s'.pcs == s.pcs[t := pc'] && ApartPc(pc')
    requires !s.pcs[t].Idle? && !s.pcs[t].Floats() && pc'.Floats() && pc'.dst == s.pcs[t].dst
    requires pc'.dst in s.refs && s'.refs == s.refs && s'.pool == s.pool
    requires s'.heap == if s.refs[pc'.dst] == EMPTY then s.heap else Bump(s.heap, s.refs[pc'.dst], -1)
    ensures Always(s')
  {
    var d, f := pc'.dst, Floating(s);
    hide ExactCounts, Canonical, Floating, Exclusive, Shape;
    FloatingGains(s, s', t, pc');
    if s.refs[d] == EMPTY {
      EmptyCounts(s.refs, s.heap, f, d);
    } else {
      LoseCounts(s.refs, s.heap, f, d);
    }
    CountedAlways(s, s', t, pc');
  }

  lemma DropAlways(s: State, t: Thread)
    requires Always(s) && CanAdvance(s, t) && Shape(Continue(s, t)) && Exclusive(Continue(s, t))
    requires s.pcs[t].Releasing? && s.pcs[t].at.Dropping?
    ensures Always(Continue(s, t))
  {
    var s' := Continue(s, t);
    var pc' := s'.pcs[t];
    assert PcShape(s, s.pcs[t]) && s.pcs[t].dst in s.pcs[t].Touches() && ApartPc(s.pcs[t]);
    assert s'.pcs == s.pcs[t := pc'];
    hide ExactCounts, Canonical, Floating, Exclusive, Always;
    LoseAlways(s, s', t, pc');
  }

  lemma ReplaceAlways(s: State, t: Thread)
    requires Always(s) && CanAdvance(s, t) && Shape(Continue(s, t)) && Exclusive(Continue(s, t))
    requires s.pcs[t].Assigning? && s.pcs[t].step.Replacing?
    ensures Always(Continue(s, t))
  {
    var s' := Continue(s, t);
    var pc' := s'.pcs[t];
    assert PcShape(s, s.pcs[t]) && s.pcs[t].dst in s.pcs[t].Touches() && ApartPc(s.pcs[t]);
    assert s'.pcs == s.pcs[t := pc'];
    hide ExactCounts, Canonical, Floating, Exclusive, Always;
    LoseAlways(s, s', t, pc');
  }

  lemma GainAlways(s: State, s': State, t: Thread, pc': Pc)
    requires Always(s) && Shape(s') && Exclusive(s') && t in s.pcs && s'.pcs == s.pcs[t := pc'] && ApartPc(pc')
    requires !s.pcs[t].Idle? && s.pcs[t].Floats() && !pc'.Floats()
    requires s.pcs[t].dst in s.refs && s'.refs == s.refs && s'.pool == s.pool && s.refs[s.pcs[t].dst] < |s.heap|
    requires s'.heap == if s.refs[s.pcs[t].dst] == EMPTY then s.heap else Bump(s.heap, s.refs[s.pcs[t].dst], 1)
    ensures Always(s')
  {
    var d, f := s.pcs[t].dst, Floating(s);
    hide ExactCounts, Canonical, Floating, Exclusive, Shape;
    FloatingLoses(s, s', t, pc');
    if s.refs[d] == EMPTY {
      EmptyCounts(s.refs, s.heap, f, d);
    } else {
      GainCounts(s.refs, s.heap, f, d);
    }
    CountedAlways(s, s', t, pc');
  }

  lemma AcquireAlways(s: State, t: Thread)
    requires Always(s) && CanAdvance(s, t) && Shape(Continue(s, t)) && Exclusive(Continue(s, t))
    requires s.pcs[t].Acquiring?
    ensures Always(Continue(s, t))
  {
    var s' := Continue(s, t);
    var pc' := s'.pcs[t];
    assert PcShape(s, s.pcs[t]) && s.pcs[t].dst in s.pcs[t].Touches();
    assert s'.pcs == s.pcs[t := pc'];
    hide ExactCounts, Canonical, Floating, Exclusive, Always;
    GainAlways(s, s', t, pc');
  }

  lemma CountAlways(s: State, t: Thread)
    requires Always(s) && CanAdvance(s, t) && Shape(Continue(s, t)) && Exclusive(Continue(s, t))
    requires s.pcs[t].Assigning? && s.pcs[t].step.Counting?
    ensures Always(Continue(s, t))
  {
    var s' := Continue(s, t);
    var pc' := s'.pcs[t];
    assert PcShape(s, s.pcs[t]) && s.pcs[t].dst in s.pcs[t].Touches();
    assert s'.pcs == s.pcs[t := pc'];
    hide ExactCounts, Canonical, Floating, Exclusive, Always;
    GainAlways(s, s', t, pc');
  }

  lemma DroppedAlways(s: State, t: Thread)
    requires Always(s) && CanAdvance(s, t) && Shape(Continue(s, t)) && Exclusive(Continue(s, t))
    requires s.pcs[t].Releasing? && s.pcs[t].at.Dropped?
    ensures Always(Continue(s, t))
  {
    var s' := Continue(s, t);
    var pc, d, f, pc' := s.pcs[t], s.pcs[t].dst, Floating(s), s'.pcs[t];
    assert PcShape(s, pc) && ApartPc(pc) && d in pc.Writes() && pc.Touches() <= s.refs.Keys;
    hide ExactCounts, Canonical, Floating, Exclusive, Shape;
    if pc.purpose.CopyFrom? {
      FloatingKept(s, s', t, pc');
    } else {
      FloatingLoses(s, s', t, pc');
    }
    match pc.purpose {
      case Clear =>
        PointCounts(s.refs, s.heap, f, d, EMPTY);
        EmptyCounts(s'.refs, s.heap, f, d);
      case Destroy =>
        RemoveCounts(s.refs, s.heap, f, d);
      case CopyFrom(src) =>
        assert src in pc.Touches();
        PointCounts(s.refs, s.heap, f, d, s.refs[src]);
      case MoveFrom(src) =>
        assert src in pc.Writes() && src in pc.Touches();
        MoveCounts(s.refs, s.heap, f, d, src);
    }
    CountedAlways(s, s', t, pc');
  }

  lemma StoreAlways(s: State, t: Thread)
    requires Always(s) && CanAdvance(s, t) && Shape(Continue(s, t)) && Exclusive(Continue(s, t))
    requires s.pcs[t].Assigning? && s.pcs[t].step.Storing?
    ensures Always(Continue(s, t))
  {
    var s' := Continue(s, t);
    var d, f, pc' := s.pcs[t].dst, Floating(s), s'.pcs[t];
    assert PcShape(s, s.pcs[t]);
    hide ExactCounts, Canonical, Floating, Exclusive, Shape;
    FloatingKept(s, s', t, pc');
    PointCounts(s.refs, s.heap, f, d, s.pcs[t].step.e);
    CountedAlways(s, s', t, pc');
  }

  /** `insert`: the pool's entry with an equal key, or a new one. */
  lemma Inserted(s: State, t: Thread, h: Handle, text: Str) returns (x: Id)
    requires Shape(s) && t in s.pcs && s.pcs[t] == Assigning(h, Inserting(text))
    ensures
      var hit, s' := Hit(s.heap, s.pool, text), Continue(s, t);
      if hit == {} then
        && x == |s.heap|
        && s' == Goto(s, t, Assigning(h, Comparing(x))).(heap := s.heap + [Entry(text, 0)], pool := s.pool + {x})
      else x in hit && s' == Goto(s, t, Assigning(h, Comparing(x)))
  {
    hide KeyEq, Hit, Shape;
    x := Continue(s, t).pcs[t].step.e;
  }

  lemma InsertNewAlways(s: State, s': State, t: Thread, d: Handle, text: Str, x: Id)
    requires Always(s) && t in s.pcs && s.pcs[t] == Assigning(d, Inserting(text)) && Hit(s.heap, s.pool, text) == {}
    requires x == |s.heap| && Shape(s') && Exclusive(s')
    requires s' == Goto(s, t, Assigning(d, Comparing(x))).(heap := s.heap + [Entry(text, 0)], pool := s.pool + {x})
    ensures Always(s')
  {
    assert forall y :: y in s.pool ==> y < |s.heap|;
    hide Shape, Exclusive, Floating, ExactCounts, Canonical, Hit;
    FloatingKept(s, s', t, Assigning(d, Comparing(x)));
    CreateCounts(s.refs, s.heap, Floating(s), text);
    CreateCanonical(s.heap, s.pool, text);
    ApartKept(s, s', t, Assigning(d, Comparing(x)));
  }

  lemma InsertAlways(s: State, t: Thread)
    requires Always(s) && CanAdvance(s, t) && Shape(Continue(s, t)) && Exclusive(Continue(s, t))
    requires s.pcs[t].Assigning? && s.pcs[t].step.Inserting?
    ensures Always(Continue(s, t))
  {
    var s', d, text := Continue(s, t), s.pcs[t].dst, s.pcs[t].step.text;
    var x := Inserted(s, t, d, text);
    hide Continue, Always, Shape, Exclusive, Hit;
    if Hit(s.heap, s.pool, text) == {} {
      InsertNewAlways(s, s', t, d, text, x);
    } else {
      QuietAlways(s, s', t, Assigning(d, Comparing(x)));
    }
  }

  /** The other steps: the lock, the re-check, the comparison, and erasing by key. */
  lemma LockedReleaseAlways(s: State, t: Thread)
    requires Always(s) && CanAdvance(s, t) && Shape(Continue(s, t)) && Exclusive(Continue(s, t))
    requires s.pcs[t].Releasing? && !s.pcs[t].at.Dropping? && !s.pcs[t].at.Dropped?
    ensures Always(Continue(s, t))
  {
    hide KeyEq, Hit, Exclusive, Floating, ExactCounts, Canonical;
    assert ApartPc(s.pcs[t]);
    QuietAlways(s, Continue(s, t), t, Continue(s, t).pcs[t]);
  }

  lemma LockedSetAlways(s: State, t: Thread)
    requires Always(s) && CanAdvance(s, t) && Shape(Continue(s, t)) && Exclusive(Continue(s, t))
    requires s.pcs[t].Assigning? && (s.pcs[t].step.Waiting? || s.pcs[t].step.Comparing?
                                       || s.pcs[t].step.Discarding? || s.pcs[t].step.Leaving?)
    ensures Always(Continue(s, t))
  {
    hide KeyEq, Hit, Exclusive, Floating, ExactCounts, Canonical;
    assert ApartPc(s.pcs[t]);
    QuietAlways(s, Continue(s, t), t, Continue(s, t).pcs[t]);
  }

  lemma ConstructAlways(s: State, t: Thread, h: Handle)
    requires Always(s) && CanBegin(s, t, Construct(h))
    requires Shape(Start(s, t, Construct(h))) && Exclusive(Start(s, t, Construct(h)))
    ensures Always(Start(s, t, Construct(h)))
  {
    var s', f := Start(s, t, Construct(h)), Floating(s);
    UnusedHandle(s, h);
    hide Shape, Exclusive, Floating, ExactCounts, Canonical;
    assert s'.pcs == s.pcs[t := Idle] && f + {h} - {h} == f;
    FloatingKept(s, s', t, Idle);
    PointCounts(s.refs, s.heap, f, h, EMPTY);
    EmptyCounts(s'.refs, s.heap, f + {h}, h);
    CountedAlways(s, s', t, Idle);
  }

  lemma CopyConstructAlways(s: State, t: Thread, h: Handle, src: Handle)
    requires Always(s) && CanBegin(s, t, CopyConstruct(h, src))
    requires Shape(Start(s, t, CopyConstruct(h, src))) && Exclusive(Start(s, t, CopyConstruct(h, src)))
    ensures Always(Start(s, t, CopyConstruct(h, src)))
  {
    var s', f := Start(s, t, CopyConstruct(h, src)), Floating(s);
    UnusedHandle(s, h);
    FloatingAfter(s, s', t, Acquiring(h, src));
    assert Floating(s') == f + {h};
    assert s.refs[src] < |s.heap|;
    hide Shape, Exclusive, Floating, ExactCounts, Canonical, Readable;
    PointCounts(s.refs, s.heap, f, h, s.refs[src]);
    CountedAlways(s, s', t, Acquiring(h, src));
  }

  lemma MoveConstructAlways(s: State, t: Thread, h: Handle, src: Handle)
    requires Always(s) && CanBegin(s, t, MoveConstruct(h, src))
    requires Shape(Start(s, t, MoveConstruct(h, src))) && Exclusive(Start(s, t, MoveConstruct(h, src)))
    ensures Always(Start(s, t, MoveConstruct(h, src)))
  {
    var s', f := Start(s, t, MoveConstruct(h, src)), Floating(s);
    UnusedHandle(s, h);
    NotFloating(s, src);
    hide Shape, Exclusive, Floating, ExactCounts, Canonical;
    assert s'.pcs == s.pcs[t := Idle] && f - {h} == f;
    FloatingKept(s, s', t, Idle);
    MoveCounts(s.refs, s.heap, f, h, src);
    CountedAlways(s, s', t, Idle);
  }

  lemma StartAlways(s: State, t: Thread, op: Operation)
    requires Always(s) && CanBegin(s, t, op) && Shape(Start(s, t, op)) && Exclusive(Start(s, t, op))
    ensures Always(Start(s, t, op))
  {
    hide Always, Shape, Exclusive, Readable, Writable;
    match op {
      case Construct(h) => ConstructAlways(s, t, h);
      case CopyConstruct(h, src) => CopyConstructAlways(s, t, h, src);
      case MoveConstruct(h, src) => MoveConstructAlways(s, t, h, src);
      case _ =>
        var s' := Start(s, t, op);
        assert s'.pcs == s.pcs[t := s'.pcs[t]];
        QuietAlways(s, s', t, s'.pcs[t]);
    }
  }

  lemma {:induction false} StepAlways(s: State, l: Label)
    requires Always(s) && CanStep(s, l)
    ensures Always(Next(s, l))
  {
    ShapeStays(s, l);
    hide Always, Continue, Start, Shape, Exclusive;
    match l {
      case Begin(t, op) => StartAlways(s, t, op);
      case Advance(t) =>
        match s.pcs[t] {
          case Acquiring(_, _) => AcquireAlways(s, t);
          case Releasing(_, _, at) =>
            if at.Dropping? {
              DropAlways(s, t);
            } else if at.Dropped? {
              DroppedAlways(s, t);
            } else {
              LockedReleaseAlways(s, t);
            }
          case Assigning(_, step) =>
            match step {
              case Inserting(_) => InsertAlways(s, t);
              case Replacing(_) => ReplaceAlways(s, t);
              case Storing(_) => StoreAlways(s, t);
              case Counting => CountAlways(s, t);
              case _ => LockedSetAlways(s, t);
            }
        }
    }
  }

  lemma {:induction false} RunAlways(s: State, ls: seq<Label>)
    requires Always(s) && Run(s, ls)
    ensures Always(After(s, ls))
    decreases |ls|
  {
    hide Always, CanStep, Next;
    if ls != [] {
      StepAlways(s, ls[0]);
      RunAlways(Next(s, ls[0]), ls[1..]);
    }
  }

  /** In every state of every interleaving, with no hypothesis at all: each non-empty entry's count is
      exactly the number of live handles that own it, and the pool holds no two equal keys. */
  lemma {:induction false} CountsAlwaysExact(threads: set<Thread>, ls: seq<Label>)
    requires Run(Init(threads), ls)
    ensures
      var s := After(Init(threads), ls);
      ExactCounts(s.refs, s.heap, Floating(s)) && Canonical(s.heap, s.pool)
  {
    hide KeyEq, Run, After;
    var s := Init(threads);
    assert Floating(s) == {};
    assert Exclusive(s) && Shape(s);
    RunAlways(s, ls);
  }
}
