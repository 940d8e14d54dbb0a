/** The interned, reference-counted string pool as a step system.

    Any number of threads run operations on `fixed_string` handles. Every access to shared state
    (the atomic count, the spin lock, the pool's set, a handle's pointer) is one step, so the state
    below ranges over every interleaving. Entry identities are indices into a heap that only grows:
    an identity is never reused, and a freed entry keeps its last contents. */
module StringPool {
  import opened Hash
  import opened Options

  type Id = nat
  type Handle = nat
  type Thread = nat

  /** The permanent entry of the empty string. */
  const EMPTY: Id := 0

  datatype Entry = Entry(text: Str, count: int)

  /** What a release is for: the second half of the operation it belongs to. */
  datatype Purpose = Clear | Destroy | CopyFrom(src: Handle) | MoveFrom(src: Handle)

  /** Where a thread stands in `try_release<true>` and what follows it. */
  datatype Release =
    | Dropping               // about to decrement the count
    | Awaiting(e: Id)        // the decrement returned 1: wants the pool lock
    | Rechecking(e: Id)      // holds the lock: re-reads the count
    | Erasing(e: Id)         // holds the lock and saw a zero count
    | Unlocking
    | Dropped                // the reference is gone: about to store the new pointer

  /** Where a thread stands in `set_impl`. */
  datatype Setting =
    | Waiting(text: Str)     // wants the pool lock
    | Inserting(text: Str)   // from here on it holds the lock
    | Comparing(e: Id)
    | Replacing(e: Id)       // about to decrement the count of the old entry
    | Discarding(prev: Id, e: Id)   // holds the lock: the old count fell to zero
    | Storing(e: Id)
    | Counting               // about to increment the count of the new entry
    | Leaving

  datatype Pc =
    | Idle
    | Releasing(dst: Handle, purpose: Purpose, at: Release)
    | Acquiring(dst: Handle, src: Handle)   // pointer copied from `src`, count not yet incremented
    | Assigning(dst: Handle, step: Setting)
  {
    /** Handles the operation may write, and handles it relies on. */
    function Writes(): set<Handle> {
      match this
      case Idle => {}
      case Releasing(d, p, _) => {d} + (if p.MoveFrom? then {p.src} else {})
      case Acquiring(d, _) => {d}
      case Assigning(d, _) => {d}
    }

    function Reads(): set<Handle> {
      match this
      case Idle => {}
      case Releasing(_, p, _) => if p.CopyFrom? then {p.src} else {}
      case Acquiring(_, src) => {src}
      case Assigning(_, _) => {}
    }

    function Touches(): set<Handle> {
      Writes() + Reads()
    }

    predicate HoldsLock() {
      (Releasing? && (at.Rechecking? || at.Erasing? || at.Unlocking?))
      || (Assigning? && !step.Waiting?)
    }

    /** The pointer in `dst` is not included in any count: the old reference has been given up
        and the new one is not counted yet. */
    predicate Floats() {
      (Releasing? && !at.Dropping?)
      || Acquiring?
      || (Assigning? && (step.Discarding? || step.Storing? || step.Counting?))
    }

    /** The thread has driven `e` to zero outside the lock and will erase it unless it is revived. */
    predicate Pending(e: Id) {
      Releasing? && (at == Awaiting(e) || at == Rechecking(e) || at == Erasing(e))
    }

    /** The thread is on its way to erase `e`. */
    predicate Dooms(e: Id) {
      Pending(e) || (Assigning? && step.Discarding? && step.prev == e)
    }
  }

  datatype State = State(
    refs: map<Handle, Id>,        // every constructed handle and its pointer
    heap: seq<Entry>,             // every entry ever created
    pool: set<Id>,                // the entries in the pool's set
    lock: Option<Thread>,
    pcs: map<Thread, Pc>,
    halted: bool)                 // the process stopped in `release`

  /** The pool's key equality: hash, size, then the case-insensitive comparison. */
  ghost predicate KeyEq(a: Str, b: Str) {
    HashOf(Fnv1a, a) == HashOf(Fnv1a, b) && IEqual(a, b)
  }

  // ---- Steps ------------------------------------------------------------------------------

  datatype Operation =
    | Construct(h: Handle)
    | CopyConstruct(h: Handle, src: Handle)
    | MoveConstruct(h: Handle, src: Handle)
    | CopyAssign(h: Handle, src: Handle)
    | MoveAssign(h: Handle, src: Handle)
    | Reset(h: Handle)
    | Destruct(h: Handle)
    | Set(h: Handle, text: Str)

  datatype Label = Begin(t: Thread, op: Operation) | Advance(t: Thread)

  /** No thread is in the middle of writing `h`. */
  ghost predicate Readable(s: State, h: Handle) {
    h in s.refs && forall t :: t in s.pcs ==> h !in s.pcs[t].Writes()
  }

  /** No thread is in the middle of using `h` at all. */
  ghost predicate Writable(s: State, h: Handle) {
    Readable(s, h) && forall t :: t in s.pcs ==> h !in s.pcs[t].Reads()
  }

  /** The language's own rule for callers: no unsynchronised conflicting access to one handle. */
  ghost predicate CanBegin(s: State, t: Thread, op: Operation) {
    && t in s.pcs && s.pcs[t].Idle?
    && match op
       case Construct(h) => h !in s.refs
       case CopyConstruct(h, src) => h !in s.refs && Readable(s, src)
       case MoveConstruct(h, src) => h !in s.refs && Writable(s, src)
       case CopyAssign(h, src) => Writable(s, h) && Readable(s, src)
       case MoveAssign(h, src) => Writable(s, h) && Writable(s, src)
       case Reset(h) => Writable(s, h)
       case Destruct(h) => Writable(s, h)
       case Set(h, _) => Writable(s, h)
  }

  ghost function Start(s: State, t: Thread, op: Operation): State
    requires CanBegin(s, t, op)
  {
    match op
    case Construct(h) => s.(refs := s.refs[h := EMPTY])
    case CopyConstruct(h, src) => s.(refs := s.refs[h := s.refs[src]], pcs := s.pcs[t := Acquiring(h, src)])
    case MoveConstruct(h, src) => s.(refs := s.refs[h := s.refs[src]][src := EMPTY])
    case CopyAssign(h, src) => if h == src then s else Goto(s, t, Releasing(h, CopyFrom(src), Dropping))
    case MoveAssign(h, src) => if h == src then s else Goto(s, t, Releasing(h, MoveFrom(src), Dropping))
    case Reset(h) => Goto(s, t, Releasing(h, Clear, Dropping))
    case Destruct(h) => Goto(s, t, Releasing(h, Destroy, Dropping))
    case Set(h, text) => Goto(s, t, Assigning(h, Waiting(text)))
  }

  function Goto(s: State, t: Thread, pc: Pc): State {
    s.(pcs := s.pcs[t := pc])
  }

  function Bump(heap: seq<Entry>, e: Id, d: int): seq<Entry>
    requires e < |heap|
  {
    heap[e := heap[e].(count := heap[e].count + d)]
  }

  function AddCount(s: State, e: Id, d: int): State
    requires e < |s.heap|
  {
    s.(heap := Bump(s.heap, e, d))
  }

  /** The pool entries with a key equal to `text`. */
  ghost function Hit(heap: seq<Entry>, pool: set<Id>, text: Str): set<Id> {
    set x | x in pool && x < |heap| && KeyEq(heap[x].text, text)
  }

  /** `m_data.erase(key)`: removes whatever entry has an equal key; the process halts if none has. */
  ghost function EraseKey(s: State, text: Str): State {
    var hit := Hit(s.heap, s.pool, text);
    if hit == {} then s.(halted := true) else s.(pool := s.pool - hit)
  }

  /** Every pointer in the state names an entry that was created, and every handle in use exists. */
  ghost predicate Shape(s: State) {
    && EMPTY < |s.heap|
    && (forall h :: h in s.refs ==> s.refs[h] < |s.heap|)
    && (forall x :: x in s.pool ==> x < |s.heap|)
    && (forall t :: t in s.pcs ==> PcShape(s, s.pcs[t]))
  }

  ghost predicate PcShape(s: State, pc: Pc) {
    && pc.Touches() <= s.refs.Keys
    && match pc
       case Idle => true
       case Acquiring(_, _) => true
       case Releasing(_, _, at) =>
         (match at
          case Awaiting(e) => e < |s.heap|
          case Rechecking(e) => e < |s.heap|
          case Erasing(e) => e < |s.heap|
          case _ => true)
       case Assigning(_, step) =>
         (match step
          case Comparing(e) => e < |s.heap|
          case Replacing(e) => e < |s.heap|
          case Discarding(p, e) => p < |s.heap| && e < |s.heap|
          case Storing(e) => e < |s.heap|
          case _ => true)
  }

  ghost predicate CanAdvance(s: State, t: Thread) {
    && t in s.pcs && !s.pcs[t].Idle?
    && var pc := s.pcs[t];
       (pc.Releasing? && pc.at.Awaiting?) || (pc.Assigning? && pc.step.Waiting?) ==> s.lock == None
  }

  ghost function Continue(s: State, t: Thread): State
    requires CanAdvance(s, t) && Shape(s)
  {
    match s.pcs[t]
    case Releasing(d, p, at) => ContinueRelease(s, t, d, p, at)
    case Acquiring(d, _) =>
      var e := s.refs[d];
      Goto(if e == EMPTY then s else AddCount(s, e, 1), t, Idle)
    case Assigning(d, step) => ContinueSet(s, t, d, step)
  }

  ghost function ContinueRelease(s: State, t: Thread, d: Handle, p: Purpose, at: Release): State
    requires Shape(s) && t in s.pcs && s.pcs[t] == Releasing(d, p, at)
  {
    match at
    case Dropping =>
      var e := s.refs[d];
      if e == EMPTY then Goto(s, t, Releasing(d, p, Dropped))
      else Goto(AddCount(s, e, -1), t, Releasing(d, p, if s.heap[e].count == 1 then Awaiting(e) else Dropped))
    case Awaiting(e) => Goto(s, t, Releasing(d, p, Rechecking(e))).(lock := Some(t))
    case Rechecking(e) => Goto(s, t, Releasing(d, p, if s.heap[e].count == 0 then Erasing(e) else Unlocking))
    case Erasing(e) => Goto(EraseKey(s, s.heap[e].text), t, Releasing(d, p, Unlocking))
    case Unlocking => Goto(s, t, Releasing(d, p, Dropped)).(lock := None)
    case Dropped =>
      match p
      case Clear => Goto(s.(refs := s.refs[d := EMPTY]), t, Idle)
      case Destroy => Goto(s.(refs := s.refs - {d}), t, Idle)
      case CopyFrom(src) => Goto(s.(refs := s.refs[d := s.refs[src]]), t, Acquiring(d, src))
      case MoveFrom(src) => Goto(s.(refs := s.refs[d := s.refs[src]][src := EMPTY]), t, Idle)
  }

  ghost function ContinueSet(s: State, t: Thread, d: Handle, step: Setting): State
    requires Shape(s) && t in s.pcs && s.pcs[t] == Assigning(d, step)
  {
    match step
    case Waiting(text) => Goto(s, t, Assigning(d, Inserting(text))).(lock := Some(t))
    case Inserting(text) =>
      var hit := Hit(s.heap, s.pool, text);
      if hit != {} then
        var x :| x in hit;
        Goto(s, t, Assigning(d, Comparing(x)))
      else Goto(s.(heap := s.heap + [Entry(text, 0)], pool := s.pool + {|s.heap|}), t,
                Assigning(d, Comparing(|s.heap|)))
    case Comparing(e) => Goto(s, t, Assigning(d, if e == s.refs[d] then Leaving else Replacing(e)))
    case Replacing(e) =>
      var prev := s.refs[d];
      if prev == EMPTY then Goto(s, t, Assigning(d, Storing(e)))
      else Goto(AddCount(s, prev, -1), t,
                Assigning(d, if s.heap[prev].count == 1 then Discarding(prev, e) else Storing(e)))
    case Discarding(prev, e) => Goto(EraseKey(s, s.heap[prev].text), t, Assigning(d, Storing(e)))
    case Storing(e) => Goto(s.(refs := s.refs[d := e]), t, Assigning(d, Counting))
    case Counting =>
      var e := s.refs[d];
      Goto(if e == EMPTY then s else AddCount(s, e, 1), t, Assigning(d, Leaving))
    case Leaving => Goto(s, t, Idle).(lock := None)
  }

  ghost predicate CanStep(s: State, l: Label) {
    && !s.halted && Shape(s)
    && match l
       case Begin(t, op) => CanBegin(s, t, op)
       case Advance(t) => CanAdvance(s, t)
  }

  ghost function Next(s: State, l: Label): State
    requires CanStep(s, l)
  {
    match l
    case Begin(t, op) => Start(s, t, op)
    case Advance(t) => Continue(s, t)
  }

  // ---- Runs -------------------------------------------------------------------------------

  function Init(threads: set<Thread>): State {
    State(map[], [Entry([], 0)], {EMPTY}, None, map t | t in threads :: Idle, false)
  }

  ghost predicate Run(s: State, ls: seq<Label>)
    decreases |ls|
  {
    ls == [] || (CanStep(s, ls[0]) && Run(Next(s, ls[0]), ls[1..]))
  }

  ghost function After(s: State, ls: seq<Label>): State
    requires Run(s, ls)
    decreases |ls|
  {
    if ls == [] then s else After(Next(s, ls[0]), ls[1..])
  }

  lemma RunNothing(s: State)
    ensures Run(s, []) && After(s, []) == s
  {
  }

  lemma {:induction false} RunAppend(s: State, a: seq<Label>, b: seq<Label>)
    requires Run(s, a) && Run(After(s, a), b)
    ensures Run(s, a + b) && After(s, a + b) == After(After(s, a), b)
    decreases |a|
  {
    hide CanStep, Next;
    if a == [] {
      assert a + b == b;
    } else {
      assert (a + b)[0] == a[0] && (a + b)[1..] == a[1..] + b;
      RunAppend(Next(s, a[0]), a[1..], b);
    }
  }

  lemma RunStep(s: State, ls: seq<Label>, l: Label) returns (ls': seq<Label>)
    requires Run(s, ls) && CanStep(After(s, ls), l)
    ensures ls' == ls + [l] && Run(s, ls') && After(s, ls') == Next(After(s, ls), l)
  {
    hide CanStep, Next;
    ls' := ls + [l];
    var m := After(s, ls);
    assert Run(Next(m, l), []);
    assert Run(m, [l]) && After(m, [l]) == Next(m, l);
    RunAppend(s, ls, [l]);
  }
}
