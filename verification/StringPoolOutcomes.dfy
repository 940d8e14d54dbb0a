/** What each operation on a handle has done when it returns, in every interleaving, and that operations
    return. */
module StringPoolOutcomes {
  import opened Hash
  import opened Options
  import opened StringPool
  import opened StringPoolCounts
  import opened StringPoolLeaks

  // ---- What an operation is for ------------------------------------------------------------

  ghost predicate Copied(s0: State, s: State, h: Handle, src: Handle) {
    src in s0.refs && h in s.refs && src in s.refs && s.refs[h] == s0.refs[src] == s.refs[src]
  }

  ghost predicate Moved(s0: State, s: State, h: Handle, src: Handle) {
    && src in s0.refs && h in s.refs && src in s.refs
    && (if h == src then s.refs[h] == s0.refs[h] else s.refs[h] == s0.refs[src] && s.refs[src] == EMPTY)
  }

  /** What the operation, called in `s0`, leaves in its handles when it returns in `s`. */
  ghost predicate Outcome(op: Operation, s0: State, s: State) {
    match op
    case Construct(h) => h in s.refs && s.refs[h] == EMPTY
    case CopyConstruct(h, src) => Copied(s0, s, h, src)
    case MoveConstruct(h, src) => Moved(s0, s, h, src)
    case CopyAssign(h, src) => Copied(s0, s, h, src)
    case MoveAssign(h, src) => Moved(s0, s, h, src)
    case Reset(h) => h in s.refs && s.refs[h] == EMPTY
    case Destruct(h) => h !in s.refs
    case Set(h, text) => h in s.refs && s.refs[h] < |s.heap| && KeyEq(s.heap[s.refs[h]].text, text)
  }

  // ---- On the way ----------------------------------------------------------------------------

  /** The source of a copy or move still has the pointer it had when the operation was called. */
  ghost predicate Awaits(s0: State, s: State, h: Handle, src: Handle) {
    h != src && src in s0.refs && src in s.refs && s.refs[src] == s0.refs[src]
  }

  ghost predicate Keyed(s: State, x: Id, text: Str) {
    x < |s.heap| && KeyEq(s.heap[x].text, text)
  }

  /** Where the thread can stand in the middle of the operation, and what is true there. */
  ghost predicate Underway(op: Operation, t: Thread, s0: State, s: State) {
    t in s.pcs
    && var pc := s.pcs[t];
       match op
       case Construct(_) => false
       case MoveConstruct(_, _) => false
       case CopyConstruct(h, src) =>
         pc == Acquiring(h, src) && Awaits(s0, s, h, src) && h in s.refs && s.refs[h] == s0.refs[src]
       case CopyAssign(h, src) =>
         && Awaits(s0, s, h, src)
         && ((pc.Releasing? && pc.dst == h && pc.purpose == CopyFrom(src))
             || (pc == Acquiring(h, src) && h in s.refs && s.refs[h] == s0.refs[src]))
       case MoveAssign(h, src) => Awaits(s0, s, h, src) && pc.Releasing? && pc.dst == h && pc.purpose == MoveFrom(src)
       case Reset(h) => pc.Releasing? && pc.dst == h && pc.purpose == Clear
       case Destruct(h) => pc.Releasing? && pc.dst == h && pc.purpose == Destroy
       case Set(h, text) => pc.Assigning? && pc.dst == h && h in s.refs && SetUnderway(s, h, text, pc.step)
  }

  ghost predicate SetUnderway(s: State, h: Handle, text: Str, step: Setting) {
    match step
    case Waiting(wanted) => wanted == text
    case Inserting(wanted) => wanted == text
    case Comparing(x) => Keyed(s, x, text)
    case Replacing(x) => Keyed(s, x, text)
    case Discarding(_, x) => Keyed(s, x, text)
    case Storing(x) => Keyed(s, x, text)
    case Counting => h in s.refs && Keyed(s, s.refs[h], text)
    case Leaving => h in s.refs && Keyed(s, s.refs[h], text)
  }

  /** In the middle of the operation, or just returned: then nobody else is writing its handle. */
  ghost predicate Progress(op: Operation, t: Thread, s0: State, s: State) {
    t in s.pcs
    && if s.pcs[t].Idle? then Outcome(op, s0, s) && (op.Destruct? || Readable(s, op.h)) else Underway(op, t, s0, s)
  }

  lemma Begun(s0: State, t: Thread, op: Operation)
    requires Shape(s0) && Exclusive(s0) && CanBegin(s0, t, op)
    ensures Progress(op, t, s0, Start(s0, t, op))
  {
    if op.h !in s0.refs {
      UnusedHandle(s0, op.h);
      assert forall u :: u in s0.pcs ==> op.h !in s0.pcs[u].Writes();
    }
    hide Shape, Exclusive, KeyEq;
  }

  // ---- Steps of other threads ------------------------------------------------------------------

  /** No entry is forgotten and none changes its text. */
  ghost predicate TextsKept(s: State, s': State) {
    |s.heap| <= |s'.heap| && forall x: Id :: x < |s.heap| ==> s'.heap[x].text == s.heap[x].text
  }

  lemma ReleaseTexts(s: State, t: Thread)
    requires Shape(s) && CanAdvance(s, t) && !s.pcs[t].Assigning?
    ensures TextsKept(s, Continue(s, t))
  {
    assert PcShape(s, s.pcs[t]) && s.pcs[t].dst in s.pcs[t].Touches();
    hide Shape, KeyEq;
  }

  lemma SetTexts(s: State, t: Thread)
    requires Shape(s) && CanAdvance(s, t) && s.pcs[t].Assigning?
    ensures TextsKept(s, Continue(s, t))
  {
    assert PcShape(s, s.pcs[t]) && s.pcs[t].dst in s.pcs[t].Touches();
    hide Shape, KeyEq;
  }

  /** What each stage of `set_impl` does to the handles, and where it leads. */
  ghost predicate SetNext(s: State, s': State, t: Thread, d: Handle, step: Setting) {
    && t in s.pcs && t in s'.pcs && s'.pcs == s.pcs[t := s'.pcs[t]] && d in s.refs
    && (if step.Storing? then s'.refs == s.refs[d := step.e] else s'.refs == s.refs)
    && match step
       case Waiting(text) => s'.pcs[t] == Assigning(d, Inserting(text))
       case Inserting(_) => s'.pcs[t].Assigning? && s'.pcs[t].dst == d && s'.pcs[t].step.Comparing?
       case Comparing(x) => s'.pcs[t] == Assigning(d, if x == s.refs[d] then Leaving else Replacing(x))
       case Replacing(x) =>
         s'.pcs[t] == Assigning(d, Storing(x)) || s'.pcs[t] == Assigning(d, Discarding(s.refs[d], x))
       case Discarding(_, x) => s'.pcs[t] == Assigning(d, Storing(x))
       case Storing(_) => s'.pcs[t] == Assigning(d, Counting)
       case Counting => s'.pcs[t] == Assigning(d, Leaving)
       case Leaving => s'.pcs[t].Idle?
  }

  lemma SetNextQuiet(s: State, t: Thread, d: Handle, step: Setting)
    requires Shape(s) && CanAdvance(s, t) && s.pcs[t] == Assigning(d, step) && d in s.refs
    requires step.Waiting? || step.Comparing? || step.Storing? || step.Leaving?
    ensures SetNext(s, Continue(s, t), t, d, step)
  {
    hide Shape;
  }

  lemma SetNextErase(s: State, t: Thread, d: Handle, step: Setting)
    requires Shape(s) && CanAdvance(s, t) && s.pcs[t] == Assigning(d, step) && d in s.refs && step.Discarding?
    ensures SetNext(s, Continue(s, t), t, d, step)
  {
    assert PcShape(s, s.pcs[t]);
    hide Shape, Hit;
  }

  lemma SetNextCount(s: State, t: Thread, d: Handle, step: Setting)
    requires Shape(s) && CanAdvance(s, t) && s.pcs[t] == Assigning(d, step) && d in s.refs
    requires step.Replacing? || step.Counting?
    ensures SetNext(s, Continue(s, t), t, d, step)
  {
    assert s.refs[d] < |s.heap|;
    hide Shape;
  }

  lemma SetNextInsert(s: State, t: Thread, d: Handle, step: Setting)
    requires Shape(s) && CanAdvance(s, t) && s.pcs[t] == Assigning(d, step) && d in s.refs && step.Inserting?
    ensures SetNext(s, Continue(s, t), t, d, step)
  {
    var x := Inserted(s, t, d, step.text);
    hide Shape, Continue, Hit;
  }

  lemma SetNexts(s: State, t: Thread)
    requires Shape(s) && CanAdvance(s, t) && s.pcs[t].Assigning?
    ensures SetNext(s, Continue(s, t), t, s.pcs[t].dst, s.pcs[t].step)
  {
    assert PcShape(s, s.pcs[t]) && s.pcs[t].dst in s.pcs[t].Touches();
    var d, step := s.pcs[t].dst, s.pcs[t].step;
    hide Shape, Continue, CanAdvance, SetNext, Pc.Touches, PcShape;
    match step {
      case Inserting(_) => SetNextInsert(s, t, d, step);
      case Discarding(_, _) => SetNextErase(s, t, d, step);
      case Replacing(_) => SetNextCount(s, t, d, step);
      case Counting => SetNextCount(s, t, d, step);
      case _ => SetNextQuiet(s, t, d, step);
    }
  }

  /** A step in the middle of an operation writes only handles that are the thread's to write. */
  ghost predicate WritesOwn(s: State, s': State, t: Thread) {
    && t in s.pcs && t in s'.pcs && s'.pcs == s.pcs[t := s'.pcs[t]]
    && forall h :: h in s.refs && h !in s.pcs[t].Writes() ==> h in s'.refs && s'.refs[h] == s.refs[h]
  }

  lemma ReleaseWrites(s: State, t: Thread)
    requires Shape(s) && CanAdvance(s, t) && !s.pcs[t].Assigning? && !(s.pcs[t].Releasing? && s.pcs[t].at.Dropped?)
    ensures WritesOwn(s, Continue(s, t), t)
  {
    assert PcShape(s, s.pcs[t]);
    hide Shape, KeyEq, Hit, Pc.Writes;
  }

  lemma SetWrites(s: State, t: Thread)
    requires Shape(s) && CanAdvance(s, t) && s.pcs[t].Assigning?
    ensures WritesOwn(s, Continue(s, t), t)
  {
    SetNexts(s, t);
    hide Shape, Continue, CanAdvance;
  }

  lemma AdvanceWrites(s: State, t: Thread)
    requires Shape(s) && CanAdvance(s, t)
    ensures WritesOwn(s, Continue(s, t), t)
  {
    assert t in s.pcs && !s.pcs[t].Idle?;
    hide Shape, Continue, CanAdvance, Pc.Writes;
    if s.pcs[t].Assigning? {
      SetWrites(s, t);
    } else if s.pcs[t].Releasing? && s.pcs[t].at.Dropped? {
      DroppedMoves(s, t);
    } else {
      ReleaseWrites(s, t);
    }
  }

  lemma StepIsOwn(s: State, l: Label)
    requires Shape(s) && Exclusive(s) && CanStep(s, l)
    ensures
      var s' := Next(s, l);
      l.t in s'.pcs && OwnMove(s, s', l.t, s'.pcs[l.t]) && TextsKept(s, s')
  {
    match l {
      case Begin(t, op) =>
        StartMoves(s, t, op);
      case Advance(t) =>
        AdvanceWrites(s, t);
        if s.pcs[t].Assigning? {
          SetTexts(s, t);
        } else {
          ReleaseTexts(s, t);
        }
        hide Shape, Exclusive, Continue, OwnMove, TextsKept, CanAdvance, Pc.Writes;
        WritesOnlyOwn(s, Continue(s, t), t, Continue(s, t).pcs[t]);
    }
  }

  /** Other threads leave the operation where it is, with its handles and its entry. */
  lemma OtherStep(op: Operation, t: Thread, s0: State, s: State, s': State, u: Thread)
    requires Underway(op, t, s0, s) && u != t && u in s'.pcs && OwnMove(s, s', u, s'.pcs[u]) && TextsKept(s, s')
    ensures t in s'.pcs && s'.pcs[t] == s.pcs[t] && Underway(op, t, s0, s')
  {
    var pc := s.pcs[t];
    assert s'.pcs[t] == pc && pc.dst in pc.Touches();
    assert forall h :: h in pc.Touches() && h in s.refs ==> h in s'.refs && s'.refs[h] == s.refs[h];
    assert forall x: Id :: x < |s.heap| ==> s'.heap[x].text == s.heap[x].text;
    hide KeyEq;
  }

  // ---- Its own steps ---------------------------------------------------------------------------

  lemma ReleaseStep(op: Operation, t: Thread, s0: State, s: State)
    requires Shape(s) && Exclusive(s) && Underway(op, t, s0, s) && CanAdvance(s, t)
    requires s.pcs[t].Releasing? && !s.pcs[t].at.Dropped?
    ensures Progress(op, t, s0, Continue(s, t))
  {
    assert PcShape(s, s.pcs[t]) && s.pcs[t].dst in s.pcs[t].Touches();
    hide Shape, Exclusive, KeyEq, Hit;
  }

  /** When the thread comes to rest nobody else is writing the handle it wrote. */
  lemma RestsReadable(s: State, s': State, t: Thread, h: Handle)
    requires Exclusive(s) && t in s.pcs && h in s.pcs[t].Writes() && s'.pcs == s.pcs[t := Idle] && h in s'.refs
    ensures Readable(s', h)
  {
    forall u | u in s'.pcs ensures h !in s'.pcs[u].Writes() {
      assert u != t ==> h !in s.pcs[u].Touches();
    }
  }

  lemma DroppedStep(op: Operation, t: Thread, s0: State, s: State)
    requires Shape(s) && Exclusive(s) && Underway(op, t, s0, s) && CanAdvance(s, t)
    requires s.pcs[t].Releasing? && s.pcs[t].at.Dropped?
    ensures Progress(op, t, s0, Continue(s, t))
  {
    assert PcShape(s, s.pcs[t]) && s.pcs[t].dst in s.pcs[t].Writes() && s.pcs[t].dst in s.pcs[t].Touches();
    var s' := Continue(s, t);
    if s'.pcs[t].Idle? && op.h in s'.refs {
      assert s'.pcs == s.pcs[t := Idle];
      RestsReadable(s, s', t, op.h);
    }
    hide Shape, Exclusive, KeyEq, Hit, Readable;
  }

  lemma AcquireStep(op: Operation, t: Thread, s0: State, s: State)
    requires Shape(s) && Exclusive(s) && Underway(op, t, s0, s) && CanAdvance(s, t) && s.pcs[t].Acquiring?
    ensures Progress(op, t, s0, Continue(s, t))
  {
    assert PcShape(s, s.pcs[t]) && s.pcs[t].dst in s.pcs[t].Writes() && s.pcs[t].dst in s.pcs[t].Touches();
    var s' := Continue(s, t);
    assert s'.pcs == s.pcs[t := Idle];
    RestsReadable(s, s', t, op.h);
    hide Shape, Exclusive, KeyEq, Hit, Readable;
  }

  lemma InsertStep(t: Thread, h: Handle, text: Str, s: State)
    requires Shape(s) && t in s.pcs && s.pcs[t] == Assigning(h, Inserting(text)) && h in s.refs
    ensures
      var s' := Continue(s, t);
      && t in s'.pcs && s'.pcs[t].Assigning? && s'.pcs[t].dst == h && s'.pcs[t].step.Comparing?
      && h in s'.refs && Keyed(s', s'.pcs[t].step.e, text)
  {
    KeyEqEquivalence();
    var x := Inserted(s, t, h, text);
    hide KeyEq, Shape, Continue;
  }

  lemma KeyedKept(s: State, s': State, text: Str)
    requires TextsKept(s, s')
    ensures forall x: Id :: Keyed(s, x, text) ==> Keyed(s', x, text)
  {
    hide KeyEq;
  }

  lemma NextUnderway(s: State, s': State, t: Thread, h: Handle, text: Str, step: Setting)
    requires SetNext(s, s', t, h, step) && SetUnderway(s, h, text, step) && !step.Inserting? && !step.Leaving?
    requires forall x: Id :: Keyed(s, x, text) ==> Keyed(s', x, text)
    ensures s'.pcs[t].Assigning? && s'.pcs[t].dst == h && h in s'.refs && SetUnderway(s', h, text, s'.pcs[t].step)
  {
    hide Keyed;
  }

  /** The stages of `set_impl` that keep the entry found and move on. */
  lemma SetMoves(t: Thread, h: Handle, text: Str, s: State)
    requires Shape(s) && CanAdvance(s, t) && s.pcs[t].Assigning? && s.pcs[t].dst == h && h in s.refs
    requires SetUnderway(s, h, text, s.pcs[t].step) && !s.pcs[t].step.Inserting? && !s.pcs[t].step.Leaving?
    ensures
      var s' := Continue(s, t);
      && t in s'.pcs && s'.pcs[t].Assigning? && s'.pcs[t].dst == h && h in s'.refs
      && SetUnderway(s', h, text, s'.pcs[t].step)
  {
    assert t in s.pcs;
    hide *;
    var s' := Continue(s, t);
    SetNexts(s, t);
    SetTexts(s, t);
    KeyedKept(s, s', text);
    NextUnderway(s, s', t, h, text, s.pcs[t].step);
  }

  lemma SetReturns(t: Thread, h: Handle, text: Str, s: State)
    requires Exclusive(s) && Shape(s) && CanAdvance(s, t) && s.pcs[t] == Assigning(h, Leaving) && h in s.refs
    requires Keyed(s, s.refs[h], text)
    ensures
      var s' := Continue(s, t);
      && t in s'.pcs && s'.pcs[t].Idle? && Readable(s', h) && s'.refs == s.refs && s'.heap == s.heap
  {
    assert h in s.pcs[t].Writes();
    var s' := Continue(s, t);
    assert s'.pcs == s.pcs[t := Idle];
    hide Shape;
    RestsReadable(s, s', t, h);
  }

  lemma SetStep(t: Thread, h: Handle, text: Str, s0: State, s: State)
    requires Shape(s) && Exclusive(s) && Underway(Set(h, text), t, s0, s) && CanAdvance(s, t)
    requires !s.pcs[t].step.Inserting?
    ensures Progress(Set(h, text), t, s0, Continue(s, t))
  {
    hide Shape, Exclusive, Continue, CanAdvance, KeyEq;
    if s.pcs[t].step.Leaving? {
      SetReturns(t, h, text, s);
    } else {
      SetMoves(t, h, text, s);
    }
  }

  lemma OwnStep(op: Operation, t: Thread, s0: State, s: State)
    requires Shape(s) && Exclusive(s) && Underway(op, t, s0, s) && CanAdvance(s, t)
    ensures Progress(op, t, s0, Continue(s, t))
  {
    if s.pcs[t].Releasing? {
      hide Shape, Exclusive, Underway, Progress, Continue, CanAdvance;
      if s.pcs[t].at.Dropped? {
        DroppedStep(op, t, s0, s);
      } else {
        ReleaseStep(op, t, s0, s);
      }
    } else if s.pcs[t].Acquiring? {
      hide Shape, Exclusive, Underway, Progress, Continue, CanAdvance;
      AcquireStep(op, t, s0, s);
    } else {
      assert op.Set? && s.pcs[t].dst == op.h && op.h in s.refs;
      assert s.pcs[t].step.Inserting? ==> s.pcs[t] == Assigning(op.h, Inserting(op.text));
      hide Shape, Exclusive, Continue, CanAdvance;
      if s.pcs[t].step.Inserting? {
        InsertStep(t, op.h, op.text, s);
      } else {
        SetStep(t, op.h, op.text, s0, s);
      }
    }
  }

  // ---- Every interleaving ----------------------------------------------------------------------

  /** The thread is in the middle of its operation in every state of the run but perhaps the last. */
  ghost predicate BusyUntilEnd(s: State, t: Thread, ls: seq<Label>)
    requires Run(s, ls)
    decreases |ls|
  {
    ls == [] || (t in s.pcs && !s.pcs[t].Idle? && BusyUntilEnd(Next(s, ls[0]), t, ls[1..]))
  }

  lemma ProgressStep(op: Operation, t: Thread, s0: State, s: State, l: Label)
    requires Shape(s) && Exclusive(s) && CanStep(s, l) && Underway(op, t, s0, s) && !s.pcs[t].Idle?
    ensures Progress(op, t, s0, Next(s, l))
  {
    if l.t == t {
      assert l.Advance?;
      hide Shape, Exclusive, Underway, Progress, Continue;
      OwnStep(op, t, s0, s);
    } else {
      StepIsOwn(s, l);
      hide Shape, Exclusive, Underway, Next, CanStep, OwnMove, TextsKept;
      OtherStep(op, t, s0, s, Next(s, l), l.t);
    }
  }

  lemma {:induction false} RunProgress(op: Operation, t: Thread, s0: State, s: State, ls: seq<Label>)
    requires Shape(s) && Exclusive(s) && Progress(op, t, s0, s) && Run(s, ls) && BusyUntilEnd(s, t, ls)
    ensures Progress(op, t, s0, After(s, ls))
    decreases |ls|
  {
    if ls != [] {
      assert Underway(op, t, s0, s);
      hide Shape, Exclusive, Underway, Progress, CanStep, Next;
      ShapeStays(s, ls[0]);
      ProgressStep(op, t, s0, s, ls[0]);
      RunProgress(op, t, s0, Next(s, ls[0]), ls[1..]);
    }
  }

  /** Whatever all other threads do meanwhile, an operation has its outcome when it returns, and nobody is
      writing its handle then. */
  lemma {:induction false} OperationOutcome(s0: State, t: Thread, op: Operation, ls: seq<Label>)
    requires Shape(s0) && Exclusive(s0) && CanStep(s0, Begin(t, op))
    requires Run(Next(s0, Begin(t, op)), ls) && BusyUntilEnd(Next(s0, Begin(t, op)), t, ls)
    requires var s := After(Next(s0, Begin(t, op)), ls); t in s.pcs && s.pcs[t].Idle?
    ensures
      var s := After(Next(s0, Begin(t, op)), ls);
      Outcome(op, s0, s) && (op.Destruct? || Readable(s, op.h))
  {
    Begun(s0, t, op);
    ShapeStays(s0, Begin(t, op));
    hide Shape, Exclusive, Run, After, BusyUntilEnd, Start, CanBegin, Outcome, Readable;
    RunProgress(op, t, s0, Next(s0, Begin(t, op)), ls);
  }

  // ---- Operations return -----------------------------------------------------------------------

  /** How many steps of its own an operation can still take. */
  function Left(pc: Pc): nat {
    match pc
    case Idle => 0
    case Acquiring(_, _) => 1
    case Releasing(_, _, at) =>
      (match at
       case Dropping => 7
       case Awaiting(_) => 6
       case Rechecking(_) => 5
       case Erasing(_) => 4
       case Unlocking => 3
       case Dropped => 2)
    case Assigning(_, step) =>
      (match step
       case Waiting(_) => 8
       case Inserting(_) => 7
       case Comparing(_) => 6
       case Replacing(_) => 5
       case Discarding(_, _) => 4
       case Storing(_) => 3
       case Counting => 2
       case Leaving => 1)
  }

  lemma SetDescends(s: State, t: Thread)
    requires Shape(s) && CanAdvance(s, t) && s.pcs[t].Assigning?
    ensures t in Continue(s, t).pcs && Left(Continue(s, t).pcs[t]) < Left(s.pcs[t])
  {
    SetNexts(s, t);
    hide Shape, Continue, CanAdvance;
  }

  lemma ReleaseDescends(s: State, t: Thread)
    requires Shape(s) && CanAdvance(s, t) && s.pcs[t].Releasing?
    ensures t in Continue(s, t).pcs && Left(Continue(s, t).pcs[t]) < Left(s.pcs[t])
  {
    assert PcShape(s, s.pcs[t]) && s.pcs[t].dst in s.pcs[t].Touches();
    hide Shape, KeyEq, Hit, PcShape, Pc.Touches, EraseKey;
  }

  lemma AdvanceDescends(s: State, t: Thread)
    requires Shape(s) && CanAdvance(s, t)
    ensures t in Continue(s, t).pcs && Left(Continue(s, t).pcs[t]) < Left(s.pcs[t])
  {
    if s.pcs[t].Acquiring? {
      assert PcShape(s, s.pcs[t]) && s.pcs[t].dst in s.pcs[t].Touches();
    } else {
      hide Shape, Continue, Left;
      if s.pcs[t].Releasing? {
        ReleaseDescends(s, t);
      } else {
        SetDescends(s, t);
      }
    }
  }

  /** How often a thread takes a turn. */
  function Turns(ls: seq<Label>, t: Thread): nat {
    if ls == [] then 0 else (if ls[0].t == t then 1 else 0) + Turns(ls[1..], t)
  }

  lemma {:induction false} TurnsBounded(s: State, ls: seq<Label>, t: Thread)
    requires Shape(s) && Exclusive(s) && Run(s, ls) && t in s.pcs && forall k :: 0 <= k < |ls| ==> ls[k].Advance?
    ensures t in After(s, ls).pcs && Turns(ls, t) <= Left(s.pcs[t])
    decreases |ls|
  {
    if ls != [] {
      var l := ls[0];
      assert l.Advance? && CanStep(s, l);
      ShapeStays(s, l);
      StepIsOwn(s, l);
      if l.t == t {
        AdvanceDescends(s, t);
      }
      hide Shape, Exclusive, Continue, CanAdvance, Left, TextsKept;
      TurnsBounded(Next(s, l), ls[1..], t);
    }
  }

  /** Unless the process has halted, some operation in progress can go on: whoever holds the lock, or anyone
      if it is free. */
  lemma NobodyStuck(s: State, t: Thread)
    requires LockHeld(s) && t in s.pcs && !s.pcs[t].Idle?
    ensures exists u :: CanAdvance(s, u)
  {
    if s.lock.Some? {
      assert CanAdvance(s, s.lock.value);
    } else {
      assert CanAdvance(s, t);
    }
  }

  /** Every operation returns: left to themselves, the threads take boundedly many steps each, and when none
      can go on all are idle, unless the process has halted. */
  lemma {:induction false} OperationsReturn(s: State, ls: seq<Label>)
    requires Weak(s) && Run(s, ls) && forall k :: 0 <= k < |ls| ==> ls[k].Advance?
    ensures forall t :: t in s.pcs ==> Turns(ls, t) <= Left(s.pcs[t])
    ensures
      var end := After(s, ls);
      (forall l: Label :: l.Advance? ==> !CanStep(end, l)) && !end.halted ==>
        forall t :: t in end.pcs ==> end.pcs[t].Idle?
  {
    forall t | t in s.pcs ensures Turns(ls, t) <= Left(s.pcs[t]) {
      TurnsBounded(s, ls, t);
    }
    RunWeak(s, ls);
    var end := After(s, ls);
    hide Run, After;
    if !end.halted && exists t :: t in end.pcs && !end.pcs[t].Idle? {
      var t :| t in end.pcs && !end.pcs[t].Idle?;
      NobodyStuck(end, t);
      var u :| CanAdvance(end, u);
      assert CanStep(end, Advance(u));
    }
  }

  // ---- The texts of the pool -------------------------------------------------------------------

  /** The thread is on its way to enter this text. */
  ghost predicate Wants(pc: Pc, text: Str) {
    pc.Assigning? && (pc.step == Waiting(text) || pc.step == Inserting(text))
  }

  /** New entries have the text their thread wanted, and it wants nothing it did not want before. */
  ghost predicate Enters(s: State, s': State, t: Thread) {
    && t in s.pcs && t in s'.pcs && s'.pcs == s.pcs[t := s'.pcs[t]]
    && (forall x: Id :: |s.heap| <= x < |s'.heap| ==> Wants(s.pcs[t], s'.heap[x].text))
    && (forall text :: Wants(s'.pcs[t], text) ==> Wants(s.pcs[t], text))
  }

  lemma ReleaseHeap(s: State, t: Thread)
    requires Shape(s) && CanAdvance(s, t) && !s.pcs[t].Assigning?
    ensures |Continue(s, t).heap| == |s.heap| && t in Continue(s, t).pcs && !Continue(s, t).pcs[t].Assigning?
  {
    assert PcShape(s, s.pcs[t]) && s.pcs[t].dst in s.pcs[t].Touches();
    hide Shape, KeyEq, Hit;
  }

  lemma ReleaseEnters(s: State, t: Thread)
    requires Shape(s) && CanAdvance(s, t) && !s.pcs[t].Assigning?
    ensures Enters(s, Continue(s, t), t)
  {
    AdvanceWrites(s, t);
    ReleaseHeap(s, t);
    hide Shape, Continue, CanAdvance;
  }

  lemma InsertEnters(s: State, t: Thread)
    requires Shape(s) && CanAdvance(s, t) && s.pcs[t].Assigning? && s.pcs[t].step.Inserting?
    ensures Enters(s, Continue(s, t), t)
  {
    var x := Inserted(s, t, s.pcs[t].dst, s.pcs[t].step.text);
    hide Shape, Continue, Hit;
  }

  lemma SetEnters(s: State, t: Thread)
    requires Shape(s) && CanAdvance(s, t) && s.pcs[t].Assigning? && !s.pcs[t].step.Inserting?
    ensures Enters(s, Continue(s, t), t)
  {
    assert PcShape(s, s.pcs[t]) && s.pcs[t].dst in s.pcs[t].Touches();
    assert |Continue(s, t).heap| == |s.heap| by {
      hide Shape, Hit;
    }
    SetNexts(s, t);
    hide Shape, Continue, CanAdvance, Hit;
  }

  /** The text was given, byte for byte, to a `set` among these calls. */
  ghost predicate Given(ls: seq<Label>, text: Str) {
    exists l :: l in ls && l.Begin? && l.op.Set? && l.op.text == text
  }

  /** Every entry but the first `n`, and every text that a thread wants, was given to a `set`. */
  ghost predicate TextsGiven(s: State, n: nat, ls: seq<Label>) {
    && (forall x: Id :: n <= x < |s.heap| ==> Given(ls, s.heap[x].text))
    && (forall t, text :: t in s.pcs && Wants(s.pcs[t], text) ==> Given(ls, text))
  }

  lemma GivenMore(ls: seq<Label>, l: Label)
    ensures forall text :: Given(ls, text) ==> Given(ls + [l], text)
    ensures l.Begin? && l.op.Set? ==> Given(ls + [l], l.op.text)
  {
    assert l in ls + [l];
  }

  lemma EntersGiven(s: State, s': State, t: Thread, n: nat, ls: seq<Label>, ls': seq<Label>)
    requires TextsGiven(s, n, ls) && Enters(s, s', t) && TextsKept(s, s')
    requires forall text :: Given(ls, text) ==> Given(ls', text)
    ensures TextsGiven(s', n, ls')
  {
    hide Given;
  }

  lemma BeginGiven(s: State, t: Thread, op: Operation, n: nat, ls: seq<Label>)
    requires TextsGiven(s, n, ls) && CanBegin(s, t, op)
    ensures TextsGiven(Start(s, t, op), n, ls + [Begin(t, op)])
  {
    GivenMore(ls, Begin(t, op));
    var s' := Start(s, t, op);
    assert s'.heap == s.heap && forall u :: u in s'.pcs && u != t ==> u in s.pcs && s'.pcs[u] == s.pcs[u];
    assert forall text :: Wants(s'.pcs[t], text) ==> op.Set? && op.text == text;
    hide Given, Start, CanBegin;
  }

  lemma StepGiven(s: State, l: Label, n: nat, ls: seq<Label>)
    requires TextsGiven(s, n, ls) && CanStep(s, l)
    ensures TextsGiven(Next(s, l), n, ls + [l]) && TextsKept(s, Next(s, l))
  {
    hide Shape, Start, Continue, CanBegin, CanAdvance, TextsGiven, Enters, Given;
    match l {
      case Begin(t, op) =>
        BeginGiven(s, t, op, n, ls);
        StartTexts(s, t, op);
      case Advance(t) =>
        AdvanceEnters(s, t);
        GivenMore(ls, l);
        EntersGiven(s, Continue(s, t), t, n, ls, ls + [l]);
    }
  }

  lemma StartTexts(s: State, t: Thread, op: Operation)
    requires CanBegin(s, t, op)
    ensures TextsKept(s, Start(s, t, op))
  {
  }

  lemma AdvanceEnters(s: State, t: Thread)
    requires Shape(s) && CanAdvance(s, t)
    ensures Enters(s, Continue(s, t), t) && TextsKept(s, Continue(s, t))
  {
    hide Shape, Continue, TextsKept, Enters;
    if !s.pcs[t].Assigning? {
      ReleaseEnters(s, t);
      ReleaseTexts(s, t);
    } else {
      SetTexts(s, t);
      if s.pcs[t].step.Inserting? {
        InsertEnters(s, t);
      } else {
        SetEnters(s, t);
      }
    }
  }

  lemma {:induction false} RunGiven(s: State, ls: seq<Label>, n: nat, before: seq<Label>)
    requires TextsGiven(s, n, before) && Run(s, ls)
    ensures TextsGiven(After(s, ls), n, before + ls) && TextsKept(s, After(s, ls))
    decreases |ls|
  {
    if ls == [] {
      assert before + ls == before;
    } else {
      hide TextsGiven, CanStep, Next;
      StepGiven(s, ls[0], n, before);
      RunGiven(Next(s, ls[0]), ls[1..], n, before + [ls[0]]);
      assert before + [ls[0]] + ls[1..] == before + ls;
    }
  }

  /** The pool never makes up a text, and keeps the spelling of its first `set`: after any run from a fresh
      pool every entry but the permanent one has a text that was given to a `set`, byte for byte, and no text
      changes in a run from any state. */
  lemma {:induction false} TextsAreGiven(threads: set<Thread>, ls: seq<Label>, more: seq<Label>)
    requires Run(Init(threads), ls) && Run(After(Init(threads), ls), more)
    ensures
      var s := After(Init(threads), ls);
      && s.heap != [] && s.heap[0].text == []
      && (forall x: Id :: 0 < x < |s.heap| ==> Given(ls, s.heap[x].text))
      && |s.heap| <= |After(s, more).heap|
      && (forall x: Id :: x < |s.heap| ==> After(s, more).heap[x].text == s.heap[x].text)
  {
    assert TextsGiven(Init(threads), 1, []);
    hide CanStep, Next;
    RunGiven(Init(threads), ls, 1, []);
    assert [] + ls == ls;
    var s := After(Init(threads), ls);
    RunGiven(s, more, |s.heap|, ls);
  }
}
