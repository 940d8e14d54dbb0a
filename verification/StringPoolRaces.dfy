/** Runs that break the hypothesis of `StringPoolSafety`, and what they lead to. */
module StringPoolRaces {
  import opened Hash
  import opened Options
  import opened StringPool
  import opened StringPoolCounts
  import opened StringPoolLeaks
  import opened StringPoolSafety

  /** A pending releaser that runs alone erases by key whatever its entry's key now finds. */
  lemma LateRelease(s: State, t: Thread, e: Id) returns (ls: seq<Label>)
    requires Shape(s) && Exclusive(s) && !s.halted && s.lock == None && Zero(s, e)
    requires t in s.pcs && s.pcs[t].Releasing? && s.pcs[t].at == Awaiting(e)
    ensures Run(s, ls) && Exclusive(After(s, ls)) && Shape(After(s, ls))
    ensures After(s, ls)
         == Goto(EraseKey(s, s.heap[e].text), t, s.pcs[t].(at := Unlocking)).(lock := Some(t))
  {
    hide KeyEq, Shape, Exclusive, Run, After, PcShape;
    ls := [];
    assert Run(s, []) && After(s, []) == s by { RunNothing(s); }
    var l := Advance(t);
    ShapeStays(s, l);
    ls := RunStep(s, ls, l);
    var s1 := Next(s, l);
    ShapeStays(s1, l);
    ls := RunStep(s, ls, l);
    var s2 := Next(s1, l);
    ShapeStays(s2, l);
    ls := RunStep(s, ls, l);
  }

  /** Such a releaser up to giving the lock back. */
  lemma EraseAlone(s: State, t: Thread, e: Id) returns (ls: seq<Label>)
    requires Shape(s) && Exclusive(s) && !s.halted && s.lock == None && Zero(s, e)
    requires t in s.pcs && s.pcs[t].Releasing? && s.pcs[t].at == Awaiting(e)
    requires Hit(s.heap, s.pool, s.heap[e].text) != {}
    ensures Run(s, ls) && Exclusive(After(s, ls)) && Shape(After(s, ls))
    ensures After(s, ls)
         == s.(pool := s.pool - Hit(s.heap, s.pool, s.heap[e].text), pcs := s.pcs[t := s.pcs[t].(at := Dropped)])
  {
    hide Hit, Shape, Exclusive, Run, After;
    ls := LateRelease(s, t, e);
    var s1 := After(s, ls);
    var s2 := Continue(s1, t);
    ls := Tick(s, ls, s1, t, s2);
    assert s2.pcs == s.pcs[t := s.pcs[t].(at := Dropped)];
  }

  /** Two releasers pending on one uncounted entry: the second to take the lock finds nothing to
      erase and halts the process. */
  lemma SecondReleaserHalts(s: State, t: Thread, u: Thread, e: Id) returns (ls: seq<Label>)
    requires Shape(s) && Exclusive(s) && !s.halted && s.lock == None && Zero(s, e) && t != u
    requires t in s.pcs && s.pcs[t].Releasing? && s.pcs[t].at == Awaiting(e)
    requires u in s.pcs && s.pcs[u].Releasing? && s.pcs[u].at == Awaiting(e)
    ensures Run(s, ls) && After(s, ls).halted
  {
    hide KeyEq, Shape, Exclusive, Run, After;
    var hit := Hit(s.heap, s.pool, s.heap[e].text);
    if hit == {} {
      ls := LateRelease(s, t, e);
      return;
    }
    ls := EraseAlone(s, t, e);
    var s1 := After(s, ls);
    assert Hit(s1.heap, s1.pool, s.heap[e].text) == {};
    var more := LateRelease(s1, u, e);
    RunAppend(s, ls, more);
    ls := ls + more;
  }

  /** A releaser that is still pending after its entry was erased and re-inserted under a new
      identity erases the new entry from under the handle that owns it. */
  lemma {:induction false} LateReleaserUnseats(s: State, u: Thread, e: Id, h: Handle) returns (ls: seq<Label>)
    requires Shape(s) && Exclusive(s) && !s.halted && s.lock == None && Zero(s, e)
    requires u in s.pcs && s.pcs[u].Releasing? && s.pcs[u].at == Awaiting(e)
    requires AtRest(s, h) && s.refs[h] in s.pool && KeyEq(s.heap[s.refs[h]].text, s.heap[e].text)
    ensures Run(s, ls) && AtRest(After(s, ls), h)
    ensures After(s, ls).refs[h] == s.refs[h] && s.refs[h] !in After(s, ls).pool
  {
    hide KeyEq, Run, After, PcShape;
    ls := LateRelease(s, u, e);
    assert s.refs[h] in Hit(s.heap, s.pool, s.heap[e].text);
  }

  /** One more step of a run, to a named state. */
  lemma Tick(s0: State, ls: seq<Label>, s: State, t: Thread, s': State) returns (ls': seq<Label>)
    requires Run(s0, ls) && After(s0, ls) == s && !s.halted && Shape(s) && Exclusive(s)
    requires CanAdvance(s, t) && Continue(s, t) == s'
    ensures ls' == ls + [Advance(t)] && Run(s0, ls') && After(s0, ls') == s' && Shape(s') && Exclusive(s')
  {
    hide Shape, Exclusive, Continue, CanAdvance, Run, After;
    ShapeStays(s, Advance(t));
    ls' := RunStep(s0, ls, Advance(t));
  }

  /** `set_impl` up to the entry it found or inserted. */
  lemma FindAlone(s: State, t: Thread, h: Handle, text: Str) returns (ls: seq<Label>, s': State, x: Id)
    requires Shape(s) && Exclusive(s) && !s.halted && s.lock == None
    requires t in s.pcs && s.pcs[t].Idle? && Writable(s, h)
    ensures Run(s, ls) && After(s, ls) == s' && Shape(s') && Exclusive(s') && !s'.halted
    ensures s'.refs == s.refs && s'.lock == Some(t) && s'.pcs == s.pcs[t := Assigning(h, Comparing(x))]
    ensures
      var hit := Hit(s.heap, s.pool, text);
      if hit == {} then x == |s.heap| && s'.heap == s.heap + [Entry(text, 0)] && s'.pool == s.pool + {x}
      else x in hit && s'.heap == s.heap && s'.pool == s.pool
  {
    hide Shape, Exclusive, Run, After, Hit;
    var l := Begin(t, Set(h, text));
    ShapeStays(s, l);
    RunNothing(s);
    ls := RunStep(s, [], l);
    var s1 := Goto(s, t, Assigning(h, Waiting(text)));
    hide Writable, Readable;
    var s2 := Goto(s1, t, Assigning(h, Inserting(text))).(lock := Some(t));
    ls := Tick(s, ls, s1, t, s2);
    hide Continue;
    s' := Continue(s2, t);
    x := Inserted(s2, t, h, text);
    ls := Tick(s, ls, s2, t, s');
  }

  /** `set_impl` from there on, on a handle of the empty string. */
  lemma AssignAlone(s: State, t: Thread, h: Handle, x: Id) returns (ls: seq<Label>)
    requires Shape(s) && Exclusive(s) && !s.halted && s.lock == Some(t) && x != EMPTY && x < |s.heap|
    requires t in s.pcs && s.pcs[t] == Assigning(h, Comparing(x)) && h in s.refs && s.refs[h] == EMPTY
    ensures Run(s, ls) && Shape(After(s, ls)) && Exclusive(After(s, ls))
    ensures After(s, ls)
         == s.(refs := s.refs[h := x], heap := Bump(s.heap, x, 1), pcs := s.pcs[t := Idle], lock := None)
  {
    hide Shape, Exclusive, Run, After;
    RunNothing(s);
    var s1 := Goto(s, t, Assigning(h, Replacing(x)));
    ls := Tick(s, [], s, t, s1);
    var s2 := Goto(s1, t, Assigning(h, Storing(x)));
    ls := Tick(s, ls, s1, t, s2);
    var s3 := Goto(s2.(refs := s.refs[h := x]), t, Assigning(h, Counting));
    ls := Tick(s, ls, s2, t, s3);
    var s4 := Goto(AddCount(s3, x, 1), t, Assigning(h, Leaving));
    ls := Tick(s, ls, s3, t, s4);
    var s5 := Goto(s4, t, Idle).(lock := None);
    ls := Tick(s, ls, s4, t, s5);
    assert s5.pcs == s.pcs[t := Idle];
  }

  lemma EmptyIsNoHit(s: State, text: Str)
    requires Shape(s) && text != [] && s.heap[EMPTY].text == []
    ensures EMPTY !in Hit(s.heap, s.pool, text)
    ensures forall x :: x in Hit(s.heap, s.pool, text) ==> x < |s.heap|
  {
  }

  /** Both halves of `set_impl` together. */
  lemma SetOutcome(s: State, m: State, t: Thread, h: Handle, text: Str, x: Id)
    requires Shape(s) && t in s.pcs && s.pcs[t].Idle? && !s.halted && s.lock == None && !m.halted
    requires m.refs == s.refs && m.pcs == s.pcs[t := Assigning(h, Comparing(x))]
    requires
      var hit := Hit(s.heap, s.pool, text);
      if hit == {} then x == |s.heap| && m.heap == s.heap + [Entry(text, 0)] && m.pool == s.pool + {x}
      else x in hit && m.heap == s.heap && m.pool == s.pool
    ensures
      var hit := Hit(s.heap, s.pool, text);
      var heap := if hit == {} then s.heap + [Entry(text, 0)] else s.heap;
      && x < |heap| && x < |m.heap|
      && m.(refs := m.refs[h := x], heap := Bump(m.heap, x, 1), pcs := m.pcs[t := Idle], lock := None)
         == s.(refs := s.refs[h := x], heap := Bump(heap, x, 1), pool := if hit == {} then s.pool + {x} else s.pool)
  {
    hide Shape, KeyEq;
    assert m.pcs[t := Idle] == s.pcs;
  }

  /** `set_impl` of a non-empty string on a handle of the empty string, run alone: the handle
      comes to own the one entry with an equal key. */
  lemma {:induction false} SetAlone(s: State, t: Thread, h: Handle, text: Str) returns (ls: seq<Label>, x: Id)
    requires Shape(s) && Exclusive(s) && !s.halted && s.lock == None
    requires t in s.pcs && s.pcs[t].Idle? && Writable(s, h) && s.refs[h] == EMPTY
    requires text != [] && s.heap[EMPTY].text == []
    ensures Run(s, ls) && Shape(After(s, ls)) && Exclusive(After(s, ls))
    ensures
      var hit := Hit(s.heap, s.pool, text);
      var heap := if hit == {} then s.heap + [Entry(text, 0)] else s.heap;
      && x < |heap| && x != EMPTY && (if hit == {} then x == |s.heap| else x in hit)
      && After(s, ls) == s.(refs := s.refs[h := x], heap := Bump(heap, x, 1),
                            pool := if hit == {} then s.pool + {x} else s.pool)
  {
    EmptyIsNoHit(s, text);
    hide KeyEq, Exclusive, Run, After, Hit, Shape;
    var m: State;
    ls, m, x := FindAlone(s, t, h, text);
    var more := AssignAlone(m, t, h, x);
    RunAppend(s, ls, more);
    ls := ls + more;
    SetOutcome(s, m, t, h, text, x);
  }

  /** `clear` by the last owner, up to the moment it wants the lock. */
  lemma DropAlone(s: State, t: Thread, h: Handle, e: Id) returns (ls: seq<Label>)
    requires Shape(s) && Exclusive(s) && !s.halted
    requires t in s.pcs && s.pcs[t].Idle? && Writable(s, h)
    requires s.refs[h] == e && e != EMPTY && s.heap[e].count == 1
    ensures Run(s, ls) && Shape(After(s, ls)) && Exclusive(After(s, ls))
    ensures After(s, ls)
         == s.(heap := Bump(s.heap, e, -1), pcs := s.pcs[t := Releasing(h, Clear, Awaiting(e))])
  {
    hide Exclusive, Run, After;
    var l := Begin(t, Reset(h));
    ShapeStays(s, l);
    RunNothing(s);
    ls := RunStep(s, [], l);
    var s1 := Goto(s, t, Releasing(h, Clear, Dropping));
    var s2 := Goto(AddCount(s1, e, -1), t, Releasing(h, Clear, Awaiting(e)));
    hide Shape;
    ls := Tick(s, ls, s1, t, s2);
    assert s2.pcs == s.pcs[t := Releasing(h, Clear, Awaiting(e))];
  }

  /** A new handle that takes a string, found uncounted or inserted. */
  lemma TakeAlone(s: State, t: Thread, h: Handle, text: Str, e: Id) returns (ls: seq<Label>, x: Id)
    requires Shape(s) && Exclusive(s) && !s.halted && s.lock == None
    requires t in s.pcs && s.pcs[t].Idle? && h !in s.refs && s.heap[EMPTY].text == []
    requires text != [] && Hit(s.heap, s.pool, text) <= {e}
    ensures Run(s, ls) && Shape(After(s, ls)) && Exclusive(After(s, ls))
    ensures
      var hit := Hit(s.heap, s.pool, text);
      var heap := if hit == {} then s.heap + [Entry(text, 0)] else s.heap;
      && x == (if hit == {} then |s.heap| else e) && x != EMPTY && x < |heap|
      && After(s, ls) == s.(refs := s.refs[h := x], heap := Bump(heap, x, 1),
                            pool := if hit == {} then s.pool + {x} else s.pool)
      && Writable(After(s, ls), h)
  {
    hide Exclusive, Run, After, Hit, KeyEq;
    UnusedHandle(s, h);
    var l := Begin(t, Construct(h));
    ShapeStays(s, l);
    RunNothing(s);
    ls := RunStep(s, [], l);
    var s1 := s.(refs := s.refs[h := EMPTY]);
    assert Writable(s1, h);
    hide Shape, Readable, CanBegin;
    var more: seq<Label>;
    more, x := SetAlone(s1, t, h, text);
    RunAppend(s, ls, more);
    ls := ls + more;
    assert s1.refs[h := x] == s.refs[h := x];
  }

  /** The same handle giving the string up again while nobody else owns it. */
  lemma TakeAndDrop(s: State, t: Thread, h: Handle, e: Id) returns (ls: seq<Label>, x: Id)
    requires Shape(s) && Exclusive(s) && !s.halted && s.lock == None
    requires t in s.pcs && s.pcs[t].Idle? && h !in s.refs && s.heap[EMPTY].text == []
    requires Hit(s.heap, s.pool, [65]) <= {e} && (Hit(s.heap, s.pool, [65]) == {e} ==> Zero(s, e))
    ensures Run(s, ls) && Shape(After(s, ls)) && Exclusive(After(s, ls))
    ensures
      var hit := Hit(s.heap, s.pool, [65]);
      && x == (if hit == {} then |s.heap| else e) && x != EMPTY
      && After(s, ls) == s.(refs := s.refs[h := x], pcs := s.pcs[t := Releasing(h, Clear, Awaiting(x))],
                            heap := if hit == {} then s.heap + [Entry([65], 0)] else s.heap,
                            pool := if hit == {} then s.pool + {x} else s.pool)
      && Zero(After(s, ls), x)
  {
    hide Exclusive, Run, After, Hit, KeyEq, Shape, Writable;
    ls, x := TakeAlone(s, t, h, [65], e);
    var m := After(s, ls);
    var more := DropAlone(m, t, h, x);
    RunAppend(s, ls, more);
    ls := ls + more;
    assert After(m, more).heap == if Hit(s.heap, s.pool, [65]) == {} then s.heap + [Entry([65], 0)] else s.heap;
  }

  lemma OneLetter(heap: seq<Entry>, pool: set<Id>)
    requires |heap| >= 1 && heap[0].text == [] && forall i :: 1 <= i < |heap| ==> heap[i].text == [65]
    requires forall x :: x in pool ==> x < |heap|
    ensures Hit(heap, pool, [65]) == pool - {0}
  {
    hide KeyEq;
    OneLetterKey();
  }

  lemma OneLetterKey()
    ensures KeyEq([65], [65]) && !KeyEq([], [65])
  {
    hide HashOf, CFold;
  }

  /** Two threads that drop the same string, the second after reviving the first one's entry. */
  lemma BothPending(threads: set<Thread>, a: Thread, b: Thread) returns (ls: seq<Label>)
    requires a in threads && b in threads && a != b
    ensures Run(Init(threads), ls) && Shape(After(Init(threads), ls)) && Exclusive(After(Init(threads), ls))
    ensures After(Init(threads), ls) == RevivedTwice(threads, a, b)
  {
    var s := Init(threads);
    OneLetter(s.heap, s.pool);
    assert Exclusive(s) && Shape(s);
    hide KeyEq, Exclusive, Run, After, Hit, Shape;
    var x: Id;
    ls, x := TakeAndDrop(s, a, 0, 1);
    var s1 := After(s, ls);
    OneLetter(s1.heap, s1.pool);
    var more: seq<Label>;
    more, x := TakeAndDrop(s1, b, 1, 1);
    RunAppend(s, ls, more);
    ls := ls + more;
  }

  ghost function RevivedTwice(threads: set<Thread>, a: Thread, b: Thread): State {
    var s := Init(threads);
    s.(refs := s.refs[0 := 1][1 := 1], heap := s.heap + [Entry([65], 0)], pool := s.pool + {1},
       pcs := s.pcs[a := Releasing(0, Clear, Awaiting(1))][b := Releasing(1, Clear, Awaiting(1))])
  }

  /** The hypothesis is needed: such a pair of threads can halt the process. */
  lemma HypothesisIsNeeded(threads: set<Thread>, a: Thread, b: Thread) returns (ls: seq<Label>)
    requires a in threads && b in threads && a != b
    ensures Run(Init(threads), ls) && After(Init(threads), ls).halted
  {
    hide Exclusive, Run, After, Shape;
    ls := BothPending(threads, a, b);
    var s := After(Init(threads), ls);
    var more := SecondReleaserHalts(s, a, b, 1);
    RunAppend(Init(threads), ls, more);
    ls := ls + more;
  }
}
