/** The blocking queue and the worker pool on top of it, as a step system.

    Pump threads, client threads and the one thread that calls `Start` and `Stop` are program
    counters over the queue's mutex and condition variable. A state ranges over every interleaving,
    including spurious wake-ups. `log`, `done` and `began` are history: every item ever queued, the
    tasks processed in order, and how much had been queued when the current `Stop` began. */
module WorkerPool {
  import opened Counting
  import opened Options

  /** A task is identified by its position in the order of insertion into the queue. */
  datatype Item = Work(id: nat) | Marker

  /** A thread in `Pump` and in the `pop` it calls. */
  datatype Pump =
    | Arriving              // wants the queue's mutex
    | Testing               // holds it: about to test for emptiness
    | Blocked               // waiting on the condition variable
    | Woken                 // wants the mutex back
    | Taking                // holds it and found the queue non-empty
    | Leaving(item: Item)   // holds it, item moved out
    | Got(item: Item)       // mutex released: about to look at `m_stop`
    | Processing(id: nat)
    | Exited
  {
    predicate Holds() { Testing? || Taking? || Leaving? }

    /** 1 for a consumer that was woken, or holds the mutex, and has not taken its item yet. */
    function Awake(): nat { if Woken? || Testing? || Taking? then 1 else 0 }

    function Live(): nat { if Exited? then 0 else 1 }

    predicate Carries(i: Item) { (Leaving? || Got?) && item == i }

    predicate CarriesWork(n: nat) { Carries(Work(n)) || (Processing? && id == n) }

    function Markers(): nat { if Carries(Marker) then 1 else 0 }

    /** How many steps the thread may still take by itself before it blocks, roughly. */
    function Weight(): nat {
      match this
      case Blocked => 0
      case Exited => 0
      case Taking => 1
      case Testing => 2
      case Woken => 3
      case Arriving => 3
      case Processing(_) => 4
      case Got(_) => 5
      case Leaving(_) => 6
    }
  }

  /** A thread in `push`. */
  datatype Push =
    | Locking     // wants the mutex
    | Inside      // holds it: about to insert
    | Unlocking   // holds it, item inserted
    | Notifying   // mutex released: about to notify one
  {
    predicate Holds() { Inside? || Unlocking? }

    /** 1 while an inserted item still has its notification to come. */
    function Pending(): nat { if Unlocking? || Notifying? then 1 else 0 }

    function Weight(): nat {
      match this
      case Locking => 13
      case Inside => 12
      case Unlocking => 5
      case Notifying => 4
    }
  }

  datatype Client = Resting | Pushing(at: Push)
  {
    predicate Holds() { Pushing? && at.Holds() }

    function Pending(): nat { if Pushing? then at.Pending() else 0 }

    function Weight(): nat { if Pushing? then at.Weight() else 0 }
  }

  /** The thread that calls `Start` and `Stop`. */
  datatype Control =
    | Ready
    | Starting(left: nat)
    | Stopping(sent: nat, at: Push)   // pushing marker number `sent`
    | Joining(joined: nat)

  datatype Who = APump(i: nat) | AClient(c: nat) | TheControl

  datatype State = State(
    queue: seq<Item>,
    mutex: Option<Who>,
    pumps: seq<Pump>,
    clients: seq<Client>,
    control: Control,
    log: seq<Item>,
    done: seq<nat>,
    began: nat)
  {
    /** How many items have been taken out so far. */
    function Taken(): int { |log| - |queue| }
  }

  datatype Label =
    | PumpStep(i: nat)
    | Spurious(i: nat)
    | Submit(c: nat)
    | ClientStep(c: nat, wake: nat)
    | ControlStep(wake: nat)
    | CallStart(n: nat)
    | CallStop

  // ---- Steps -------------------------------------------------------------------------------

  predicate Lockable(s: State) { s.mutex == None }

  ghost predicate AnyBlocked(s: State) { exists i: nat :: i < |s.pumps| && s.pumps[i].Blocked? }

  /** `notify_one` wakes one waiting consumer, any one, if there is one. */
  ghost predicate MayWake(s: State, wake: nat) {
    AnyBlocked(s) ==> wake < |s.pumps| && s.pumps[wake].Blocked?
  }

  ghost predicate CanPush(s: State, at: Push, wake: nat) {
    match at
    case Locking => Lockable(s)
    case Notifying => MayWake(s, wake)
    case _ => true
  }

  ghost predicate CanPump(s: State, i: nat) {
    i < |s.pumps|
    && match s.pumps[i]
       case Arriving => Lockable(s)
       case Woken => Lockable(s)
       case Blocked => false
       case Exited => false
       case Taking => s.queue != []
       case _ => true
  }

  ghost predicate CanStep(s: State, l: Label) {
    match l
    case PumpStep(i) => CanPump(s, i)
    case Spurious(i) => i < |s.pumps| && s.pumps[i].Blocked?
    case Submit(c) => c < |s.clients| && s.clients[c].Resting?
    case ClientStep(c, wake) => c < |s.clients| && s.clients[c].Pushing? && CanPush(s, s.clients[c].at, wake)
    case ControlStep(wake) =>
      (match s.control
       case Ready => false
       case Starting(left) => true
       case Stopping(_, at) => CanPush(s, at, wake)
       case Joining(j) => j < |s.pumps| ==> s.pumps[j].Exited?)
    case CallStart(n) => s.control.Ready? && n > 0
    case CallStop => s.control.Ready?
  }

  ghost function PumpNext(s: State, i: nat): State
    requires CanPump(s, i)
  {
    match s.pumps[i]
    case Arriving => s.(mutex := Some(APump(i)), pumps := s.pumps[i := Testing])
    case Woken => s.(mutex := Some(APump(i)), pumps := s.pumps[i := Testing])
    case Testing =>
      if s.queue == [] then s.(mutex := None, pumps := s.pumps[i := Blocked])
      else s.(pumps := s.pumps[i := Taking])
    case Taking => s.(queue := s.queue[1..], pumps := s.pumps[i := Leaving(s.queue[0])])
    case Leaving(item) => s.(mutex := None, pumps := s.pumps[i := Got(item)])
    case Got(Marker) => s.(pumps := s.pumps[i := Exited])
    case Got(Work(n)) => s.(pumps := s.pumps[i := Processing(n)])
    case Processing(n) => s.(done := s.done + [n], pumps := s.pumps[i := Arriving])
  }

  /** The effect of one step of `push` on everything but the pushing thread itself. */
  ghost function PushEffect(s: State, at: Push, who: Who, item: Item, wake: nat): State
    requires CanPush(s, at, wake)
  {
    match at
    case Locking => s.(mutex := Some(who))
    case Inside => s.(queue := s.queue + [item], log := s.log + [item])
    case Unlocking => s.(mutex := None)
    case Notifying => if AnyBlocked(s) then s.(pumps := s.pumps[wake := Woken]) else s
  }

  function After(at: Push): Push
    requires !at.Notifying?
  {
    match at
    case Locking => Inside
    case Inside => Unlocking
    case Unlocking => Notifying
  }

  ghost function ClientNext(s: State, c: nat, wake: nat): State
    requires c < |s.clients| && s.clients[c].Pushing? && CanPush(s, s.clients[c].at, wake)
  {
    var at := s.clients[c].at;
    var s1 := PushEffect(s, at, AClient(c), Work(|s.log|), wake);
    s1.(clients := s.clients[c := if at.Notifying? then Resting else Pushing(After(at))])
  }

  ghost function ControlNext(s: State, wake: nat): State
    requires CanStep(s, ControlStep(wake))
  {
    match s.control
    case Starting(left) =>
      if left == 0 then s.(control := Ready)
      else s.(pumps := s.pumps + [Arriving], control := Starting(left - 1))
    case Stopping(sent, at) =>
      var s1 := PushEffect(s, at, TheControl, Marker, wake);
      if !at.Notifying? then s1.(control := Stopping(sent, After(at)))
      else if sent + 1 < |s.pumps| then s1.(control := Stopping(sent + 1, Locking))
      else s1.(control := Joining(0))
    case Joining(j) =>
      if j < |s.pumps| then s.(control := Joining(j + 1))
      else s.(pumps := [], control := Ready)
  }

  ghost function Next(s: State, l: Label): State
    requires CanStep(s, l)
  {
    match l
    case PumpStep(i) => PumpNext(s, i)
    case Spurious(i) => s.(pumps := s.pumps[i := Woken])
    case Submit(c) => s.(clients := s.clients[c := Pushing(Locking)])
    case ClientStep(c, wake) => ClientNext(s, c, wake)
    case ControlStep(wake) => ControlNext(s, wake)
    case CallStart(n) => s.(control := Starting(n))
    case CallStop =>
      s.(began := |s.log|, control := if s.pumps == [] then Joining(0) else Stopping(0, Locking))
  }

  // ---- What is counted ---------------------------------------------------------------------

  const AWAKE: Pump -> nat := (p: Pump) => p.Awake()
  const LIVE: Pump -> nat := (p: Pump) => p.Live()
  const HELD: Pump -> nat := (p: Pump) => p.Markers()
  const PUMP_WEIGHT: Pump -> nat := (p: Pump) => p.Weight()
  const PENDING: Client -> nat := (c: Client) => c.Pending()
  const CLIENT_WEIGHT: Client -> nat := (c: Client) => c.Weight()
  const MARKERS: Item -> nat := (i: Item) => if i.Marker? then 1 else 0

  // ---- The invariant -----------------------------------------------------------------------

  ghost predicate ControlHolds(c: Control) { c.Stopping? && c.at.Holds() }

  function ControlPending(c: Control): nat { if c.Stopping? then c.at.Pending() else 0 }

  ghost predicate MutexOk(s: State) {
    && (forall i: nat :: i < |s.pumps| ==> (s.pumps[i].Holds() <==> s.mutex == Some(APump(i))))
    && (forall c: nat :: c < |s.clients| ==> (s.clients[c].Holds() <==> s.mutex == Some(AClient(c))))
    && (ControlHolds(s.control) <==> s.mutex == Some(TheControl))
    && (s.mutex.Some? && s.mutex.value.APump? ==> s.mutex.value.i < |s.pumps|)
    && (s.mutex.Some? && s.mutex.value.AClient? ==> s.mutex.value.c < |s.clients|)
  }

  /** First in, first out: the queue is what has been inserted and not yet taken. */
  ghost predicate Fifo(s: State) {
    && |s.queue| <= |s.log| && s.queue == s.log[s.Taken()..]
    && (forall k: nat :: k < |s.log| && s.log[k].Work? ==> s.log[k].id == k)
  }

  /** A task that was taken out is processed, or carried by exactly one pump, and not both. */
  ghost predicate Conserved(s: State) {
    && (forall n: nat :: n < s.Taken() && n < |s.log| && s.log[n].Work? ==>
          n in s.done || exists i: nat :: i < |s.pumps| && s.pumps[i].CarriesWork(n))
    && (forall i: nat, n: nat {:trigger s.pumps[i].CarriesWork(n)} :: i < |s.pumps| && s.pumps[i].CarriesWork(n) ==>
          n < s.Taken() && n < |s.log| && s.log[n].Work? && n !in s.done)
    && (forall i: nat, j: nat, n: nat ::
          i < |s.pumps| && j < |s.pumps| && s.pumps[i].CarriesWork(n) && s.pumps[j].CarriesWork(n) ==> i == j)
  }

  ghost predicate DoneOnce(s: State) {
    && (forall a, b :: 0 <= a < b < |s.done| ==> s.done[a] != s.done[b])
    && (forall n :: n in s.done ==> n < s.Taken() && n < |s.log| && s.log[n] == Work(n))
  }

  /** With a consumer asleep, every queued item is matched by a notification still to come or by a
      consumer that is awake and has not taken its item yet. */
  ghost predicate NoneForgotten(s: State) {
    && (AnyBlocked(s) ==> |s.queue| <= Sum(PENDING, s.clients) + ControlPending(s.control) + Sum(AWAKE, s.pumps))
    && (forall i: nat :: i < |s.pumps| && s.pumps[i].Taking? ==> s.queue != [])
  }

  /** Markers still to be queued. */
  function Unsent(s: State): int {
    match s.control
    case Stopping(sent, at) => |s.pumps| - sent - at.Pending()
    case _ => 0
  }

  /** One marker per live pump: to be queued, queued, or in a pump's hands. */
  ghost predicate MarkersMatch(s: State) {
    match s.control
    case Ready => NoMarkers(s)
    case Starting(_) => NoMarkers(s)
    case Stopping(sent, _) => sent < |s.pumps| && MarkersBalance(s)
    case Joining(j) => j <= |s.pumps| && MarkersBalance(s) && forall i: nat :: i < j ==> s.pumps[i].Exited?
  }

  ghost predicate NoMarkers(s: State) {
    Sum(MARKERS, s.queue) == 0 && Sum(HELD, s.pumps) == 0 && forall i: nat :: i < |s.pumps| ==> !s.pumps[i].Exited?
  }

  ghost predicate MarkersBalance(s: State) {
    Unsent(s) + Sum(MARKERS, s.queue) + Sum(HELD, s.pumps) == Sum(LIVE, s.pumps)
  }

  /** While stopping, every marker comes after everything that was queued before `Stop` began. */
  ghost predicate MarkersLast(s: State) {
    s.control.Stopping? || s.control.Joining? ==>
      && s.began <= |s.log|
      && (forall k: nat :: s.Taken() <= k < |s.log| && s.log[k].Marker? ==> k >= s.began)
      && (forall i: nat :: i < |s.pumps| && (s.pumps[i].Exited? || s.pumps[i].Carries(Marker)) ==> s.Taken() > s.began)
  }

  ghost predicate Inv(s: State) {
    && MutexOk(s) && Fifo(s) && Conserved(s) && DoneOnce(s)
    && NoneForgotten(s) && MarkersMatch(s) && MarkersLast(s)
  }

  // ---- Pump steps --------------------------------------------------------------------------

  lemma PumpSums(s: State, i: nat, p: Pump)
    requires i < |s.pumps|
    ensures Sum(AWAKE, s.pumps[i := p]) == Sum(AWAKE, s.pumps) - s.pumps[i].Awake() + p.Awake()
    ensures Sum(LIVE, s.pumps[i := p]) == Sum(LIVE, s.pumps) - s.pumps[i].Live() + p.Live()
    ensures Sum(HELD, s.pumps[i := p]) == Sum(HELD, s.pumps) - s.pumps[i].Markers() + p.Markers()
  {
    SumUpdate(AWAKE, s.pumps, i, p);
    SumUpdate(LIVE, s.pumps, i, p);
    SumUpdate(HELD, s.pumps, i, p);
  }

  /** The pump's hands do not change. */
  lemma ConservedSame(s: State, s': State, i: nat, p: Pump)
    requires Conserved(s) && DoneOnce(s) && i < |s.pumps| && s'.pumps == s.pumps[i := p]
    requires s'.log == s.log && |s'.queue| == |s.queue| && s'.done == s.done
    requires forall n: nat :: p.CarriesWork(n) <==> s.pumps[i].CarriesWork(n)
    ensures Conserved(s') && DoneOnce(s')
  {
    hide Pump.CarriesWork;
    Conserves(s, s');
  }

  /** Restates `Conserved` for a state whose pumps carry the same tasks. */
  lemma Conserves(s: State, s': State)
    requires Conserved(s) && DoneOnce(s) && |s'.pumps| == |s.pumps|
    requires s'.log == s.log && |s'.queue| == |s.queue| && s'.done == s.done
    requires forall j: nat, n: nat :: j < |s.pumps| ==> (s'.pumps[j].CarriesWork(n) <==> s.pumps[j].CarriesWork(n))
    ensures Conserved(s') && DoneOnce(s')
  {
    hide Pump.CarriesWork;
    forall n: nat | n < s'.Taken() && n < |s'.log| && s'.log[n].Work?
      ensures n in s'.done || exists j: nat :: j < |s'.pumps| && s'.pumps[j].CarriesWork(n)
    {
      if n !in s.done {
        var j: nat :| j < |s.pumps| && s.pumps[j].CarriesWork(n);
        assert s'.pumps[j].CarriesWork(n);
      }
    }
    forall j: nat, n: nat | j < |s'.pumps| && s'.pumps[j].CarriesWork(n)
      ensures n < s'.Taken() && n < |s'.log| && s'.log[n].Work? && n !in s'.done
    {
      assert s.pumps[j].CarriesWork(n);
    }
    forall j: nat, k: nat, n: nat | j < |s'.pumps| && k < |s'.pumps|
                                    && s'.pumps[j].CarriesWork(n) && s'.pumps[k].CarriesWork(n)
      ensures j == k
    {
      assert s.pumps[j].CarriesWork(n) && s.pumps[k].CarriesWork(n);
    }
  }

  lemma ConservedTaken(s: State, s': State, i: nat)
    requires Conserved(s) && DoneOnce(s) && Fifo(s) && s.queue != [] && i < |s.pumps| && s.pumps[i].Taking?
    requires s' == s.(queue := s.queue[1..], pumps := s.pumps[i := Leaving(s.queue[0])])
    ensures Conserved(s') && DoneOnce(s')
  {
    var t, p := s.Taken(), Leaving(s.queue[0]);
    assert s.queue[0] == s.log[t];
    assert forall n: nat :: p.CarriesWork(n) <==> s.log[t] == Work(n) && n == t;
    assert forall n: nat :: !s.pumps[i].CarriesWork(n);
    hide Pump.CarriesWork;
    forall n: nat | n < s'.Taken() && n < |s'.log| && s'.log[n].Work?
      ensures n in s'.done || exists j: nat :: j < |s'.pumps| && s'.pumps[j].CarriesWork(n)
    {
      if n == t {
        assert s'.pumps[i] == p;
      } else if n !in s.done {
        var j: nat :| j < |s.pumps| && s.pumps[j].CarriesWork(n);
        assert s'.pumps[j] == s.pumps[j];
      }
    }
    forall j: nat, n: nat | j < |s'.pumps| && s'.pumps[j].CarriesWork(n)
      ensures n < s'.Taken() && n < |s'.log| && s'.log[n].Work? && n !in s'.done && (n == t ==> j == i)
    {
      if j != i { assert s.pumps[j].CarriesWork(n); }
    }
    forall j: nat, k: nat, n: nat | j < |s'.pumps| && k < |s'.pumps|
                                    && s'.pumps[j].CarriesWork(n) && s'.pumps[k].CarriesWork(n)
      ensures j == k
    {
      if n != t { assert s.pumps[j].CarriesWork(n) && s.pumps[k].CarriesWork(n); }
    }
  }

  lemma ConservedDone(s: State, s': State, i: nat)
    requires Conserved(s) && DoneOnce(s) && Fifo(s) && i < |s.pumps| && s.pumps[i].Processing?
    requires s' == s.(done := s.done + [s.pumps[i].id], pumps := s.pumps[i := Arriving])
    ensures Conserved(s') && DoneOnce(s')
  {
    var m := s.pumps[i].id;
    assert forall n: nat :: s.pumps[i].CarriesWork(n) <==> n == m;
    assert forall n: nat :: !Arriving.CarriesWork(n);
    assert s.pumps[i].CarriesWork(m);
    hide Pump.CarriesWork;
    assert s.log[m] == Work(m);
    forall n: nat | n < s'.Taken() && n < |s'.log| && s'.log[n].Work?
      ensures n in s'.done || exists j: nat :: j < |s'.pumps| && s'.pumps[j].CarriesWork(n)
    {
      if n == m {
        assert s'.done[|s.done|] == m;
      } else if n in s.done {
        assert n in s'.done;
      } else {
        var j: nat :| j < |s.pumps| && s.pumps[j].CarriesWork(n);
        assert s'.pumps[j] == s.pumps[j];
      }
    }
    forall j: nat, n: nat | j < |s'.pumps| && s'.pumps[j].CarriesWork(n)
      ensures j != i && s.pumps[j].CarriesWork(n) && n != m
    {
      assert j != i ==> s.pumps[j].CarriesWork(n);
    }
  }

  /** Who holds the mutex after a pump's step. */
  lemma MutexAfterPump(s: State, s': State, i: nat, p: Pump)
    requires MutexOk(s) && i < |s.pumps| && s'.pumps == s.pumps[i := p]
    requires s'.clients == s.clients && s'.control == s.control
    requires s'.mutex == if p.Holds() == s.pumps[i].Holds() then s.mutex else if p.Holds() then Some(APump(i)) else None
    requires p.Holds() ==> s.pumps[i].Holds() || s.mutex == None
    ensures MutexOk(s')
  {
  }

  /** A pump's step that leaves the queue alone keeps the balance of markers and live pumps. */
  lemma PumpMarkers(s: State, s': State, i: nat, p: Pump)
    requires MarkersMatch(s) && MarkersLast(s) && i < |s.pumps| && s'.pumps == s.pumps[i := p]
    requires s'.queue == s.queue && s'.log == s.log && s'.began == s.began && s'.control == s.control
    requires !s.pumps[i].Exited? && p.Live() - p.Markers() == s.pumps[i].Live() - s.pumps[i].Markers()
    requires p.Exited? || p.Carries(Marker) ==> s.pumps[i].Carries(Marker)
    ensures MarkersMatch(s') && MarkersLast(s')
  {
    PumpSums(s, i, p);
    hide Sum;
  }

  lemma ArrivingKeeps(s: State, i: nat)
    requires Inv(s) && CanPump(s, i) && (s.pumps[i].Arriving? || s.pumps[i].Woken?)
    ensures Inv(PumpNext(s, i))
  {
    hide Conserved, DoneOnce, MutexOk;
    var s' := PumpNext(s, i);
    PumpSums(s, i, Testing);
    PumpMarkers(s, s', i, Testing);
    ConservedSame(s, s', i, Testing);
    MutexAfterPump(s, s', i, Testing);
    hide Sum, MarkersMatch, MarkersLast;
  }

  lemma TestingKeeps(s: State, i: nat)
    requires Inv(s) && CanPump(s, i) && s.pumps[i].Testing?
    ensures Inv(PumpNext(s, i))
  {
    hide Conserved, DoneOnce, MutexOk;
    var s' := PumpNext(s, i);
    var p := if s.queue == [] then Blocked else Taking;
    PumpSums(s, i, p);
    PumpMarkers(s, s', i, p);
    ConservedSame(s, s', i, p);
    MutexAfterPump(s, s', i, p);
    hide Sum, MarkersMatch, MarkersLast;
  }

  lemma TakingKeeps(s: State, i: nat)
    requires Inv(s) && CanPump(s, i) && s.pumps[i].Taking?
    ensures Inv(PumpNext(s, i))
  {
    var s', item := PumpNext(s, i), s.queue[0];
    NoOtherTaking(s, i);
    ConservedTaken(s, s', i);
    MutexAfterPump(s, s', i, Leaving(item));
    TakenFirst(s, s', item);
    hide Conserved, DoneOnce, MutexOk, Fifo, MarkersMatch, MarkersLast, NoneForgotten;
    TakenMarkers(s, s', i, item);
    TakenNotForgotten(s, s', i, item);
  }

  lemma TakenFirst(s: State, s': State, item: Item)
    requires Fifo(s) && s.queue != [] && item == s.queue[0] && s'.queue == s.queue[1..] && s'.log == s.log
    ensures Fifo(s') && item == s.log[s.Taken()] && s'.Taken() == s.Taken() + 1
  {
  }

  /** The first item leaves the queue for the pump's hands, and a marker comes after what it must. */
  lemma TakenMarkers(s: State, s': State, i: nat, item: Item)
    requires MarkersMatch(s) && MarkersLast(s) && i < |s.pumps| && s.pumps[i].Taking? && s.queue != []
    requires |s.queue| <= |s.log| && item == s.queue[0] && item == s.log[s.Taken()]
    requires s' == s.(queue := s.queue[1..], pumps := s.pumps[i := Leaving(item)])
    ensures MarkersMatch(s') && MarkersLast(s')
  {
    PumpSums(s, i, Leaving(item));
    assert Sum(MARKERS, s.queue) == MARKERS(item) + Sum(MARKERS, s.queue[1..]);
    hide Sum;
  }

  lemma TakenNotForgotten(s: State, s': State, i: nat, item: Item)
    requires NoneForgotten(s) && i < |s.pumps| && s.pumps[i].Taking? && s.queue != []
    requires forall j: nat :: j < |s.pumps| && j != i ==> !s.pumps[j].Taking?
    requires s' == s.(queue := s.queue[1..], pumps := s.pumps[i := Leaving(item)])
    ensures NoneForgotten(s')
  {
    PumpSums(s, i, Leaving(item));
    hide Sum;
    assert AnyBlocked(s') ==> AnyBlocked(s);
  }

  lemma NoOtherTaking(s: State, i: nat)
    requires MutexOk(s) && i < |s.pumps| && s.pumps[i].Taking?
    ensures forall j: nat :: j < |s.pumps| && j != i ==> !s.pumps[j].Taking?
  {
    forall j: nat | j < |s.pumps| && j != i ensures !s.pumps[j].Taking? {
      assert s.pumps[j].Holds() <==> s.mutex == Some(APump(j));
    }
  }

  lemma LeavingKeeps(s: State, i: nat)
    requires Inv(s) && CanPump(s, i) && s.pumps[i].Leaving?
    ensures Inv(PumpNext(s, i))
  {
    hide Conserved, DoneOnce, MutexOk;
    var s', p := PumpNext(s, i), Got(s.pumps[i].item);
    PumpSums(s, i, p);
    PumpMarkers(s, s', i, p);
    ConservedSame(s, s', i, p);
    MutexAfterPump(s, s', i, p);
    hide Sum, MarkersMatch, MarkersLast;
  }

  lemma GotKeeps(s: State, i: nat)
    requires Inv(s) && CanPump(s, i) && s.pumps[i].Got?
    ensures Inv(PumpNext(s, i))
  {
    hide Conserved, DoneOnce, MutexOk;
    var s', p := PumpNext(s, i), if s.pumps[i].item.Marker? then Exited else Processing(s.pumps[i].item.id);
    PumpSums(s, i, p);
    PumpMarkers(s, s', i, p);
    ConservedSame(s, s', i, p);
    MutexAfterPump(s, s', i, p);
    hide Sum, MarkersMatch, MarkersLast;
  }

  lemma ProcessingKeeps(s: State, i: nat)
    requires Inv(s) && CanPump(s, i) && s.pumps[i].Processing?
    ensures Inv(PumpNext(s, i))
  {
    hide Conserved, DoneOnce, MutexOk;
    var s' := PumpNext(s, i);
    PumpSums(s, i, Arriving);
    PumpMarkers(s, s', i, Arriving);
    ConservedDone(s, s', i);
    MutexAfterPump(s, s', i, Arriving);
    hide Sum, MarkersMatch, MarkersLast;
  }

  // ---- Client and control steps ------------------------------------------------------------

  /** Inserting at the back keeps the order and changes nothing about what was taken. */
  lemma InsertKeepsTasks(s: State, s': State, item: Item)
    requires Fifo(s) && Conserved(s) && DoneOnce(s) && (item == Marker || item == Work(|s.log|))
    requires s'.queue == s.queue + [item] && s'.log == s.log + [item]
    requires s'.pumps == s.pumps && s'.done == s.done
    ensures Fifo(s') && Conserved(s') && DoneOnce(s')
  {
    hide Pump.CarriesWork;
    assert s'.Taken() == s.Taken();
    assert s'.queue == s'.log[s'.Taken()..];
  }

  lemma InsertKeepsMarkers(s: State, s': State, item: Item)
    requires Fifo(s) && MarkersLast(s)
    requires s'.queue == s.queue + [item] && s'.log == s.log + [item]
    requires s'.pumps == s.pumps && s'.began == s.began
    requires s.control == s'.control || (s.control.Stopping? && s'.control.Stopping?)
    ensures MarkersLast(s')
    ensures Sum(MARKERS, s'.queue) == Sum(MARKERS, s.queue) + MARKERS(item)
  {
    SumAppend(MARKERS, s.queue, item);
  }

  /** Waking one consumer takes nothing from anyone. */
  lemma WakeKeeps(s: State, s': State, i: nat)
    requires Inv(s) && i < |s.pumps| && s.pumps[i].Blocked? && s' == s.(pumps := s.pumps[i := Woken])
    ensures Inv(s')
    ensures Sum(AWAKE, s'.pumps) == Sum(AWAKE, s.pumps) + 1
  {
    hide Conserved, DoneOnce, MutexOk;
    PumpSums(s, i, Woken);
    ConservedSame(s, s', i, Woken);
    MutexAfterPump(s, s', i, Woken);
  }

  lemma ClientLockKeeps(s: State, c: nat, wake: nat)
    requires Inv(s) && CanStep(s, ClientStep(c, wake)) && (s.clients[c].at.Locking? || s.clients[c].at.Unlocking?)
    ensures Inv(ClientNext(s, c, wake))
  {
    hide Conserved, DoneOnce, MutexOk;
    var s' := ClientNext(s, c, wake);
    SumUpdate(PENDING, s.clients, c, s'.clients[c]);
    ClientMutex(s, s', c, s'.clients[c]);
  }

  lemma ClientInsertKeeps(s: State, c: nat, wake: nat)
    requires Inv(s) && CanStep(s, ClientStep(c, wake)) && s.clients[c].at.Inside?
    ensures Inv(ClientNext(s, c, wake))
  {
    hide Conserved, DoneOnce, MutexOk;
    var s' := ClientNext(s, c, wake);
    SumUpdate(PENDING, s.clients, c, s'.clients[c]);
    ClientMutex(s, s', c, s'.clients[c]);
    InsertKeepsTasks(s, s', Work(|s.log|));
    InsertKeepsMarkers(s, s', Work(|s.log|));
  }

  /** A sleeper, if any, has just been woken on top of what the invariant asks for. */
  ghost predicate Slack(s: State) {
    AnyBlocked(s) ==> |s.queue| + 1 <= Sum(PENDING, s.clients) + ControlPending(s.control) + Sum(AWAKE, s.pumps)
  }

  lemma Woke(s: State, wake: nat) returns (m: State)
    requires Inv(s) && MayWake(s, wake)
    ensures m == if AnyBlocked(s) then s.(pumps := s.pumps[wake := Woken]) else s
    ensures Inv(m) && Slack(m)
  {
    hide MutexOk, Fifo, Conserved, DoneOnce, MarkersMatch, MarkersLast;
    m := s;
    if AnyBlocked(s) {
      m := s.(pumps := s.pumps[wake := Woken]);
      WakeKeeps(s, m, wake);
    }
  }

  lemma ClientNotifyKeeps(s: State, c: nat, wake: nat)
    requires Inv(s) && CanStep(s, ClientStep(c, wake)) && s.clients[c].at.Notifying?
    ensures Inv(ClientNext(s, c, wake))
  {
    hide Conserved, DoneOnce, MutexOk;
    var s' := ClientNext(s, c, wake);
    var m := Woke(s, wake);
    SumUpdate(PENDING, s.clients, c, Resting);
    ClientMutex(m, s', c, Resting);
    assert s' == m.(clients := s'.clients);
    hide Fifo, MarkersLast, MarkersBalance, NoMarkers;
    assert Fifo(s') && MarkersLast(s') && MarkersMatch(s') by { ClientsOnly(m, s'); }
  }

  lemma ClientsOnly(s: State, s': State)
    requires Fifo(s) && MarkersLast(s) && MarkersMatch(s) && s' == s.(clients := s'.clients)
    ensures Fifo(s') && MarkersLast(s') && MarkersMatch(s')
  {
  }

  lemma ClientMutex(s: State, s': State, c: nat, c': Client)
    requires MutexOk(s) && Conserved(s) && DoneOnce(s)
    requires c < |s.clients| && s'.clients == s.clients[c := c']
    requires s'.pumps == s.pumps && s'.control == s.control
    requires s'.mutex == if c'.Holds() == s.clients[c].Holds() then s.mutex
                         else if c'.Holds() then Some(AClient(c)) else None
    requires c'.Holds() ==> s.clients[c].Holds() || s.mutex == None
    ensures MutexOk(s')
    ensures s'.log == s.log && |s'.queue| == |s.queue| && s'.done == s.done ==> Conserved(s') && DoneOnce(s')
  {
    if s'.log == s.log && |s'.queue| == |s.queue| && s'.done == s.done {
      Conserves(s, s');
    }
  }

  lemma ControlMutex(s: State, s': State)
    requires MutexOk(s) && Conserved(s) && DoneOnce(s)
    requires s'.clients == s.clients && s'.pumps == s.pumps
    requires s'.mutex == if ControlHolds(s'.control) == ControlHolds(s.control) then s.mutex
                         else if ControlHolds(s'.control) then Some(TheControl) else None
    requires ControlHolds(s'.control) ==> ControlHolds(s.control) || s.mutex == None
    ensures MutexOk(s')
    ensures s'.log == s.log && |s'.queue| == |s.queue| && s'.done == s.done ==> Conserved(s') && DoneOnce(s')
  {
    if s'.log == s.log && |s'.queue| == |s.queue| && s'.done == s.done {
      Conserves(s, s');
    }
  }

  lemma StopLockKeeps(s: State, wake: nat)
    requires Inv(s) && CanStep(s, ControlStep(wake)) && s.control.Stopping?
    requires s.control.at.Locking? || s.control.at.Unlocking?
    ensures Inv(ControlNext(s, wake))
  {
    hide Conserved, DoneOnce, MutexOk;
    ControlMutex(s, ControlNext(s, wake));
  }

  lemma StopInsertKeeps(s: State, wake: nat)
    requires Inv(s) && CanStep(s, ControlStep(wake)) && s.control.Stopping? && s.control.at.Inside?
    ensures Inv(ControlNext(s, wake))
  {
    hide Conserved, DoneOnce, MutexOk;
    var s' := ControlNext(s, wake);
    ControlMutex(s, s');
    InsertKeepsTasks(s, s', Marker);
    InsertKeepsMarkers(s, s', Marker);
  }

  lemma StopNotifyKeeps(s: State, wake: nat)
    requires Inv(s) && CanStep(s, ControlStep(wake)) && s.control.Stopping? && s.control.at.Notifying?
    ensures Inv(ControlNext(s, wake))
  {
    hide Conserved, DoneOnce, MutexOk;
    var s' := ControlNext(s, wake);
    var m := Woke(s, wake);
    ControlMutex(m, s');
    assert s' == m.(control := s'.control);
    hide Fifo, MarkersLast;
    assert Fifo(s') && MarkersLast(s') by { ControlOnly(m, s'); }
  }

  lemma ControlOnly(s: State, s': State)
    requires Fifo(s) && MarkersLast(s) && s' == s.(control := s'.control)
    requires s.control.Stopping? || s.control.Joining?
    ensures Fifo(s') && MarkersLast(s')
  {
  }

  /** When the last pump has been joined nothing is in any pump's hands and no marker is queued. */
  lemma AllExited(s: State)
    requires Inv(s) && s.control == Joining(|s.pumps|)
    ensures forall i: nat :: i < |s.pumps| ==> s.pumps[i].Exited?
    ensures Sum(MARKERS, s.queue) == 0
    ensures s.pumps != [] ==> s.Taken() > s.began
  {
    hide Conserved, DoneOnce, MutexOk;
    SumZero(LIVE, s.pumps);
    SumZero(MARKERS, s.queue);
    if s.pumps != [] {
      assert s.pumps[0].Exited?;
    }
  }

  lemma JoinOneKeeps(s: State, wake: nat)
    requires Inv(s) && CanStep(s, ControlStep(wake)) && s.control.Joining? && s.control.joined < |s.pumps|
    ensures Inv(ControlNext(s, wake))
  {
    hide Conserved, DoneOnce, MutexOk;
    ControlMutex(s, ControlNext(s, wake));
  }

  /** Clearing the vector of pumps that have all ended leaves the mutex as it is. */
  lemma ClearedMutex(s: State, s': State)
    requires MutexOk(s) && forall i: nat :: i < |s.pumps| ==> s.pumps[i].Exited?
    requires s.control.Joining? && s' == s.(pumps := [], control := Ready)
    ensures MutexOk(s')
  {
    assert forall i: nat :: i < |s.pumps| ==> !s.pumps[i].Holds();
  }

  /** It also loses no task: what was taken has been processed. */
  lemma ClearedTasks(s: State, s': State)
    requires Fifo(s) && Conserved(s) && DoneOnce(s) && forall i: nat :: i < |s.pumps| ==> s.pumps[i].Exited?
    requires s' == s.(pumps := [], control := Ready)
    ensures Fifo(s') && Conserved(s') && DoneOnce(s')
  {
    assert forall i: nat, n: nat :: i < |s.pumps| ==> !s.pumps[i].CarriesWork(n);
    hide Pump.CarriesWork;
    assert s'.Taken() == s.Taken();
  }

  lemma JoinedKeeps(s: State, wake: nat)
    requires Inv(s) && CanStep(s, ControlStep(wake)) && s.control == Joining(|s.pumps|)
    ensures Inv(ControlNext(s, wake))
  {
    var s' := ControlNext(s, wake);
    AllExited(s);
    hide Conserved, DoneOnce, MutexOk, Fifo;
    ClearedMutex(s, s');
    ClearedTasks(s, s');
  }

  lemma StartingKeeps(s: State, wake: nat)
    requires Inv(s) && s.control.Starting?
    ensures Inv(ControlNext(s, wake))
  {
    var s' := ControlNext(s, wake);
    if s.control.left == 0 {
      hide Conserved, DoneOnce, MutexOk;
      ControlMutex(s, s');
    } else {
      SumAppend(AWAKE, s.pumps, Arriving);
      SumAppend(HELD, s.pumps, Arriving);
      NewPump(s, s');
    }
  }

  lemma NewPump(s: State, s': State)
    requires MutexOk(s) && Conserved(s) && DoneOnce(s) && s.control.Starting? && s'.control.Starting?
    requires s' == s.(pumps := s.pumps + [Arriving], control := s'.control)
    ensures MutexOk(s') && Conserved(s') && DoneOnce(s')
  {
    assert forall n: nat :: !Arriving.CarriesWork(n);
    hide Pump.CarriesWork;
    assert forall j: nat :: j < |s.pumps| ==> s'.pumps[j] == s.pumps[j];
    forall n: nat | n < s'.Taken() && n < |s'.log| && s'.log[n].Work?
      ensures n in s'.done || exists j: nat :: j < |s'.pumps| && s'.pumps[j].CarriesWork(n)
    {
      if n !in s.done {
        var j: nat :| j < |s.pumps| && s.pumps[j].CarriesWork(n);
        assert s'.pumps[j].CarriesWork(n);
      }
    }
    forall j: nat, n: nat | j < |s'.pumps| && s'.pumps[j].CarriesWork(n)
      ensures j < |s.pumps| && s.pumps[j].CarriesWork(n)
    {
      assert s'.pumps[j] == if j < |s.pumps| then s.pumps[j] else Arriving;
    }
  }

  lemma CallKeeps(s: State, l: Label)
    requires Inv(s) && CanStep(s, l) && (l.CallStart? || l.CallStop? || l.Submit?)
    ensures Inv(Next(s, l))
  {
    hide Conserved, DoneOnce, MutexOk;
    var s' := Next(s, l);
    if l.Submit? {
      SumUpdate(PENDING, s.clients, l.c, Pushing(Locking));
      ClientMutex(s, s', l.c, Pushing(Locking));
    } else {
      ControlMutex(s, s');
      SumZero(HELD, s.pumps);
      SumZero(MARKERS, s.queue);
      AllLive(s.pumps);
    }
  }

  lemma {:induction false} AllLive(ps: seq<Pump>)
    ensures (forall i: nat :: i < |ps| ==> !ps[i].Exited?) ==> Sum(LIVE, ps) == |ps|
    decreases |ps|
  {
    if ps != [] {
      AllLive(ps[1..]);
      assert forall i: nat :: i < |ps| - 1 ==> ps[1..][i] == ps[i + 1];
    }
  }

  // ---- Whole runs --------------------------------------------------------------------------

  lemma {:induction false} StepKeeps(s: State, l: Label)
    requires Inv(s) && CanStep(s, l)
    ensures Inv(Next(s, l))
  {
    hide Inv, Next;
    match l {
      case PumpStep(i) => PumpKeeps(s, i);
      case Spurious(i) => SpuriousKeeps(s, i);
      case ClientStep(c, wake) => ClientStepKeeps(s, c, wake);
      case ControlStep(wake) => ControlKeeps(s, wake);
      case _ => CallKeeps(s, l);
    }
  }

  lemma PumpKeeps(s: State, i: nat)
    requires Inv(s) && CanPump(s, i)
    ensures Inv(Next(s, PumpStep(i)))
  {
    hide Inv, PumpNext;
    match s.pumps[i] {
      case Arriving => ArrivingKeeps(s, i);
      case Testing => TestingKeeps(s, i);
      case Woken => ArrivingKeeps(s, i);
      case Taking => TakingKeeps(s, i);
      case Leaving(_) => LeavingKeeps(s, i);
      case Got(_) => GotKeeps(s, i);
      case Processing(_) => ProcessingKeeps(s, i);
    }
  }

  lemma SpuriousKeeps(s: State, i: nat)
    requires Inv(s) && i < |s.pumps| && s.pumps[i].Blocked?
    ensures Inv(Next(s, Spurious(i)))
  {
    hide Inv;
    WakeKeeps(s, Next(s, Spurious(i)), i);
  }

  lemma ClientStepKeeps(s: State, c: nat, wake: nat)
    requires Inv(s) && CanStep(s, ClientStep(c, wake))
    ensures Inv(Next(s, ClientStep(c, wake)))
  {
    hide Inv, ClientNext;
    match s.clients[c].at {
      case Inside => ClientInsertKeeps(s, c, wake);
      case Notifying => ClientNotifyKeeps(s, c, wake);
      case _ => ClientLockKeeps(s, c, wake);
    }
  }

  lemma ControlKeeps(s: State, wake: nat)
    requires Inv(s) && CanStep(s, ControlStep(wake))
    ensures Inv(Next(s, ControlStep(wake)))
  {
    assert s.control.Joining? ==> s.control.joined <= |s.pumps|;
    hide Inv, ControlNext;
    match s.control {
      case Starting(_) => StartingKeeps(s, wake);
      case Stopping(_, at) =>
        if at.Inside? {
          StopInsertKeeps(s, wake);
        } else if at.Notifying? {
          StopNotifyKeeps(s, wake);
        } else {
          StopLockKeeps(s, wake);
        }
      case Joining(joined) =>
        if joined < |s.pumps| {
          JoinOneKeeps(s, wake);
        } else {
          JoinedKeeps(s, wake);
        }
    }
  }

  /** A pool that was never started, with any number of client threads. */
  function Init(clients: nat): State {
    State([], None, [], seq(clients, _ => Resting), Ready, [], [], 0)
  }

  ghost predicate Run(s: State, ls: seq<Label>)
    decreases |ls|
  {
    ls == [] || (CanStep(s, ls[0]) && Run(Next(s, ls[0]), ls[1..]))
  }

  ghost function Final(s: State, ls: seq<Label>): State
    requires Run(s, ls)
    decreases |ls|
  {
    if ls == [] then s else Final(Next(s, ls[0]), ls[1..])
  }

  lemma {:induction false} RunKeeps(s: State, ls: seq<Label>)
    requires Inv(s) && Run(s, ls)
    ensures Inv(Final(s, ls))
    decreases |ls|
  {
    hide Inv, CanStep, Next;
    if ls != [] {
      StepKeeps(s, ls[0]);
      RunKeeps(Next(s, ls[0]), ls[1..]);
    }
  }

  /** The invariant holds in every state any pool can reach. */
  lemma ReachableInv(clients: nat, ls: seq<Label>)
    requires Run(Init(clients), ls)
    ensures Inv(Final(Init(clients), ls))
  {
    SumZero(PENDING, Init(clients).clients);
    RunKeeps(Init(clients), ls);
  }

  // ---- No lost wake-up ---------------------------------------------------------------------

  /** In every reachable state with the mutex free and a consumer asleep, the queued items are at
      most the notifications still to come plus the consumers woken and not yet back: the queue is
      never non-empty with everyone asleep and nothing left to wake them. */
  lemma NoLostWakeup(clients: nat, ls: seq<Label>)
    requires Run(Init(clients), ls)
    ensures
      var s := Final(Init(clients), ls);
      AnyBlocked(s) && s.mutex == None ==>
        && |s.queue| <= Sum(PENDING, s.clients) + ControlPending(s.control) + Sum(AWAKE, s.pumps)
        && (s.queue != [] ==>
              || (exists c: nat :: c < |s.clients| && s.clients[c] == Pushing(Notifying))
              || (s.control.Stopping? && s.control.at == Notifying)
              || (exists i: nat :: i < |s.pumps| && s.pumps[i] == Woken))
  {
    ReachableInv(clients, ls);
    var s := Final(Init(clients), ls);
    if AnyBlocked(s) && s.mutex == None && s.queue != [] {
      hide Run, Final, Conserved, DoneOnce, Fifo, MarkersMatch, MarkersLast;
      SumZero(PENDING, s.clients);
      SumZero(AWAKE, s.pumps);
      if Sum(PENDING, s.clients) > 0 {
        var c: nat :| c < |s.clients| && PENDING(s.clients[c]) != 0;
        assert !s.clients[c].Holds();
        assert s.clients[c] == Pushing(Notifying);
      } else if ControlPending(s.control) > 0 {
        assert s.control.at == Notifying;
      } else {
        var i: nat :| i < |s.pumps| && AWAKE(s.pumps[i]) != 0;
        assert !s.pumps[i].Holds();
        assert s.pumps[i] == Woken;
      }
    }
  }

  // ---- Shutdown ----------------------------------------------------------------------------

  /** When `Stop` is about to return: every task queued before it began was processed exactly once,
      no marker is left behind, and no pump carries anything. */
  lemma ShutdownDrains(clients: nat, ls: seq<Label>)
    requires Run(Init(clients), ls)
    ensures
      var s := Final(Init(clients), ls);
      s.control == Joining(|s.pumps|) && s.pumps != [] ==>
        && s.began <= |s.log| && (forall n: nat :: n < s.began && s.log[n].Work? ==> multiset(s.done)[n] == 1)
        && Marker !in s.queue
        && (forall i: nat :: i < |s.pumps| ==> s.pumps[i].Exited?)
  {
    ReachableInv(clients, ls);
    var s := Final(Init(clients), ls);
    hide Run, Final;
    if s.control == Joining(|s.pumps|) && s.pumps != [] {
      AllExited(s);
      SumZero(MARKERS, s.queue);
      forall n: nat | n < s.began && s.log[n].Work? ensures multiset(s.done)[n] == 1 {
        assert forall i: nat :: i < |s.pumps| ==> !s.pumps[i].CarriesWork(n);
        assert n in s.done;
        DistinctOnce(s.done, n);
      }
    }
  }

  /** Exactly when each task queued before `Stop` began has been processed once as it returns: there was a
      thread, or nothing but markers was still queued. */
  lemma {:induction false} DrainsExactly(s: State)
    requires Inv(s) && s.control == Joining(|s.pumps|)
    ensures s.began <= |s.log|
    ensures (forall n: nat :: n < s.began && s.log[n].Work? ==> multiset(s.done)[n] == 1)
       <==> (s.pumps != [] || forall n: nat :: s.Taken() <= n < s.began ==> s.log[n].Marker?)
  {
    AllExited(s);
    assert forall i: nat, n: nat :: i < |s.pumps| ==> !s.pumps[i].CarriesWork(n);
    hide MutexOk, Fifo, NoneForgotten, MarkersMatch, Pump.CarriesWork;
    forall n: nat | n < s.began && s.log[n].Work? ensures multiset(s.done)[n] == if n < s.Taken() then 1 else 0 {
      assert n in s.done <==> n < s.Taken();
      DistinctOnce(s.done, n);
    }
  }

  lemma Prepend(s: State, l: Label, s': State, rest: seq<Label>) returns (ls: seq<Label>)
    requires CanStep(s, l) && Next(s, l) == s' && Run(s', rest)
    ensures Run(s, ls) && Final(s, ls) == Final(s', rest)
  {
    ls := [l] + rest;
    assert ls[0] == l && ls[1..] == rest;
  }

  /** The other case does occur: a task is pushed into a pool that was never started, `Stop` returns, and
      the task is still queued. */
  lemma {:induction false} StopWithoutThreads() returns (ls: seq<Label>)
    ensures Run(Init(1), ls)
    ensures
      var s := Final(Init(1), ls);
      && s.control.Ready? && s.pumps == [] && s.began == 1 && s.log == [Work(0)]
      && s.queue == [Work(0)] && s.done == []
  {
    var s0 := Init(1);
    var s1 := s0.(clients := [Pushing(Locking)]);
    var s2 := s1.(mutex := Some(AClient(0)), clients := [Pushing(Inside)]);
    var s3 := s2.(queue := [Work(0)], log := [Work(0)], clients := [Pushing(Unlocking)]);
    var s4 := s3.(mutex := None, clients := [Pushing(Notifying)]);
    var s5 := s4.(clients := [Resting]);
    var s6 := s5.(began := 1, control := Joining(0));
    var s7 := s6.(control := Ready);
    assert Run(s7, []) && Final(s7, []) == s7;
    hide Run, Final;
    ls := Prepend(s6, ControlStep(0), s7, []);
    ls := Prepend(s5, CallStop, s6, ls);
    ls := Prepend(s4, ClientStep(0, 0), s5, ls);
    ls := Prepend(s3, ClientStep(0, 0), s4, ls);
    ls := Prepend(s2, ClientStep(0, 0), s3, ls);
    ls := Prepend(s1, ClientStep(0, 0), s2, ls);
    ls := Prepend(s0, Submit(0), s1, ls);
  }

  lemma {:induction false} DistinctOnce(xs: seq<nat>, n: nat)
    requires forall a, b :: 0 <= a < b < |xs| ==> xs[a] != xs[b]
    ensures multiset(xs)[n] == if n in xs then 1 else 0
    decreases |xs|
  {
    if xs != [] {
      assert xs == [xs[0]] + xs[1..];
      DistinctOnce(xs[1..], n);
    }
  }

  /** At every moment of every run, no task has been processed twice, and none before it was
      taken from the queue. */
  lemma ProcessedAtMostOnce(clients: nat, ls: seq<Label>, n: nat)
    requires Run(Init(clients), ls)
    ensures var s := Final(Init(clients), ls); multiset(s.done)[n] <= 1 && (n in s.done ==> n < s.Taken())
  {
    ReachableInv(clients, ls);
    DistinctOnce(Final(Init(clients), ls).done, n);
  }

  // ---- What the calls bring about ----------------------------------------------------------

  const EARLY: Client -> nat := (c: Client) => if c == Pushing(Locking) || c == Pushing(Inside) then 1 else 0
  const TASKS: Item -> nat := (i: Item) => if i.Work? then 1 else 0

  function Submissions(ls: seq<Label>): nat {
    if ls == [] then 0 else (if ls[0].Submit? then 1 else 0) + Submissions(ls[1..])
  }

  lemma ClientSubmits(s: State, c: nat, wake: nat)
    requires c < |s.clients| && s.clients[c].Pushing? && CanPush(s, s.clients[c].at, wake)
    ensures
      var s' := ClientNext(s, c, wake);
      Sum(EARLY, s'.clients) + Sum(TASKS, s'.log) == Sum(EARLY, s.clients) + Sum(TASKS, s.log)
  {
    SumUpdate(EARLY, s.clients, c, ClientNext(s, c, wake).clients[c]);
    SumAppend(TASKS, s.log, Work(|s.log|));
    hide Sum;
  }

  lemma ControlSubmits(s: State, wake: nat)
    requires CanStep(s, ControlStep(wake))
    ensures ControlNext(s, wake).clients == s.clients
    ensures Sum(TASKS, ControlNext(s, wake).log) == Sum(TASKS, s.log)
  {
    SumAppend(TASKS, s.log, Marker);
    hide Sum;
  }

  lemma StepSubmits(s: State, l: Label)
    requires CanStep(s, l)
    ensures Sum(EARLY, Next(s, l).clients) + Sum(TASKS, Next(s, l).log)
         == Sum(EARLY, s.clients) + Sum(TASKS, s.log) + if l.Submit? then 1 else 0
  {
    hide PushEffect, ClientNext, ControlNext, Sum;
    match l {
      case Submit(c) => SumUpdate(EARLY, s.clients, c, Pushing(Locking));
      case ClientStep(c, wake) => ClientSubmits(s, c, wake);
      case ControlStep(wake) => ControlSubmits(s, wake);
      case _ =>
    }
  }

  /** Each call that adds a task has queued exactly one, or is about to: it wants the mutex, or holds it
      and has not inserted yet. */
  lemma {:induction false} EachSubmissionIsQueued(s: State, ls: seq<Label>)
    requires Run(s, ls)
    ensures
      var s' := Final(s, ls);
      Sum(TASKS, s'.log) + Sum(EARLY, s'.clients) == Sum(TASKS, s.log) + Sum(EARLY, s.clients) + Submissions(ls)
    decreases |ls|
  {
    hide CanStep, Next, Sum;
    if ls != [] {
      StepSubmits(s, ls[0]);
      EachSubmissionIsQueued(Next(s, ls[0]), ls[1..]);
    }
  }

  predicate Calls(l: Label) { l.CallStart? || l.CallStop? }

  /** The threads that run, and those `Start` has still to create. */
  function Coming(s: State): nat { |s.pumps| + if s.control.Starting? then s.control.left else 0 }

  lemma StepComes(s: State, l: Label)
    requires CanStep(s, l) && !Calls(l) && (s.control.Ready? || s.control.Starting?)
    ensures var s' := Next(s, l); (s'.control.Ready? || s'.control.Starting?) && Coming(s') == Coming(s)
  {
  }

  /** `Start(n)` can always go on, and when it has returned there are `n` threads more. */
  lemma {:induction false} StartCreates(s: State, n: nat, ls: seq<Label>)
    requires Run(s, [CallStart(n)] + ls) && forall k :: 0 <= k < |ls| ==> !Calls(ls[k])
    ensures
      var s' := Final(s, [CallStart(n)] + ls);
      if s'.control.Ready? then |s'.pumps| == |s.pumps| + n else CanStep(s', ControlStep(0))
  {
    assert ([CallStart(n)] + ls)[1..] == ls;
    StartGoesOn(s.(control := Starting(n)), ls);
  }

  lemma {:induction false} StartGoesOn(s: State, ls: seq<Label>)
    requires Run(s, ls) && forall k :: 0 <= k < |ls| ==> !Calls(ls[k])
    requires s.control.Ready? || s.control.Starting?
    ensures var s' := Final(s, ls); (s'.control.Ready? || s'.control.Starting?) && Coming(s') == Coming(s)
    decreases |ls|
  {
    hide CanStep, Next;
    if ls != [] {
      assert !Calls(ls[0]);
      StepComes(s, ls[0]);
      StartGoesOn(Next(s, ls[0]), ls[1..]);
    }
  }

  /** Steps the threads take by themselves: no new call from outside, no spurious wake-up. */
  predicate Internal(l: Label) { l.PumpStep? || l.ClientStep? || l.ControlStep? }

  ghost predicate StopRunning(s: State) { s.control.Stopping? || s.control.Joining? }

  /** Until `Stop` returns, some thread can take a step. */
  lemma StopNeverStuck(s: State)
    requires Inv(s) && StopRunning(s)
    ensures exists l :: Internal(l) && CanStep(s, l)
  {
    hide Fifo, Conserved, DoneOnce, MarkersLast;
    var wake: nat := 0;
    if AnyBlocked(s) {
      wake :| wake < |s.pumps| && s.pumps[wake].Blocked?;
    }
    if s.mutex.Some? {
      match s.mutex.value {
        case APump(i) => assert CanStep(s, PumpStep(i));
        case AClient(c) => assert CanStep(s, ClientStep(c, wake));
        case TheControl => assert CanStep(s, ControlStep(wake));
      }
    } else if s.control.Stopping? || s.control.joined == |s.pumps| || s.pumps[s.control.joined].Exited? {
      assert CanStep(s, ControlStep(wake));
    } else if exists i: nat :: i < |s.pumps| && !s.pumps[i].Blocked? && !s.pumps[i].Exited? {
      var i: nat :| i < |s.pumps| && !s.pumps[i].Blocked? && !s.pumps[i].Exited?;
      assert !s.pumps[i].Holds();
      assert CanStep(s, PumpStep(i));
    } else {
      var c := SleepersAreNotified(s);
      assert !s.clients[c].Holds();
      assert CanStep(s, ClientStep(c, wake));
    }
  }

  /** With every live pump asleep while `Stop` waits for one, a client still has to notify. */
  lemma SleepersAreNotified(s: State) returns (c: nat)
    requires Inv(s) && s.control.Joining? && s.control.joined < |s.pumps|
    requires !s.pumps[s.control.joined].Exited?
    requires forall i: nat :: i < |s.pumps| ==> s.pumps[i].Blocked? || s.pumps[i].Exited?
    ensures c < |s.clients| && s.clients[c].Pushing? && s.clients[c].at.Pending() == 1
  {
    hide Fifo, Conserved, DoneOnce, MarkersLast, MutexOk;
    SumZero(HELD, s.pumps);
    SumZero(AWAKE, s.pumps);
    SumZero(LIVE, s.pumps);
    SumZero(MARKERS, s.queue);
    SumZero(PENDING, s.clients);
    var j := s.control.joined;
    assert s.pumps[j].Blocked? && LIVE(s.pumps[j]) != 0;
    assert Sum(MARKERS, s.queue) > 0 && s.queue != [];
    c :| c < |s.clients| && PENDING(s.clients[c]) != 0;
  }

  function ControlWeight(c: Control, pumps: nat): int {
    match c
    case Ready => 0
    case Starting(left) => 4 * left + 1
    case Stopping(sent, at) => at.Weight() + 15 * (pumps - sent - 1) + pumps + 2
    case Joining(j) => pumps - j + 1
  }

  /** An upper bound on how many steps the threads can still take by themselves. */
  function Measure(s: State): int {
    Sum(PUMP_WEIGHT, s.pumps) + 6 * |s.queue| + Sum(CLIENT_WEIGHT, s.clients) + ControlWeight(s.control, |s.pumps|)
  }

  lemma MeasureNatural(s: State)
    requires Inv(s)
    ensures Measure(s) >= 0
  {
    hide MutexOk, Fifo, Conserved, DoneOnce, NoneForgotten, MarkersLast;
  }

  lemma PumpLighter(s: State, i: nat)
    requires CanPump(s, i)
    ensures
      var s' := PumpNext(s, i);
      && |s'.pumps| == |s.pumps| && s'.pumps == s.pumps[i := s'.pumps[i]]
      && s'.clients == s.clients && s'.control == s.control
      && s'.pumps[i].Weight() + 6 * |s'.queue| < s.pumps[i].Weight() + 6 * |s.queue|
  {
  }

  lemma PumpDescends(s: State, i: nat)
    requires CanPump(s, i)
    ensures Measure(PumpNext(s, i)) < Measure(s)
  {
    PumpLighter(s, i);
    hide PumpNext, ControlWeight, Pump.Weight, CanPump;
    SumUpdate(PUMP_WEIGHT, s.pumps, i, PumpNext(s, i).pumps[i]);
  }

  lemma ClientDescends(s: State, c: nat, wake: nat)
    requires CanStep(s, ClientStep(c, wake))
    ensures Measure(ClientNext(s, c, wake)) < Measure(s)
  {
    hide ControlWeight;
    SumUpdate(CLIENT_WEIGHT, s.clients, c, ClientNext(s, c, wake).clients[c]);
    hide Sum;
    if s.clients[c].at.Notifying? && AnyBlocked(s) { SumUpdate(PUMP_WEIGHT, s.pumps, wake, Woken); }
  }

  lemma ControlDescends(s: State, wake: nat)
    requires CanStep(s, ControlStep(wake)) && MarkersMatch(s)
    ensures Measure(ControlNext(s, wake)) < Measure(s)
  {
    hide MarkersBalance, NoMarkers;
    if s.control.Stopping? && s.control.at.Notifying? && AnyBlocked(s) {
      SumUpdate(PUMP_WEIGHT, s.pumps, wake, Woken);
    }
    if s.control.Starting? { SumAppend(PUMP_WEIGHT, s.pumps, Arriving); }
    if s.control.Joining? { assert Sum(PUMP_WEIGHT, []) == 0; }
  }

  lemma StepDescends(s: State, l: Label)
    requires Inv(s) && CanStep(s, l) && Internal(l)
    ensures Measure(Next(s, l)) < Measure(s)
  {
    hide Measure, PumpNext, ClientNext, ControlNext, MarkersMatch;
    match l {
      case PumpStep(i) => PumpDescends(s, i);
      case ClientStep(c, wake) => ClientDescends(s, c, wake);
      case ControlStep(wake) => ControlDescends(s, wake);
    }
  }

  /** `Stop` returns: left to themselves the threads take boundedly many steps, and when none can
      take another, `Stop` has returned. */
  lemma {:induction false} StopReturns(s: State, ls: seq<Label>)
    requires Inv(s) && (StopRunning(s) || s.control.Ready?)
    requires Run(s, ls) && forall k :: 0 <= k < |ls| ==> Internal(ls[k])
    ensures |ls| <= Measure(s)
    ensures (forall l :: Internal(l) ==> !CanStep(Final(s, ls), l)) ==> Final(s, ls).control.Ready?
    decreases |ls|
  {
    hide Inv, CanStep;
    MeasureNatural(s);
    if ls == [] {
      if StopRunning(s) { StopNeverStuck(s); }
    } else {
      assert Internal(ls[0]);
      var s' := Next(s, ls[0]);
      StepKeeps(s, ls[0]);
      StepDescends(s, ls[0]);
      StaysStopping(s, ls[0]);
      StopReturns(s', ls[1..]);
    }
  }

  lemma StaysStopping(s: State, l: Label)
    requires CanStep(s, l) && Internal(l) && (StopRunning(s) || s.control.Ready?)
    ensures StopRunning(Next(s, l)) || Next(s, l).control.Ready?
  {
  }
}
