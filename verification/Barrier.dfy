/** `RunConcurrentTasks`: a caller queues one closure per listed task on the worker pool and waits
    until the shared counter says that all of them have ended. Pump threads never take the caller's
    mutex, so only the caller's program point says whether it is held. `workers` is how many pump threads
    are free for the call: none in a pool without threads, and one less than the pool has when the caller is
    itself a pump thread. `ran`, `notified` and `missed` are history: how often each task's body ran to its
    end, how many notifications were issued, and whether one was issued after the caller's test and before
    its wait. */
module Barrier {
  import opened Counting

  datatype Job =
    | Absent
    | Queued
    | Running
    | Ended                 // the body returned or threw, and the exception was swallowed
    | Compared(last: bool)  // counter incremented; `last` is the outcome of comparing it
    | Finished
  {
    /** 1 once the closure has incremented the counter. */
    function Counted(): nat { if Compared? || Finished? then 1 else 0 }

    /** 1 while the closure is about to notify. */
    function Notifier(): nat { if Compared? && last then 1 else 0 }

    function Ran(): nat { if Ended? || Compared? || Finished? then 1 else 0 }

    /** 1 while the closure occupies a pump thread. */
    function Busy(): nat { if Running? || Ended? || Compared? then 1 else 0 }
  }

  datatype Caller =
    | Creating(next: nat)
    | Testing        // holds the mutex: about to read the counter
    | Blocking       // holds the mutex: the counter was short, about to wait
    | Waiting
    | Woken
    | Returned

  datatype State = State(jobs: seq<Job>, counter: nat, caller: Caller, ran: seq<nat>, notified: nat, missed: bool,
                         workers: nat)

  datatype Label = CallerStep | JobStep(i: nat) | Spurious

  function Init(tasks: nat, workers: nat): State {
    State(seq(tasks, _ => Absent), 0, if tasks == 0 then Returned else Creating(0), seq(tasks, _ => 0), 0, false,
          workers)
  }

  const COUNTED: Job -> nat := (j: Job) => j.Counted()
  const NOTIFIER: Job -> nat := (j: Job) => j.Notifier()
  const BUSY: Job -> nat := (j: Job) => j.Busy()

  predicate CanStep(s: State, l: Label) {
    match l
    case CallerStep => !s.caller.Waiting? && !s.caller.Returned?
    case JobStep(i) =>
      && i < |s.jobs| && |s.ran| == |s.jobs| && !s.jobs[i].Absent? && !s.jobs[i].Finished?
      && (s.jobs[i].Queued? ==> Sum(BUSY, s.jobs) < s.workers)
    case Spurious => s.caller.Waiting?
  }

  function Next(s: State, l: Label): State
    requires CanStep(s, l)
  {
    match l
    case CallerStep =>
      (match s.caller
       case Creating(k) =>
         if k < |s.jobs| then s.(jobs := s.jobs[k := Queued], caller := Creating(k + 1)) else s.(caller := Testing)
       case Testing => s.(caller := if s.counter == |s.jobs| then Returned else Blocking)
       case Blocking => s.(caller := Waiting)
       case Woken => s.(caller := Testing))
    case JobStep(i) =>
      (match s.jobs[i]
       case Queued => s.(jobs := s.jobs[i := Running])
       case Running => s.(jobs := s.jobs[i := Ended], ran := s.ran[i := s.ran[i] + 1])
       case Ended =>
         var c := s.counter + 1;
         s.(jobs := s.jobs[i := Compared(c == |s.jobs|)], counter := c)
       case Compared(last) =>
         var s1 := s.(jobs := s.jobs[i := Finished]);
         if !last then s1
         else s1.(notified := s.notified + 1, caller := if s.caller.Waiting? then Woken else s.caller,
                  missed := s.caller.Blocking?))
    case Spurious => s.(caller := Woken)
  }

  ghost predicate Inv(s: State) {
    && |s.ran| == |s.jobs|
    && s.counter == Sum(COUNTED, s.jobs)
    && s.notified + Sum(NOTIFIER, s.jobs) == (if s.jobs != [] && s.counter == |s.jobs| then 1 else 0)
    && (forall i: nat :: i < |s.jobs| ==> s.ran[i] == s.jobs[i].Ran())
    && (s.caller.Creating? ==> s.caller.next <= |s.jobs|)
    && (s.caller.Creating? ==> forall i: nat :: s.caller.next <= i < |s.jobs| ==> s.jobs[i].Absent?)
    && (forall i: nat :: i < |s.jobs| && s.jobs[i].Absent? ==> s.caller.Creating? && s.caller.next <= i)
    && (s.jobs == [] ==> s.caller.Returned?)
    && (s.caller.Returned? ==> s.counter == |s.jobs|)
    && ((s.caller.Blocking? || s.caller.Waiting?) && s.notified > 0 ==> s.missed)
    && (s.missed ==> s.notified > 0)
    && Sum(BUSY, s.jobs) <= s.workers
    && (s.workers == 0 ==> forall i: nat :: i < |s.jobs| ==> s.jobs[i].Absent? || s.jobs[i].Queued?)
  }

  /** A counter of closures never exceeds their number, and reaches it only when all are counted. */
  lemma {:induction false} CountedAll(js: seq<Job>)
    ensures Sum(COUNTED, js) <= |js|
    ensures Sum(COUNTED, js) == |js| <==> forall i: nat :: i < |js| ==> js[i].Counted() == 1
    decreases |js|
  {
    if js != [] {
      CountedAll(js[1..]);
      assert forall i: nat :: i < |js| - 1 ==> js[1..][i] == js[i + 1];
      if forall i: nat :: i < |js| - 1 ==> js[1..][i].Counted() == 1 {
        assert forall i: nat :: 0 < i < |js| ==> js[i] == js[1..][i - 1];
      }
    }
  }

  lemma JobSums(js: seq<Job>, i: nat, job: Job)
    requires i < |js|
    ensures Sum(COUNTED, js[i := job]) == Sum(COUNTED, js) - js[i].Counted() + job.Counted()
    ensures Sum(NOTIFIER, js[i := job]) == Sum(NOTIFIER, js) - js[i].Notifier() + job.Notifier()
    ensures Sum(BUSY, js[i := job]) == Sum(BUSY, js) - js[i].Busy() + job.Busy()
  {
    SumUpdate(COUNTED, js, i, job);
    SumUpdate(NOTIFIER, js, i, job);
    SumUpdate(BUSY, js, i, job);
  }

  lemma CallerKeeps(s: State)
    requires Inv(s) && CanStep(s, CallerStep)
    ensures Inv(Next(s, CallerStep))
  {
    if s.caller.Creating? && s.caller.next < |s.jobs| {
      JobSums(s.jobs, s.caller.next, Queued);
    }
    hide Sum;
  }

  /** A closure that has not incremented the counter yet keeps it short of the number of tasks. */
  lemma CounterShort(js: seq<Job>, i: nat)
    requires i < |js| && js[i].Counted() == 0
    ensures Sum(COUNTED, js) < |js|
  {
    CountedAll(js);
  }

  /** A closure is taken up by a free pump thread, or runs. */
  lemma BodyKeeps(s: State, i: nat)
    requires Inv(s) && CanStep(s, JobStep(i)) && (s.jobs[i].Queued? || s.jobs[i].Running?)
    ensures Inv(Next(s, JobStep(i)))
  {
    JobSums(s.jobs, i, Next(s, JobStep(i)).jobs[i]);
    hide Sum;
  }

  lemma IncrementKeeps(s: State, i: nat)
    requires Inv(s) && CanStep(s, JobStep(i)) && s.jobs[i].Ended?
    ensures Inv(Next(s, JobStep(i)))
  {
    JobSums(s.jobs, i, Next(s, JobStep(i)).jobs[i]);
    CounterShort(s.jobs, i);
    hide Sum;
  }

  lemma NotifyKeeps(s: State, i: nat)
    requires Inv(s) && CanStep(s, JobStep(i)) && s.jobs[i].Compared?
    ensures Inv(Next(s, JobStep(i)))
  {
    JobSums(s.jobs, i, Finished);
    hide Sum;
  }

  lemma StepKeeps(s: State, l: Label)
    requires Inv(s) && CanStep(s, l)
    ensures Inv(Next(s, l))
  {
    match l {
      case CallerStep => CallerKeeps(s);
      case JobStep(i) =>
        match s.jobs[i] {
          case Ended => IncrementKeeps(s, i);
          case Compared(_) => NotifyKeeps(s, i);
          case _ => BodyKeeps(s, i);
        }
      case Spurious =>
    }
  }

  lemma InitInv(tasks: nat, workers: nat)
    ensures Inv(Init(tasks, workers))
  {
    var s := Init(tasks, workers);
    SumZero(COUNTED, s.jobs);
    SumZero(NOTIFIER, s.jobs);
    SumZero(BUSY, s.jobs);
  }

  predicate Run(s: State, ls: seq<Label>)
    decreases |ls|
  {
    ls == [] || (CanStep(s, ls[0]) && Run(Next(s, ls[0]), ls[1..]))
  }

  function Final(s: State, ls: seq<Label>): State
    requires Run(s, ls)
    decreases |ls|
  {
    if ls == [] then s else Final(Next(s, ls[0]), ls[1..])
  }

  lemma {:induction false} RunKeeps(s: State, ls: seq<Label>)
    requires Inv(s) && Run(s, ls)
    ensures Inv(Final(s, ls)) && |Final(s, ls).jobs| == |s.jobs| && Final(s, ls).workers == s.workers
    decreases |ls|
  {
    if ls != [] {
      StepKeeps(s, ls[0]);
      RunKeeps(Next(s, ls[0]), ls[1..]);
    }
  }

  /** In every interleaving the counter is the number of closures that have incremented it, each
      after its body ended, and at most one notification is ever issued; exactly one once all
      closures are finished. Never more closures are in progress than there are workers. */
  lemma CounterIsExact(tasks: nat, workers: nat, ls: seq<Label>)
    requires Run(Init(tasks, workers), ls)
    ensures
      var s := Final(Init(tasks, workers), ls);
      && s.counter == Sum(COUNTED, s.jobs) <= tasks
      && |s.ran| == tasks == |s.jobs|
      && (forall i: nat :: i < tasks ==> s.ran[i] <= 1 && (s.jobs[i].Counted() == 1 ==> s.ran[i] == 1))
      && s.notified <= 1 && Sum(BUSY, s.jobs) <= workers
      && (tasks > 0 && (forall i: nat :: i < tasks ==> s.jobs[i].Finished?) ==> s.notified == 1)
  {
    InitInv(tasks, workers);
    RunKeeps(Init(tasks, workers), ls);
    var s := Final(Init(tasks, workers), ls);
    CountedAll(s.jobs);
    SumZero(NOTIFIER, s.jobs);
  }

  /** `RunConcurrentTasks` returns only after every listed task has run to its end exactly once. */
  lemma ReturnsAfterAll(tasks: nat, workers: nat, ls: seq<Label>)
    requires Run(Init(tasks, workers), ls) && Final(Init(tasks, workers), ls).caller.Returned?
    ensures var s := Final(Init(tasks, workers), ls); |s.ran| == tasks && forall i: nat :: i < tasks ==> s.ran[i] == 1
  {
    InitInv(tasks, workers);
    RunKeeps(Init(tasks, workers), ls);
    CountedAll(Final(Init(tasks, workers), ls).jobs);
  }

  // ---- When the caller sleeps forever ------------------------------------------------------

  /** The caller has not been woken after missing the notification. */
  predicate Asleep(s: State) {
    s.missed ==> s.caller.Blocking? || s.caller.Waiting?
  }

  lemma AsleepKept(s: State, l: Label)
    requires Inv(s) && CanStep(s, l) && Asleep(s) && !l.Spurious?
    ensures Asleep(Next(s, l))
  {
    if l.JobStep? && s.jobs[l.i].Compared? && s.jobs[l.i].last {
      SumAtLeast(s.jobs, l.i);
    }
  }

  /** A closure that is about to notify is counted as one. */
  lemma SumAtLeast(js: seq<Job>, i: nat)
    requires i < |js|
    ensures Sum(NOTIFIER, js) >= js[i].Notifier()
  {
    SumUpdate(NOTIFIER, js, i, Absent);
  }

  lemma {:induction false} RunAsleep(s: State, ls: seq<Label>)
    requires Inv(s) && Asleep(s) && Run(s, ls) && forall k :: 0 <= k < |ls| ==> !ls[k].Spurious?
    ensures Asleep(Final(s, ls))
    decreases |ls|
  {
    if ls != [] {
      StepKeeps(s, ls[0]);
      AsleepKept(s, ls[0]);
      assert forall k :: 0 <= k < |ls| - 1 ==> ls[1..][k] == ls[k + 1];
      RunAsleep(Next(s, ls[0]), ls[1..]);
    }
  }

  /** No thread can take another step of its own. */
  ghost predicate Stuck(s: State) {
    forall l :: CanStep(s, l) ==> l.Spurious?
  }

  /** Without spurious wake-ups, when no thread can take another step the caller has returned exactly
      if there was a worker, or nothing to do, and the one notification did not fall between its test of the
      counter and its wait. */
  lemma ReturnsUnlessMissed(tasks: nat, workers: nat, ls: seq<Label>)
    requires Run(Init(tasks, workers), ls) && forall k :: 0 <= k < |ls| ==> !ls[k].Spurious?
    requires Stuck(Final(Init(tasks, workers), ls))
    ensures
      var s := Final(Init(tasks, workers), ls);
      s.caller.Returned? <==> !s.missed && (tasks == 0 || workers > 0)
  {
    InitInv(tasks, workers);
    RunKeeps(Init(tasks, workers), ls);
    RunAsleep(Init(tasks, workers), ls);
    var s := Final(Init(tasks, workers), ls);
    assert !CanStep(s, CallerStep);
    CountedAll(s.jobs);
    if s.caller.Waiting? && workers > 0 {
      NothingLeft(s);
    }
  }

  lemma NothingLeft(s: State)
    requires Inv(s) && s.caller.Waiting? && Stuck(s) && s.workers > 0
    ensures s.missed && forall i: nat :: i < |s.jobs| ==> s.jobs[i].Finished?
  {
    forall i: nat | i < |s.jobs| ensures s.jobs[i].Busy() == 0 {
      assert !CanStep(s, JobStep(i));
    }
    SumZero(BUSY, s.jobs);
    forall i: nat | i < |s.jobs| ensures s.jobs[i].Finished? {
      assert !CanStep(s, JobStep(i));
    }
    CountedAll(s.jobs);
    SumZero(NOTIFIER, s.jobs);
  }

  // ---- Which calls can fail ------------------------------------------------------------------

  /** The caller waits and nobody is left to wake it. */
  ghost predicate Lost(s: State) {
    s.caller.Waiting? && Stuck(s)
  }

  ghost predicate LostToMiss(s: State) {
    Lost(s) && s.missed
  }

  /** The caller has returned, and its condition variable with it, while the notification is still to come. */
  predicate Late(s: State) {
    s.caller.Returned? && exists i: nat :: i < |s.jobs| && s.jobs[i] == Compared(true)
  }

  lemma Before(s: State, l: Label, s1: State, ls: seq<Label>, end: State) returns (ls': seq<Label>)
    requires CanStep(s, l) && Next(s, l) == s1 && Run(s1, ls) && Final(s1, ls) == end
    ensures Run(s, ls') && Final(s, ls') == end
  {
    ls' := [l] + ls;
    assert ls'[1..] == ls;
  }

  /** The first `k` closures are queued, the others are not created yet. */
  function Created(tasks: nat, workers: nat, k: nat): State {
    State(seq(tasks, i => if i < k then Queued else Absent), 0, Creating(k), seq(tasks, _ => 0), 0, false, workers)
  }

  /** All are queued and the first `k` have finished, while the caller stands at `caller`. */
  function Worked(tasks: nat, workers: nat, k: nat, caller: Caller): State {
    State(seq(tasks, i => if i < k then Finished else Queued), k, caller, seq(tasks, i => if i < k then 1 else 0),
          0, false, workers)
  }

  lemma {:induction false} CreateAll(n: nat, w: nat, k: nat, rest: seq<Label>, end: State) returns (ls: seq<Label>)
    requires k <= n && n > 0
    requires Run(Worked(n, w, 0, Testing), rest) && Final(Worked(n, w, 0, Testing), rest) == end
    ensures Run(Created(n, w, k), ls) && Final(Created(n, w, k), ls) == end
    decreases n - k
  {
    hide Run, Final;
    var s := Created(n, w, k);
    if k == n {
      var tested := Worked(n, w, 0, Testing);
      assert s.jobs == tested.jobs && s.ran == tested.ran;
      ls := Before(s, CallerStep, tested, rest, end);
    } else {
      ls := CreateAll(n, w, k + 1, rest, end);
      var s' := Created(n, w, k + 1);
      assert s.jobs[k := Queued] == s'.jobs;
      ls := Before(s, CallerStep, s', ls, end);
    }
  }

  /** One closure that is not the last runs from the queue to its end. */
  lemma WorkOne(n: nat, w: nat, k: nat, caller: Caller, rest: seq<Label>, end: State) returns (ls: seq<Label>)
    requires k + 1 < n && w > 0
    requires Run(Worked(n, w, k + 1, caller), rest)
    requires Final(Worked(n, w, k + 1, caller), rest) == end
    ensures Run(Worked(n, w, k, caller), ls) && Final(Worked(n, w, k, caller), ls) == end
  {
    var s, j := Worked(n, w, k, caller), JobStep(k);
    SumZero(BUSY, s.jobs);
    hide Run, Final, Sum;
    var s1 := s.(jobs := s.jobs[k := Running]);
    var s2 := s1.(jobs := s.jobs[k := Ended], ran := s.ran[k := 1]);
    var s3 := s2.(jobs := s.jobs[k := Compared(false)], counter := k + 1);
    var s4 := Worked(n, w, k + 1, caller);
    assert s.jobs[k := Finished] == s4.jobs && s.ran[k := 1] == s4.ran;
    ls := Before(s3, j, s4, rest, end);
    ls := Before(s2, j, s3, ls, end);
    ls := Before(s1, j, s2, ls, end);
    ls := Before(s, j, s1, ls, end);
  }

  /** All closures from the `k`-th on but the last run. */
  lemma {:induction false} WorkRest(n: nat, w: nat, k: nat, c: Caller, rest: seq<Label>, end: State)
    returns (ls: seq<Label>)
    requires k < n && w > 0
    requires Run(Worked(n, w, n - 1, c), rest)
    requires Final(Worked(n, w, n - 1, c), rest) == end
    ensures Run(Worked(n, w, k, c), ls) && Final(Worked(n, w, k, c), ls) == end
    decreases n - k
  {
    hide Run, Final, Worked;
    if k == n - 1 {
      ls := rest;
    } else {
      ls := WorkRest(n, w, k + 1, c, rest, end);
      ls := WorkOne(n, w, k, c, ls, end);
    }
  }

  /** The last closure has counted itself and is about to notify. */
  function LastCompared(tasks: nat, workers: nat, caller: Caller): State
    requires tasks > 0
  {
    State(seq(tasks - 1, _ => Finished) + [Compared(true)], tasks, caller, seq(tasks, _ => 1), 0, false, workers)
  }

  lemma CompareLast(n: nat, w: nat, caller: Caller, rest: seq<Label>, end: State) returns (ls: seq<Label>)
    requires n > 0 && w > 0
    requires Run(LastCompared(n, w, caller), rest)
    requires Final(LastCompared(n, w, caller), rest) == end
    ensures Run(Worked(n, w, n - 1, caller), ls)
    ensures Final(Worked(n, w, n - 1, caller), ls) == end
  {
    var s, k := Worked(n, w, n - 1, caller), n - 1;
    var j := JobStep(k);
    SumZero(BUSY, s.jobs);
    hide Run, Final, Sum;
    var s1 := s.(jobs := s.jobs[k := Running]);
    var s2 := s1.(jobs := s.jobs[k := Ended], ran := s.ran[k := 1]);
    var s3 := LastCompared(n, w, caller);
    assert s.jobs[k := Compared(true)] == s3.jobs && s.ran[k := 1] == s3.ran;
    ls := Before(s2, j, s3, rest, end);
    ls := Before(s1, j, s2, ls, end);
    ls := Before(s, j, s1, ls, end);
  }

  lemma InitIsCreated(tasks: nat, workers: nat)
    requires tasks > 0
    ensures Init(tasks, workers) == Created(tasks, workers, 0)
  {
    assert Init(tasks, workers).jobs == Created(tasks, workers, 0).jobs;
  }

  /** The caller tests the counter between the last closure's increment and its notification, and returns. */
  lemma LateRun(tasks: nat, workers: nat) returns (ls: seq<Label>)
    requires tasks > 0 && workers > 0
    ensures Run(Init(tasks, workers), ls) && Late(Final(Init(tasks, workers), ls))
  {
    var end := LastCompared(tasks, workers, Returned);
    assert Late(end) by { assert end.jobs[tasks - 1] == Compared(true); }
    assert Run(end, []) && Final(end, []) == end;
    assert Next(LastCompared(tasks, workers, Testing), CallerStep) == end;
    hide Run, Final, LastCompared, Worked, Created, Init, Late;
    ls := Before(LastCompared(tasks, workers, Testing), CallerStep, end, [], end);
    ls := CompareLast(tasks, workers, Testing, ls, end);
    ls := WorkRest(tasks, workers, 0, Testing, ls, end);
    ls := CreateAll(tasks, workers, 0, ls, end);
    InitIsCreated(tasks, workers);
  }

  /** The last closure notifies between the caller's test and its wait. */
  lemma MissedRun(tasks: nat, workers: nat) returns (ls: seq<Label>)
    requires tasks > 0 && workers > 0
    ensures Run(Init(tasks, workers), ls) && LostToMiss(Final(Init(tasks, workers), ls))
  {
    var k: nat := tasks - 1;
    var end := State(seq(tasks, _ => Finished), tasks, Waiting, seq(tasks, _ => 1), 1, true, workers);
    var blocking := end.(caller := Blocking);
    var compared := LastCompared(tasks, workers, Blocking);
    assert compared.jobs[k := Finished] == end.jobs;
    assert Run(end, []) && Final(end, []) == end;
    hide Run, Final, Sum;
    ls := Before(blocking, CallerStep, end, [], end);
    ls := Before(compared, JobStep(k), blocking, ls, end);
    ls := CompareLast(tasks, workers, Blocking, ls, end);
    ls := Before(Worked(tasks, workers, k, Testing), CallerStep, Worked(tasks, workers, k, Blocking), ls, end);
    hide Worked, Created, Init;
    ls := WorkRest(tasks, workers, 0, Testing, ls, end);
    ls := CreateAll(tasks, workers, 0, ls, end);
    InitIsCreated(tasks, workers);
  }

  /** Without a worker the closures stay in the queue and the caller goes to sleep for good. */
  lemma UnservedRun(tasks: nat) returns (ls: seq<Label>)
    requires tasks > 0
    ensures Run(Init(tasks, 0), ls) && Lost(Final(Init(tasks, 0), ls))
  {
    var end := Worked(tasks, 0, 0, Waiting);
    assert Lost(end);
    assert Run(end, []) && Final(end, []) == end;
    hide Run, Final, Sum;
    ls := Before(Worked(tasks, 0, 0, Blocking), CallerStep, end, [], end);
    ls := Before(Worked(tasks, 0, 0, Testing), CallerStep, Worked(tasks, 0, 0, Blocking), ls, end);
    hide Worked, Created, Init, Lost;
    ls := CreateAll(tasks, 0, 0, ls, end);
    InitIsCreated(tasks, 0);
  }

  /** Nothing happens in a call without tasks, and without a worker no closure is even started. */
  lemma Unfailing(tasks: nat, workers: nat, ls: seq<Label>)
    requires Run(Init(tasks, workers), ls)
    ensures
      var s := Final(Init(tasks, workers), ls);
      && (tasks == 0 ==> s.caller.Returned? && !s.missed)
      && (tasks == 0 || workers == 0 ==> !Late(s) && !s.missed)
      && (tasks > 0 && workers == 0 ==> !s.caller.Returned?)
  {
    InitInv(tasks, workers);
    RunKeeps(Init(tasks, workers), ls);
    var s := Final(Init(tasks, workers), ls);
    CountedAll(s.jobs);
  }

  /** The notification can come after the caller's return exactly in calls with a task and a worker. */
  lemma {:induction false} LateExactly(tasks: nat, workers: nat)
    ensures (exists ls :: Run(Init(tasks, workers), ls) && Late(Final(Init(tasks, workers), ls)))
       <==> tasks > 0 && workers > 0
  {
    hide Run, Final, Late, Init;
    if tasks > 0 && workers > 0 {
      var ls := LateRun(tasks, workers);
    }
    forall ls | Run(Init(tasks, workers), ls)
      ensures Late(Final(Init(tasks, workers), ls)) ==> tasks > 0 && workers > 0
    {
      Unfailing(tasks, workers, ls);
    }
  }

  /** A caller that missed the notification can be left waiting for ever exactly in the same calls. */
  lemma {:induction false} MissedExactly(tasks: nat, workers: nat)
    ensures (exists ls :: Run(Init(tasks, workers), ls) && LostToMiss(Final(Init(tasks, workers), ls)))
       <==> tasks > 0 && workers > 0
  {
    hide Run, Final, Lost, Init;
    if tasks > 0 && workers > 0 {
      var ls := MissedRun(tasks, workers);
    }
    forall ls | Run(Init(tasks, workers), ls)
      ensures Final(Init(tasks, workers), ls).missed ==> tasks > 0 && workers > 0
    {
      Unfailing(tasks, workers, ls);
    }
  }

  /** For whatever reason, it can be left waiting exactly when there is a task. */
  lemma {:induction false} LostExactly(tasks: nat, workers: nat)
    ensures (exists ls :: Run(Init(tasks, workers), ls) && Lost(Final(Init(tasks, workers), ls))) <==> tasks > 0
  {
    hide Run, Final, Stuck, Init;
    if tasks > 0 {
      var ls: seq<Label>;
      if workers > 0 {
        ls := MissedRun(tasks, workers);
      } else {
        ls := UnservedRun(tasks);
      }
    }
    forall ls | Run(Init(tasks, workers), ls) ensures Lost(Final(Init(tasks, workers), ls)) ==> tasks > 0 {
      Unfailing(tasks, workers, ls);
    }
  }

  /** It can return at all exactly when there is a worker or no task. */
  lemma {:induction false} ReturnsExactly(tasks: nat, workers: nat)
    ensures (exists ls :: Run(Init(tasks, workers), ls) && Final(Init(tasks, workers), ls).caller.Returned?)
       <==> tasks == 0 || workers > 0
  {
    hide Init;
    if tasks == 0 {
      assert Run(Init(tasks, workers), []);
      Unfailing(tasks, workers, []);
    } else if workers > 0 {
      var ls := LateRun(tasks, workers);
    }
    hide Run, Final;
    forall ls | Run(Init(tasks, workers), ls)
      ensures Final(Init(tasks, workers), ls).caller.Returned? ==> tasks == 0 || workers > 0
    {
      Unfailing(tasks, workers, ls);
    }
  }
}
