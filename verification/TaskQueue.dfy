/** The task queue one consumer drains, with tasks that add tasks while they run, and its variant with
    a time budget. */
module TaskQueue {

  /** What happens to a task once it has left the queue. */
  datatype Event<T> = Ran(task: T) | Disposed(task: T)

  /** The tasks added while the first `n` tasks ran, in order: `arrivals[k]` while task `k` did. */
  function Arrived<T>(arrivals: seq<seq<T>>, n: nat): seq<T> {
    if n == 0 then [] else Arrived(arrivals, n - 1) + if n <= |arrivals| then arrivals[n - 1] else []
  }

  /** Each task run once and then disposed once, in order. */
  function RunEach<T>(tasks: seq<T>): (events: seq<Event<T>>)
    ensures |events| == 2 * |tasks|
    ensures forall k :: 0 <= k < |tasks| ==> events[2 * k] == Ran(tasks[k]) && events[2 * k + 1] == Disposed(tasks[k])
  {
    if tasks == [] then [] else RunEach(tasks[..|tasks| - 1]) + [Ran(tasks[|tasks| - 1]), Disposed(tasks[|tasks| - 1])]
  }

  lemma RunEachNext<T>(tasks: seq<T>, task: T)
    ensures RunEach(tasks + [task]) == RunEach(tasks) + [Ran(task), Disposed(task)]
    ensures RunEach<T>([]) == []
  {
    assert (tasks + [task])[..|tasks|] == tasks;
  }

  function RunOnly<T>(tasks: seq<T>): (events: seq<Event<T>>)
    ensures |events| == |tasks| && forall k :: 0 <= k < |tasks| ==> events[k] == Ran(tasks[k])
  {
    seq(|tasks|, k requires 0 <= k < |tasks| => Ran(tasks[k]))
  }

  function DisposeEach<T>(tasks: seq<T>): (events: seq<Event<T>>)
    ensures |events| == |tasks| && forall k :: 0 <= k < |tasks| ==> events[k] == Disposed(tasks[k])
  {
    seq(|tasks|, k requires 0 <= k < |tasks| => Disposed(tasks[k]))
  }

  /** `done` are the first tasks of all that were queued or added meanwhile, `left` are the others, and
      there was a task in the queue each time one was taken. */
  ghost predicate Processed<T>(queue: seq<T>, arrivals: seq<seq<T>>, done: seq<T>, left: seq<T>) {
    && queue + Arrived(arrivals, |done|) == done + left
    && forall j :: 0 <= j < |done| ==> j < |queue| + |Arrived(arrivals, j)|
  }

  lemma NothingProcessed<T>(queue: seq<T>, arrivals: seq<seq<T>>)
    ensures Processed(queue, arrivals, [], queue)
  {
    assert queue + Arrived(arrivals, 0) == [] + queue;
  }

  /** Taking one more task, and queueing what is added while it runs. */
  lemma ProcessOneMore<T>(queue: seq<T>, arrivals: seq<seq<T>>, done: seq<T>, left: seq<T>)
    requires Processed(queue, arrivals, done, left) && left != []
    ensures
      var n := |done|;
      var added := if n < |arrivals| then arrivals[n] else [];
      Processed(queue, arrivals, done + [left[0]], left[1..] + added)
  {
    var n := |done|;
    var added := if n < |arrivals| then arrivals[n] else [];
    assert n < |queue| + |Arrived(arrivals, n)| by {
      assert |queue + Arrived(arrivals, n)| == |done + left|;
    }
    calc {
      queue + Arrived(arrivals, n + 1);
      queue + (Arrived(arrivals, n) + added);
      queue + Arrived(arrivals, n) + added;
      done + left + added;
      { assert left == [left[0]] + left[1..]; }
      (done + [left[0]]) + (left[1..] + added);
    }
  }

  /** No task is lost, duplicated or invented. */
  lemma ProcessedConserves<T>(queue: seq<T>, arrivals: seq<seq<T>>, done: seq<T>, left: seq<T>)
    requires Processed(queue, arrivals, done, left)
    ensures multiset(queue) + multiset(Arrived(arrivals, |done|)) == multiset(done) + multiset(left)
  {
    assert multiset(queue + Arrived(arrivals, |done|)) == multiset(done + left);
  }

  lemma {:induction false} ArrivedGrows<T>(arrivals: seq<seq<T>>, m: nat, n: nat)
    requires m <= n
    ensures Arrived(arrivals, m) <= Arrived(arrivals, n)
    decreases n
  {
    if m < n {
      ArrivedGrows(arrivals, m, n - 1);
    }
  }

  /** Whoever stops earlier has processed a prefix: in particular a call with a budget runs a prefix of
      what draining the queue would run, and draining it has only one outcome. */
  lemma EarlierIsPrefix<T>(queue: seq<T>, arrivals: seq<seq<T>>, done: seq<T>, left: seq<T>, drained: seq<T>)
    requires Processed(queue, arrivals, done, left) && Processed(queue, arrivals, drained, [])
    ensures done <= drained
  {
    var m, n := |done|, |drained|;
    assert |queue + Arrived(arrivals, n)| == |drained + []|;
    assert m <= n;
    ArrivedGrows(arrivals, m, n);
    assert drained + [] == drained;
    assert done == (done + left)[..m];
    assert queue + Arrived(arrivals, m) <= queue + Arrived(arrivals, n);
  }

  // ---- Time --------------------------------------------------------------------------------

  /** Division that truncates toward zero. */
  function Quotient(a: int, b: int): int
    requires b > 0
  {
    if a >= 0 then a / b else -((-a) / b)
  }

  /** Microseconds from the first reading of the clock to reading `k`. */
  function Elapsed(clock: nat -> int, frequency: int, k: nat): int
    requires frequency > 0
  {
    Quotient((clock(k) - clock(0)) * 1000000, frequency)
  }

  /** At reading `k` no more than the budget has passed since the reading at the start of the call: a part
      of a microsecond does not count. */
  predicate Within(clock: nat -> int, frequency: int, budget: int, k: nat) {
    var scaled := (clock(k) - clock(0)) * 1000000;
    if budget >= 0 then scaled < (budget + 1) * frequency else scaled <= budget * frequency
  }

  lemma Euclid(a: int, c: int)
    requires c > 0
    ensures a / c * c + a % c == a && 0 <= a % c < c
  {
  }

  lemma AtLeastOnce(x: int, c: int)
    requires x >= 1 && c > 0
    ensures x * c >= c
  {
  }

  lemma Difference(x: int, y: int, c: int)
    ensures (x - y) * c == x * c - y * c
  {
  }

  lemma Product(x: int, y: int, c: int)
    requires c > 0
    ensures x <= y <==> x * c <= y * c
  {
    if x < y {
      AtLeastOnce(y - x, c);
      Difference(y, x, c);
    } else if y < x {
      AtLeastOnce(x - y, c);
      Difference(x, y, c);
    }
  }

  /** A quotient is at most `q` exactly below the next multiple. */
  lemma FloorAtMost(a: int, c: int, q: int)
    requires c > 0
    ensures a / c <= q <==> a < (q + 1) * c
  {
    Euclid(a, c);
    Product(a / c, q, c);
    Product(q + 1, a / c, c);
    assert (q + 1) * c == q * c + c;
  }

  lemma QuotientAtMost(a: int, c: int, q: int)
    requires c > 0
    ensures Quotient(a, c) <= q <==> if q >= 0 then a < (q + 1) * c else a <= q * c
  {
    if a >= 0 {
      FloorAtMost(a, c, q);
      Product(0, -q, c);
      Product(1, -q, c);
      assert -q * c == -(q * c);
    } else {
      FloorAtMost(-a, c, -q - 1);
      Product(0, q + 1, c);
      assert (-q - 1 + 1) * c == -(q * c);
    }
  }

  /** The comparison in the loop is that bound. */
  lemma ElapsedWithin(clock: nat -> int, frequency: int, budget: int, k: nat)
    requires frequency > 0
    ensures Elapsed(clock, frequency, k) <= budget <==> Within(clock, frequency, budget, k)
  {
    QuotientAtMost((clock(k) - clock(0)) * 1000000, frequency, budget);
  }

  class TaskQueue<T> {
    var queue: seq<T>
    ghost var trace: seq<Event<T>>

    constructor ()
      ensures queue == [] && trace == []
    {
      queue, trace := [], [];
    }

    method AddTask(task: T)
      modifies this
      ensures queue == old(queue) + [task] && trace == old(trace)
    {
      queue := queue + [task];
    }

    /** What happens from the end of one locked section to the beginning of the next: the task runs,
        others are added, and it is disposed. */
    method RunTask(task: T, added: seq<T>)
      modifies this
      ensures queue == old(queue) + added && trace == old(trace) + [Ran(task), Disposed(task)]
    {
      trace := trace + [Ran(task)];
      for i := 0 to |added|
        invariant queue == old(queue) + added[..i] && trace == old(trace) + [Ran(task)]
      {
        AddTask(added[i]);
      }
      trace := trace + [Disposed(task)];
    }

    /** Drains the queue. `arrivals` are the tasks that the running tasks, or anyone else meanwhile, add. */
    method ProcessTasks(arrivals: seq<seq<T>>) returns (ghost done: seq<T>)
      modifies this
      ensures queue == [] && Processed(old(queue), arrivals, done, [])
      ensures trace == old(trace) + RunEach(done)
    {
      hide Processed, Arrived, RunEach;
      done := [];
      NothingProcessed(queue, arrivals);
      var n := 0;
      while true
        invariant n == |done| && Processed(old(queue), arrivals, done, queue)
        invariant trace == old(trace) + RunEach(done)
        decreases if n < |arrivals| then |arrivals| - n else 0, |queue|
      {
        if queue == [] {
          break;
        }
        ProcessOneMore(old(queue), arrivals, done, queue);
        RunEachNext(done, queue[0]);
        var task := queue[0];
        queue := queue[1..];
        RunTask(task, if n < |arrivals| then arrivals[n] else []);
        done := done + [task];
        n := n + 1;
      }
    }

    /** Drains the queue until more than the budget has passed. The clock is read before the first task
        and after each one. */
    method ProcessTasksWithin(budget: int, clock: nat -> int, frequency: int, arrivals: seq<seq<T>>)
      returns (ghost done: seq<T>)
      requires frequency > 0
      modifies this
      ensures Processed(old(queue), arrivals, done, queue) && trace == old(trace) + RunEach(done)
      ensures queue == [] || !Within(clock, frequency, budget, |done|)
      ensures forall k :: 0 < k < |done| ==> Within(clock, frequency, budget, k)
      ensures old(queue) != [] ==> done != []
    {
      hide Processed, Arrived, RunEach, Elapsed, Within;
      done := [];
      NothingProcessed(queue, arrivals);
      var n := 0;
      while true
        invariant n == |done| && Processed(old(queue), arrivals, done, queue)
        invariant trace == old(trace) + RunEach(done)
        invariant forall k :: 0 < k <= n ==> Within(clock, frequency, budget, k)
        invariant n == 0 ==> queue == old(queue)
        decreases if n < |arrivals| then |arrivals| - n else 0, |queue|
      {
        if queue == [] {
          break;
        }
        ProcessOneMore(old(queue), arrivals, done, queue);
        RunEachNext(done, queue[0]);
        var task := queue[0];
        queue := queue[1..];
        RunTask(task, if n < |arrivals| then arrivals[n] else []);
        done := done + [task];
        n := n + 1;
        ElapsedWithin(clock, frequency, budget, n);
        if Elapsed(clock, frequency, n) > budget {
          break;
        }
      }
    }

    /** Disposes what is queued without running it. */
    method ClearTasks()
      modifies this
      ensures queue == [] && trace == old(trace) + DisposeEach(old(queue))
    {
      ghost var n := 0;
      while queue != []
        invariant n <= |old(queue)| && queue == old(queue)[n..]
        invariant trace == old(trace) + DisposeEach(old(queue)[..n])
        decreases |queue|
      {
        assert DisposeEach(old(queue)[..n + 1]) == DisposeEach(old(queue)[..n]) + [Disposed(queue[0])];
        trace := trace + [Disposed(queue[0])];
        queue := queue[1..];
        n := n + 1;
      }
      assert old(queue)[..n] == old(queue);
    }
  }

  /** The queue of tasks held by value: nothing is disposed. */
  class TaskQueueStatic<T> {
    var queue: seq<T>
    ghost var trace: seq<Event<T>>

    constructor ()
      ensures queue == [] && trace == []
    {
      queue, trace := [], [];
    }

    method ProcessTasks(arrivals: seq<seq<T>>) returns (ghost done: seq<T>)
      modifies this
      ensures queue == [] && Processed(old(queue), arrivals, done, [])
      ensures trace == old(trace) + RunOnly(done)
    {
      hide Processed, Arrived;
      done := [];
      NothingProcessed(queue, arrivals);
      var n := 0;
      while true
        invariant n == |done| && Processed(old(queue), arrivals, done, queue)
        invariant trace == old(trace) + RunOnly(done)
        decreases if n < |arrivals| then |arrivals| - n else 0, |queue|
      {
        if queue == [] {
          break;
        }
        ProcessOneMore(old(queue), arrivals, done, queue);
        var task := queue[0];
        queue := queue[1..];
        trace := trace + [Ran(task)];
        queue := queue + if n < |arrivals| then arrivals[n] else [];
        assert RunOnly(done + [task]) == RunOnly(done) + [Ran(task)];
        done := done + [task];
        n := n + 1;
      }
    }

    method ClearTasks()
      modifies this
      ensures queue == [] && trace == old(trace)
    {
      queue := [];
    }
  }

  // ---- Under a clock that does not go back --------------------------------------------------

  ghost predicate Monotone(clock: nat -> int) {
    forall j, k :: j <= k ==> clock(j) <= clock(k)
  }

  /** Once a reading is over the budget, every later one is. */
  lemma {:induction false} OverBudgetFromThenOn(clock: nat -> int, frequency: int, budget: int, n: nat)
    requires frequency > 0 && Monotone(clock) && !Within(clock, frequency, budget, n)
    ensures forall k :: n <= k ==> !Within(clock, frequency, budget, k)
  {
    forall k | n <= k ensures !Within(clock, frequency, budget, k) {
      Product(clock(n) - clock(0), clock(k) - clock(0), 1000000);
    }
  }

  /** Only differences of readings matter: a clock that started earlier gives the same answers. */
  lemma {:induction false} ShiftedClock(clock: nat -> int, frequency: int, budget: int, k: nat, shift: int)
    ensures Within((j: nat) => clock(j) + shift, frequency, budget, k) <==> Within(clock, frequency, budget, k)
  {
    var later := (j: nat) => clock(j) + shift;
    assert later(k) - later(0) == clock(k) - clock(0);
  }

  /** So under such a clock the budget alone decides how far a budgeted call gets: of the tasks that
      draining the queue would run after the first, it runs exactly those with the reading before them
      within the budget. */
  lemma {:induction false} BudgetDecides<T>(queue: seq<T>, arrivals: seq<seq<T>>, done: seq<T>, left: seq<T>,
                                            drained: seq<T>, clock: nat -> int, frequency: int, budget: int)
    requires frequency > 0 && Monotone(clock)
    requires Processed(queue, arrivals, done, left) && Processed(queue, arrivals, drained, [])
    // what `ProcessTasksWithin` ensures
    requires left == [] || !Within(clock, frequency, budget, |done|)
    requires forall k :: 0 < k < |done| ==> Within(clock, frequency, budget, k)
    ensures done <= drained
    ensures forall k :: 0 < k < |drained| ==> (k < |done| <==> Within(clock, frequency, budget, k))
  {
    EarlierIsPrefix(queue, arrivals, done, left, drained);
    if left == [] {
      EarlierIsPrefix(queue, arrivals, drained, [], done);
    } else {
      OverBudgetFromThenOn(clock, frequency, budget, |done|);
    }
  }
}
