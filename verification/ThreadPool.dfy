/**
 * The bounded thread pool of `thrd_pool_c.c` as a step system: any number of callers adding
 * tasks, N workers on one condition variable, and one destroyer. A stretch of code that holds the
 * lock is one step; sleeping, waking and running a task are steps of their own.
 */
module ThreadPool {

  const INVALID: int := -1
  const QUEUE_FULL: int := -3
  const SHUTTING_DOWN: int := -4

  /** A function and its argument; function 0 is the null pointer. */
  datatype Task = Task(fn: nat, arg: nat)

  datatype Shutdown = Open | Immediate | Graceful

  /** Ready: about to take the lock. Asleep: in `pthread_cond_wait`. Awake: woken, about to retake the lock. */
  datatype Worker = Ready | Asleep | Awake | Running(task: Task, n: nat) | Exited

  /** The pool; `accepted`, `taken` and `done` record what happened and are read by nothing. */
  datatype Pool = Pool(
    queue: seq<Task>, head: nat, tail: nat, count: nat, shutdown: Shutdown, started: int,
    workers: seq<Worker>, accepted: seq<Task>, taken: seq<Task>, done: set<nat>)

  datatype Action =
    | Add(task: Task, woken: nat)       // `threadpool_add`; a signal wakes worker `woken`
    | Destroy(graceful: bool)           // `threadpool_destroy` up to its joins
    | Lock(w: nat)                      // a worker's stretch under the lock
    | Finish(w: nat)                    // its task returns
    | Stir(w: nat)                      // a spurious wake-up

  ghost predicate Init(s: Pool) {
    && |s.queue| > 0 && |s.workers| > 0
    && s.head == 0 && s.tail == 0 && s.count == 0 && s.shutdown == Open && s.started == |s.workers|
    && (forall w | 0 <= w < |s.workers| :: s.workers[w] == Ready)
    && s.accepted == [] && s.taken == [] && s.done == {}
  }

  ghost predicate AnyAsleep(ws: seq<Worker>) {
    exists w :: 0 <= w < |ws| && ws[w] == Asleep
  }

  /** A signal wakes a sleeper if there is one; only one destroy is made. */
  ghost predicate Enabled(s: Pool, a: Action) {
    match a
    case Add(task, woken) => AnyAsleep(s.workers) ==> woken < |s.workers| && s.workers[woken] == Asleep
    case Destroy(_) => s.shutdown == Open
    case Lock(w) => w < |s.workers| && (s.workers[w] == Ready || s.workers[w] == Awake)
    case Finish(w) => w < |s.workers| && s.workers[w].Running?
    case Stir(w) => w < |s.workers| && s.workers[w] == Asleep
  }

  /** What `threadpool_add` answers: the full test comes before the shutdown test. */
  function AddAnswer(s: Pool, task: Task): int {
    if task.fn == 0 then INVALID
    else if s.count == |s.queue| then QUEUE_FULL
    else if s.shutdown != Open then SHUTTING_DOWN
    else 0
  }

  ghost function DoAdd(s: Pool, task: Task, woken: nat): Pool
    requires Enabled(s, Add(task, woken)) && |s.queue| > 0 && s.tail < |s.queue|
  {
    if AddAnswer(s, task) != 0 then s
    else
      s.(queue := s.queue[s.tail := task], tail := (s.tail + 1) % |s.queue|, count := s.count + 1,
         workers := if AnyAsleep(s.workers) then s.workers[woken := Awake] else s.workers,
         accepted := s.accepted + [task])
  }

  function Roused(ws: seq<Worker>): (r: seq<Worker>)
    ensures |r| == |ws| && forall w | 0 <= w < |ws| :: r[w] == if ws[w] == Asleep then Awake else ws[w]
  {
    seq(|ws|, w requires 0 <= w < |ws| => if ws[w] == Asleep then Awake else ws[w])
  }

  function DoDestroy(s: Pool, graceful: bool): Pool {
    s.(shutdown := if graceful then Graceful else Immediate, workers := Roused(s.workers))
  }

  /** The worker's test loop and the branch after it. */
  function DoLock(s: Pool, w: nat): Pool
    requires w < |s.workers| && |s.queue| > 0 && s.head < |s.queue|
  {
    if s.count == 0 && s.shutdown.Open? then s.(workers := s.workers[w := Asleep])
    else if s.shutdown.Immediate? || (s.shutdown.Graceful? && s.count == 0) then
      s.(workers := s.workers[w := Exited], started := s.started - 1)
    else
      var task := s.queue[s.head];
      s.(head := (s.head + 1) % |s.queue|, count := s.count - 1,
         workers := s.workers[w := Running(task, |s.taken|)], taken := s.taken + [task])
  }

  function DoFinish(s: Pool, w: nat): Pool
    requires w < |s.workers| && s.workers[w].Running?
  {
    s.(workers := s.workers[w := Ready], done := s.done + {s.workers[w].n})
  }

  ghost function Do(s: Pool, a: Action): Pool
    requires Enabled(s, a) && |s.queue| > 0 && s.tail < |s.queue| && s.head < |s.queue|
  {
    match a
    case Add(task, woken) => DoAdd(s, task, woken)
    case Destroy(graceful) => DoDestroy(s, graceful)
    case Lock(w) => DoLock(s, w)
    case Finish(w) => DoFinish(s, w)
    case Stir(w) => s.(workers := s.workers[w := Awake])
  }

  ghost predicate Step(s: Pool, a: Action, s': Pool) {
    && Enabled(s, a) && |s.queue| > 0 && s.tail < |s.queue| && s.head < |s.queue| && s' == Do(s, a)
  }

  /** A stretch of a run: consecutive steps from any state. */
  ghost predicate Steps(trace: seq<Pool>, acts: seq<Action>) {
    && |trace| == |acts| + 1
    && forall i {:trigger acts[i]} | 0 <= i < |acts| :: Step(trace[i], acts[i], trace[i + 1])
  }

  ghost predicate Run(trace: seq<Pool>, acts: seq<Action>) {
    Steps(trace, acts) && Init(trace[0])
  }

  // ---------------------------------------------------------------- tallies over workers

  datatype Tally = Eager | Alive | Load

  /** Eager workers are about to take the lock; alive ones have not exited; a load bounds the steps left. */
  function Weight(t: Tally, w: Worker): nat {
    match t
    case Eager => if w == Ready || w == Awake then 1 else 0
    case Alive => if w == Exited then 0 else 1
    case Load => if w == Exited then 0 else if w.Running? then 2 else 1
  }

  function Total(t: Tally, ws: seq<Worker>): nat {
    if ws == [] then 0 else Total(t, ws[..|ws| - 1]) + Weight(t, ws[|ws| - 1])
  }

  lemma {:induction false} TotalSet(t: Tally, ws: seq<Worker>, w: nat, x: Worker)
    requires w < |ws|
    ensures Total(t, ws[w := x]) == Total(t, ws) - Weight(t, ws[w]) + Weight(t, x)
  {
    var last := |ws| - 1;
    if w < last {
      assert ws[w := x][..last] == ws[..last][w := x];
      TotalSet(t, ws[..last], w, x);
    } else {
      assert ws[w := x][..last] == ws[..last];
    }
  }

  lemma {:induction false} TotalAtLeast(t: Tally, ws: seq<Worker>, w: nat)
    requires w < |ws|
    ensures Total(t, ws) >= Weight(t, ws[w])
  {
    if w < |ws| - 1 {
      TotalAtLeast(t, ws[..|ws| - 1], w);
    }
  }

  lemma {:induction false} TotalZero(t: Tally, ws: seq<Worker>)
    requires forall w | 0 <= w < |ws| :: Weight(t, ws[w]) == 0
    ensures Total(t, ws) == 0
  {
    if ws != [] {
      TotalZero(t, ws[..|ws| - 1]);
    }
  }

  lemma {:induction false} SomeWeight(t: Tally, ws: seq<Worker>) returns (w: nat)
    requires Total(t, ws) > 0
    ensures w < |ws| && Weight(t, ws[w]) > 0
  {
    if Weight(t, ws[|ws| - 1]) > 0 {
      w := |ws| - 1;
    } else {
      w := SomeWeight(t, ws[..|ws| - 1]);
    }
  }

  lemma {:induction false} TotalAllReady(ws: seq<Worker>)
    requires forall w | 0 <= w < |ws| :: ws[w] == Ready
    ensures Total(Alive, ws) == |ws|
  {
    if ws != [] {
      TotalAllReady(ws[..|ws| - 1]);
    }
  }

  lemma {:induction false} TotalRoused(t: Tally, ws: seq<Worker>)
    requires t != Eager
    ensures Total(t, Roused(ws)) == Total(t, ws)
  {
    if ws != [] {
      TotalRoused(t, ws[..|ws| - 1]);
      assert Roused(ws)[..|ws| - 1] == Roused(ws[..|ws| - 1]);
    }
  }

  // ---------------------------------------------------------------- the ring

  /** The slot `i` places after `head`, on this lap or the next. */
  function Slot(head: nat, i: nat, n: nat): nat {
    if head + i < n then head + i else head + i - n
  }

  lemma Remainder(x: nat, n: nat)
    requires n > 0 && x < 2 * n
    ensures x % n == if x < n then x else x - n
  {
    if x >= n {
      assert (x - n) / n == 0;
    }
  }

  lemma SlotIsRemainder(head: nat, i: nat, n: nat)
    requires head < n && i <= n
    ensures (head + i) % n == Slot(head, i, n)
  {
    Remainder(head + i, n);
  }

  /** The ring holds the accepted tasks not yet taken, oldest at `head`. */
  ghost predicate RingOk(s: Pool) {
    && |s.queue| > 0 && s.head < |s.queue| && s.count <= |s.queue|
    && s.tail == Slot(s.head, s.count, |s.queue|) < |s.queue|
    && s.taken <= s.accepted && |s.accepted| == |s.taken| + s.count
    && (forall i | 0 <= i < s.count :: Holds(s.queue, s.head, i, s.accepted, |s.taken|))
  }

  ghost predicate Holds(queue: seq<Task>, head: nat, i: nat, accepted: seq<Task>, from: nat) {
    && Slot(head, i, |queue|) < |queue| && from + i < |accepted|
    && queue[Slot(head, i, |queue|)] == accepted[from + i]
  }

  lemma AddKeepsRing(s: Pool, task: Task, woken: nat)
    requires RingOk(s) && Enabled(s, Add(task, woken))
    ensures RingOk(DoAdd(s, task, woken))
  {
    if AddAnswer(s, task) == 0 {
      var t := DoAdd(s, task, woken);
      SlotIsRemainder(s.tail, 1, |s.queue|);
      forall i | 0 <= i < t.count
        ensures Holds(t.queue, t.head, i, t.accepted, |t.taken|)
      {
        assert i < s.count ==> Holds(s.queue, s.head, i, s.accepted, |s.taken|);
      }
    }
  }

  lemma LockKeepsRing(s: Pool, w: nat)
    requires RingOk(s) && w < |s.workers|
    ensures RingOk(DoLock(s, w))
  {
    var t := DoLock(s, w);
    if t.taken != s.taken {
      SlotIsRemainder(s.head, 1, |s.queue|);
      assert Holds(s.queue, s.head, 0, s.accepted, |s.taken|);
      forall i | 0 <= i < t.count
        ensures Holds(t.queue, t.head, i, t.accepted, |t.taken|)
      {
        assert Holds(s.queue, s.head, i + 1, s.accepted, |s.taken|);
      }
    }
  }

  // ---------------------------------------------------------------- the workers

  /** The tasks taken and not done are those being run, each by one worker. */
  ghost predicate TasksOk(s: Pool) {
    && (forall w | 0 <= w < |s.workers| && s.workers[w].Running? ::
          var n := s.workers[w].n; n < |s.taken| && n !in s.done && s.taken[n] == s.workers[w].task)
    && (forall v, w | 0 <= v < w < |s.workers| && s.workers[v].Running? && s.workers[w].Running? ::
          s.workers[v].n != s.workers[w].n)
    && (forall n | n in s.done :: n < |s.taken|)
    && (forall n: nat | n < |s.taken| :: n in s.done || Held(s.workers, n))
  }

  ghost predicate Held(ws: seq<Worker>, n: nat) {
    exists w :: 0 <= w < |ws| && ws[w].Running? && ws[w].n == n
  }

  /** No wake-up is lost: while someone sleeps, as many are eager as tasks wait. */
  ghost predicate WorkersOk(s: Pool) {
    && s.started == Total(Alive, s.workers)
    && (AnyAsleep(s.workers) ==> s.shutdown == Open && Total(Eager, s.workers) >= s.count)
    && (s.shutdown == Open ==> forall w | 0 <= w < |s.workers| :: s.workers[w] != Exited)
    && (s.shutdown == Graceful && s.count > 0 ==> forall w | 0 <= w < |s.workers| :: s.workers[w] != Exited)
  }

  ghost predicate Inv(s: Pool) {
    RingOk(s) && TasksOk(s) && WorkersOk(s) && |s.workers| > 0
  }

  lemma InitInv(s: Pool)
    requires Init(s)
    ensures Inv(s)
  {
    TotalAllReady(s.workers);
  }

  lemma HeldSet(ws: seq<Worker>, w: nat, x: Worker, n: nat)
    requires w < |ws| && Held(ws, n)
    ensures (ws[w].Running? && ws[w].n == n) || Held(ws[w := x], n)
  {
    var v :| 0 <= v < |ws| && ws[v].Running? && ws[v].n == n;
    assert v != w ==> ws[w := x][v] == ws[v];
  }

  /** Changing a worker that runs nothing into one that runs nothing. */
  lemma IdleKeepsTasks(s: Pool, w: nat, x: Worker)
    requires TasksOk(s) && w < |s.workers| && !s.workers[w].Running? && !x.Running?
    ensures TasksOk(s.(workers := s.workers[w := x]))
  {
    forall n: nat | n < |s.taken|
      ensures n in s.done || Held(s.workers[w := x], n)
    {
      if n !in s.done {
        HeldSet(s.workers, w, x, n);
      }
    }
  }

  lemma RousedKeepsTasks(s: Pool)
    requires TasksOk(s)
    ensures TasksOk(s.(workers := Roused(s.workers)))
  {
    forall n: nat | n < |s.taken|
      ensures n in s.done || Held(Roused(s.workers), n)
    {
      if n !in s.done {
        var v :| 0 <= v < |s.workers| && s.workers[v].Running? && s.workers[v].n == n;
        assert Roused(s.workers)[v] == s.workers[v];
      }
    }
  }

  lemma LockKeepsTasks(s: Pool, w: nat)
    requires TasksOk(s) && RingOk(s) && Enabled(s, Lock(w))
    ensures TasksOk(DoLock(s, w))
  {
    var t := DoLock(s, w);
    if t.taken == s.taken {
      IdleKeepsTasks(s, w, t.workers[w]);
    } else {
      forall n: nat | n < |t.taken|
        ensures n in t.done || Held(t.workers, n)
      {
        if n == |s.taken| {
          assert t.workers[w].n == n;
        } else if n !in s.done {
          HeldSet(s.workers, w, t.workers[w], n);
        }
      }
    }
  }

  lemma FinishKeepsTasks(s: Pool, w: nat)
    requires TasksOk(s) && Enabled(s, Finish(w))
    ensures TasksOk(DoFinish(s, w))
  {
    var t := DoFinish(s, w);
    forall n: nat | n < |t.taken|
      ensures n in t.done || Held(t.workers, n)
    {
      if n !in t.done {
        HeldSet(s.workers, w, Ready, n);
      }
    }
  }

  /** One worker changes; the tallies follow. */
  lemma Tallies(ws: seq<Worker>, w: nat, x: Worker)
    requires w < |ws|
    ensures Total(Alive, ws[w := x]) == Total(Alive, ws) - Weight(Alive, ws[w]) + Weight(Alive, x)
    ensures Total(Eager, ws[w := x]) == Total(Eager, ws) - Weight(Eager, ws[w]) + Weight(Eager, x)
    ensures x != Asleep && AnyAsleep(ws[w := x]) ==> AnyAsleep(ws)
  {
    TotalSet(Alive, ws, w, x);
    TotalSet(Eager, ws, w, x);
    if x != Asleep && AnyAsleep(ws[w := x]) {
      var v :| 0 <= v < |ws| && ws[w := x][v] == Asleep;
      assert ws[v] == Asleep;
    }
  }

  lemma AddKeepsWorkers(s: Pool, task: Task, woken: nat)
    requires WorkersOk(s) && RingOk(s) && Enabled(s, Add(task, woken))
    ensures WorkersOk(DoAdd(s, task, woken))
  {
    if AnyAsleep(s.workers) {
      Tallies(s.workers, woken, Awake);
    }
  }

  lemma LockKeepsWorkers(s: Pool, w: nat)
    requires WorkersOk(s) && RingOk(s) && Enabled(s, Lock(w))
    ensures WorkersOk(DoLock(s, w))
  {
    Tallies(s.workers, w, DoLock(s, w).workers[w]);
  }

  lemma OthersKeepWorkers(s: Pool, a: Action)
    requires WorkersOk(s) && RingOk(s) && Enabled(s, a) && (a.Finish? || a.Stir? || a.Destroy?)
    ensures WorkersOk(Do(s, a))
  {
    match a
    case Destroy(_) =>
      TotalRoused(Alive, s.workers);
    case Finish(w) =>
      Tallies(s.workers, w, Ready);
    case Stir(w) =>
      Tallies(s.workers, w, Awake);
  }

  lemma StepKeeps(s: Pool, a: Action, s': Pool)
    requires Inv(s) && Step(s, a, s')
    ensures Inv(s')
  {
    match a
    case Add(task, woken) =>
      AddKeepsRing(s, task, woken);
      AddKeepsWorkers(s, task, woken);
      if AddAnswer(s, task) == 0 && AnyAsleep(s.workers) {
        IdleKeepsTasks(s, woken, Awake);
      }
    case Destroy(_) =>
      OthersKeepWorkers(s, a);
      RousedKeepsTasks(s);
    case Lock(w) =>
      LockKeepsRing(s, w);
      LockKeepsTasks(s, w);
      LockKeepsWorkers(s, w);
    case Finish(w) =>
      FinishKeepsTasks(s, w);
      OthersKeepWorkers(s, a);
    case Stir(w) =>
      IdleKeepsTasks(s, w, Awake);
      OthersKeepWorkers(s, a);
  }

  lemma {:induction false} RunInv(trace: seq<Pool>, acts: seq<Action>, n: nat)
    requires Run(trace, acts) && n < |trace|
    ensures Inv(trace[n])
  {
    if n == 0 {
      InitInv(trace[0]);
    } else {
      RunInv(trace, acts, n - 1);
      StepKeeps(trace[n - 1], acts[n - 1], trace[n]);
    }
  }

  // ---------------------------------------------------------------- what holds in every run

  /** The ring: where `tail` is, and that the slots from `head` hold the tasks still to be taken. */
  lemma RingInEveryRun(trace: seq<Pool>, acts: seq<Action>, n: nat)
    requires Run(trace, acts) && n < |trace|
    ensures var s := trace[n];
            && |s.queue| > 0 && s.tail == (s.head + s.count) % |s.queue| && |s.taken| <= |s.accepted|
            && s.accepted == s.taken + s.accepted[|s.taken|..] && |s.accepted[|s.taken|..]| == s.count
            && forall i: nat {:trigger s.accepted[|s.taken|..][i]} | i < s.count ::
                 s.queue[(s.head + i) % |s.queue|] == s.accepted[|s.taken|..][i]
  {
    RunInv(trace, acts, n);
    var s := trace[n];
    SlotIsRemainder(s.head, s.count, |s.queue|);
    forall i: nat {:trigger s.accepted[|s.taken|..][i]} | i < s.count
      ensures s.queue[(s.head + i) % |s.queue|] == s.accepted[|s.taken|..][i]
    {
      SlotIsRemainder(s.head, i, |s.queue|);
      assert Holds(s.queue, s.head, i, s.accepted, |s.taken|);
    }
  }

  /**
   * What `threadpool_add` answers in every run: 0 exactly when the task joins the accepted ones, and
   * otherwise nothing changes; full, even while shutting down, exactly when as many accepted tasks as
   * there are places wait to be taken.
   */
  lemma AddAnswers(trace: seq<Pool>, acts: seq<Action>, n: nat)
    requires Run(trace, acts) && n < |acts| && acts[n].Add?
    ensures var s, s', task := trace[n], trace[n + 1], acts[n].task;
            var answer, waiting := AddAnswer(s, task), |s.accepted| - |s.taken|;
            && (answer == 0 <==> s'.accepted == s.accepted + [task])
            && (answer == 0 <==> task.fn != 0 && waiting < |s.queue| && s.shutdown == Open)
            && (answer == INVALID <==> task.fn == 0)
            && (answer != 0 ==> s' == s)
            && (task.fn != 0 ==> (answer == QUEUE_FULL <==> waiting == |s.queue|))
            && (task.fn != 0 && waiting < |s.queue| ==> (answer == SHUTTING_DOWN <==> s.shutdown != Open))
  {
    RunInv(trace, acts, n);
    assert Step(trace[n], acts[n], trace[n + 1]);
    assert |trace[n].accepted + [acts[n].task]| == |trace[n].accepted| + 1;
  }

  /** Every taken task is the oldest accepted one then left, and is run once, by one worker. */
  lemma TakenInOrderRunOnce(trace: seq<Pool>, acts: seq<Action>, n: nat)
    requires Run(trace, acts) && n < |trace|
    ensures trace[n].taken <= trace[n].accepted && TasksOk(trace[n])
  {
    RunInv(trace, acts, n);
  }

  /** A waiting task or a shutdown never finds every worker asleep; nor is a wake-up lost. */
  lemma NeverAllAsleep(trace: seq<Pool>, acts: seq<Action>, n: nat)
    requires Run(trace, acts) && n < |trace|
    ensures var s := trace[n];
            && (s.shutdown != Open ==> !AnyAsleep(s.workers))
            && (s.count > 0 && AnyAsleep(s.workers) ==>
                  exists w :: 0 <= w < |s.workers| && (s.workers[w] == Ready || s.workers[w] == Awake))
            && (s.count > 0 ==> exists w :: 0 <= w < |s.workers| && s.workers[w] != Asleep)
  {
    RunInv(trace, acts, n);
    var s := trace[n];
    if s.count > 0 && AnyAsleep(s.workers) {
      var w := SomeWeight(Eager, s.workers);
    } else if s.count > 0 {
      assert s.workers[0] != Asleep;
    }
  }

  ghost predicate AllExited(s: Pool) {
    forall w | 0 <= w < |s.workers| :: s.workers[w] == Exited
  }

  lemma ShutdownStays(s: Pool, a: Action, s': Pool)
    requires Step(s, a, s')
    ensures !a.Destroy? ==> s'.shutdown == s.shutdown
    ensures s.shutdown != Open ==> !a.Destroy? && s'.accepted == s.accepted
    ensures s.shutdown == Immediate ==> s'.taken == s.taken
  {
  }

  /** The destroy made at step `n` decides the kind of shutdown for good; before it the pool is open. */
  lemma {:induction false} DestroyDecides(trace: seq<Pool>, acts: seq<Action>, n: nat, m: nat)
    requires Run(trace, acts) && n < |acts| && acts[n].Destroy? && n < m < |trace|
    ensures trace[n].shutdown == Open
    ensures trace[m].shutdown == if acts[n].graceful then Graceful else Immediate
  {
    assert Step(trace[n], acts[n], trace[n + 1]);
    if m > n + 1 {
      DestroyDecides(trace, acts, n, m - 1);
      assert Step(trace[m - 1], acts[m - 1], trace[m]);
      ShutdownStays(trace[m - 1], acts[m - 1], trace[m]);
    }
  }

  /** Workers exit only after a destroy. */
  lemma {:induction false} OpenUntilDestroy(trace: seq<Pool>, acts: seq<Action>, m: nat)
    requires Run(trace, acts) && m < |trace| && forall n | 0 <= n < m :: !acts[n].Destroy?
    ensures trace[m].shutdown == Open
  {
    if m > 0 {
      OpenUntilDestroy(trace, acts, m - 1);
      assert Step(trace[m - 1], acts[m - 1], trace[m]);
      ShutdownStays(trace[m - 1], acts[m - 1], trace[m]);
    }
  }

  lemma GracefulDone(s: Pool)
    requires Inv(s) && AllExited(s) && s.shutdown == Graceful
    ensures s.count == 0 && s.taken == s.accepted
    ensures forall i: nat :: i in s.done <==> i < |s.accepted|
  {
    assert s.workers[0] == Exited;
    assert forall i: nat | i < |s.taken| :: !Held(s.workers, i);
  }

  /**
   * Once the joins return, no worker is counted and a destroy was made; if it was a graceful one,
   * every accepted task has been taken and has ended.
   */
  lemma GracefulEnd(trace: seq<Pool>, acts: seq<Action>, n: nat, m: nat)
    requires Run(trace, acts) && n < m < |trace| && acts[n] == Destroy(true) && AllExited(trace[m])
    ensures trace[m].started == 0 && trace[m].count == 0 && trace[m].taken == trace[m].accepted
    ensures forall i: nat :: i in trace[m].done <==> i < |trace[m].accepted|
  {
    RunInv(trace, acts, m);
    DestroyDecides(trace, acts, n, m);
    TotalZero(Alive, trace[m].workers);
    GracefulDone(trace[m]);
  }

  /** All workers have exited only after a destroy, and then none is counted. */
  lemma ExitedAfterDestroy(trace: seq<Pool>, acts: seq<Action>, m: nat)
    requires Run(trace, acts) && m < |trace| && AllExited(trace[m])
    ensures trace[m].started == 0 && exists n :: 0 <= n < m && acts[n].Destroy?
  {
    RunInv(trace, acts, m);
    TotalZero(Alive, trace[m].workers);
    assert trace[m].workers[0] == Exited;
    if forall n | 0 <= n < m :: !acts[n].Destroy? {
      OpenUntilDestroy(trace, acts, m);
    }
  }

  /** From an immediate destroy on no task is taken and none is accepted. */
  lemma {:induction false} ImmediateTakesNone(trace: seq<Pool>, acts: seq<Action>, n: nat, m: nat)
    requires Run(trace, acts) && n < m < |trace| && acts[n] == Destroy(false)
    ensures trace[m].taken == trace[n].taken && trace[m].accepted == trace[n].accepted
  {
    if m == n + 1 {
      assert Step(trace[n], acts[n], trace[m]);
    } else {
      ImmediateTakesNone(trace, acts, n, m - 1);
      DestroyDecides(trace, acts, n, m - 1);
      assert Step(trace[m - 1], acts[m - 1], trace[m]);
      ShutdownStays(trace[m - 1], acts[m - 1], trace[m]);
    }
  }

  /**
   * What a worker does under the lock, in every run: it takes the oldest accepted task left, unless
   * there is none or an immediate shutdown was made; then it sleeps while the pool is open and exits
   * otherwise.
   */
  lemma WorkerTurn(trace: seq<Pool>, acts: seq<Action>, n: nat)
    requires Run(trace, acts) && n < |acts| && acts[n].Lock?
    ensures acts[n].w < |trace[n].workers| == |trace[n + 1].workers|
    ensures var s, s', w := trace[n], trace[n + 1], acts[n].w;
            if |s.taken| < |s.accepted| && s.shutdown != Immediate then
              && s'.taken == s.taken + [s.accepted[|s.taken|]] && s'.accepted == s.accepted
              && s'.workers[w] == Running(s.accepted[|s.taken|], |s.taken|)
            else
              && s'.taken == s.taken && s'.accepted == s.accepted
              && s'.workers[w] == if s.shutdown == Open then Asleep else Exited
  {
    RunInv(trace, acts, n);
    var s := trace[n];
    assert Step(s, acts[n], trace[n + 1]);
    if s.count > 0 {
      assert Holds(s.queue, s.head, 0, s.accepted, |s.taken|);
    }
  }

  // ---------------------------------------------------------------- shutdown ends

  /** A bound on the worker steps left once the pool is shutting down. */
  ghost function Remaining(s: Pool): nat {
    Total(Load, s.workers) + 2 * s.count
  }

  ghost predicate WorkerStep(a: Action) {
    a.Lock? || a.Finish?
  }

  ghost function WorkerSteps(acts: seq<Action>): nat {
    if acts == [] then 0
    else WorkerSteps(acts[..|acts| - 1]) + if WorkerStep(acts[|acts| - 1]) then 1 else 0
  }

  lemma ShutdownStep(s: Pool, a: Action, s': Pool)
    requires Inv(s) && s.shutdown != Open && Step(s, a, s')
    ensures s'.shutdown == s.shutdown
    ensures if WorkerStep(a) then Remaining(s') < Remaining(s) else s' == s
  {
    match a
    case Lock(w) =>
      TotalSet(Load, s.workers, w, s'.workers[w]);
    case Finish(w) =>
      TotalSet(Load, s.workers, w, Ready);
    case _ =>
  }

  /** From a shutdown on, workers make at most `Remaining` steps, and one can step until all have exited. */
  lemma {:induction false} ShutdownEnds(trace: seq<Pool>, acts: seq<Action>)
    requires Steps(trace, acts) && Inv(trace[0]) && trace[0].shutdown != Open
    ensures WorkerSteps(acts) + Remaining(trace[|acts|]) <= Remaining(trace[0])
    ensures Inv(trace[|acts|]) && trace[|acts|].shutdown == trace[0].shutdown
    ensures AllExited(trace[|acts|]) || exists a :: WorkerStep(a) && Enabled(trace[|acts|], a)
  {
    if acts != [] {
      var m := |acts| - 1;
      ShutdownEnds(trace[..|acts|], acts[..m]);
      assert trace[..|acts|][m] == trace[m];
      StepKeeps(trace[m], acts[m], trace[m + 1]);
      ShutdownStep(trace[m], acts[m], trace[m + 1]);
    }
    var s := trace[|acts|];
    if w :| 0 <= w < |s.workers| && s.workers[w] != Exited {
      assert !AnyAsleep(s.workers);
      var a := if s.workers[w].Running? then Finish(w) else Lock(w);
      assert WorkerStep(a) && Enabled(s, a);
    }
  }
}
