/**
 * The parallel check queue. One master and any number of workers share a queue under a mutex and two condition
 * variables. What a thread does between taking and releasing the mutex is one atomic step; threads may wake
 * up from waiting at any time, notified or not.
 */
module CheckQueueProtocol {
  import opened Wrappers

  /** A verification and what it will find. */
  datatype Check = Check(id: nat, passes: bool)

  /** Where a thread is: not in the loop, holding the mutex, waiting, or working on its own batch. */
  datatype Thread =
    | Outside
    | Holding
    | Waiting(notified: bool)
    | Working(batch: seq<Check>, ok: bool)

  /**
   * The queue's fields and its threads; thread 0 is the master. `added` and `done` are history: the checks
   * added, and those accounted for by the thread that took them, since the last time Wait returned.
   */
  datatype State = State(
    queue: seq<Check>,
    nIdle: int,
    nTotal: int,
    allOk: bool,
    nTodo: int,
    threads: seq<Thread>,
    added: multiset<Check>,
    done: multiset<Check>)

  datatype Config = Config(batchSize: nat, quit: bool)

  predicate AllPass(checks: multiset<Check>)
  {
    forall c :: c in checks ==> c.passes
  }

  function Result(batch: seq<Check>, ok: bool): bool
  {
    ok && AllPass(multiset(batch))
  }

  // ----- what the threads hold, counted over all threads

  function Idle(ts: seq<Thread>): nat
  {
    if ts == [] then 0 else Idle(ts[..|ts| - 1]) + if ts[|ts| - 1].Waiting? then 1 else 0
  }

  function Busy(ts: seq<Thread>): nat
  {
    if ts == [] then 0 else Busy(ts[..|ts| - 1]) + if ts[|ts| - 1].Working? then 1 else 0
  }

  function Batch(t: Thread): multiset<Check>
  {
    if t.Working? then multiset(t.batch) else multiset{}
  }

  function Held(ts: seq<Thread>): multiset<Check>
  {
    if ts == [] then multiset{} else Held(ts[..|ts| - 1]) + Batch(ts[|ts| - 1])
  }

  function One(b: bool): nat
  {
    if b then 1 else 0
  }

  lemma {:induction false} UpdateTally(ts: seq<Thread>, i: nat, t: Thread)
    requires i < |ts|
    ensures Idle(ts[i := t]) == Idle(ts) - One(ts[i].Waiting?) + One(t.Waiting?)
    ensures Busy(ts[i := t]) == Busy(ts) - One(ts[i].Working?) + One(t.Working?)
    ensures Batch(ts[i]) <= Held(ts) && Held(ts[i := t]) == Held(ts) - Batch(ts[i]) + Batch(t)
  {
    hide Batch;
    var last := |ts| - 1;
    if i < last {
      LaterUpdate(ts, i, t);
      UpdateTally(ts[..last], i, t);
    } else {
      LastUpdate(ts, t);
    }
  }

  lemma LaterUpdate(ts: seq<Thread>, i: nat, t: Thread)
    requires i + 1 < |ts|
    ensures var last := |ts| - 1;
      ts[i := t][..last] == ts[..last][i := t] && ts[i := t][last] == ts[last] && ts[..last][i] == ts[i]
  {
  }

  lemma LastUpdate(ts: seq<Thread>, t: Thread)
    requires ts != []
    ensures var last := |ts| - 1; ts[last := t][..last] == ts[..last] && ts[last := t][last] == t
  {
  }

  // ----- the steps

  /** The size of the next batch. */
  function BatchSize(c: Config, s: State): nat
    requires s.nTotal + s.nIdle + 1 > 0
  {
    Max(1, Min(c.batchSize, |s.queue| / (s.nTotal + s.nIdle + 1)))
  }

  function Max(a: nat, b: nat): nat { if a >= b then a else b }

  function Min(a: nat, b: nat): nat { if a <= b then a else b }

  /** The last `n` checks of the queue, last one first. */
  function Popped(queue: seq<Check>, n: nat): (batch: seq<Check>)
    requires n <= |queue|
    ensures |batch| == n
  {
    if n == 0 then [] else [queue[|queue| - 1]] + Popped(queue[..|queue| - 1], n - 1)
  }

  lemma {:induction false} PoppedIsRest(queue: seq<Check>, n: nat)
    requires n <= |queue|
    ensures multiset(queue[..|queue| - n]) + multiset(Popped(queue, n)) == multiset(queue)
  {
    if n == 0 {
      assert queue[..|queue|] == queue;
    } else {
      var last := |queue| - 1;
      PoppedIsRest(queue[..last], n - 1);
      TakeTake(queue, last, last - (n - 1));
      PoppedIs(queue, n);
      PopOne(queue, n, Popped(queue[..last], n - 1));
    }
  }

  lemma PopOne(queue: seq<Check>, n: nat, popped: seq<Check>)
    requires 0 < n <= |queue|
    requires multiset(queue[..|queue| - n]) + multiset(popped) == multiset(queue[..|queue| - 1])
    ensures multiset(queue[..|queue| - n]) + multiset([queue[|queue| - 1]] + popped) == multiset(queue)
  {
    var front, last := queue[..|queue| - 1], queue[|queue| - 1];
    MultisetPop(front, last, queue[..|queue| - n], popped);
    assert queue == front + [last];
  }

  lemma PoppedIs(queue: seq<Check>, n: nat)
    requires 0 < n <= |queue|
    ensures Popped(queue, n) == [queue[|queue| - 1]] + Popped(queue[..|queue| - 1], n - 1)
  {
  }

  lemma TakeTake(queue: seq<Check>, a: nat, b: nat)
    requires b <= a <= |queue|
    ensures queue[..a][..b] == queue[..b]
  {
  }

  lemma MultisetPop(front: seq<Check>, last: Check, rest: seq<Check>, popped: seq<Check>)
    requires multiset(rest) + multiset(popped) == multiset(front)
    ensures multiset(rest) + multiset([last] + popped) == multiset(front + [last])
  {
    assert multiset([last] + popped) == multiset{last} + multiset(popped);
    assert multiset(front + [last]) == multiset(front) + multiset{last};
  }

  /** What is done on taking the mutex: the last batch is accounted for, or the thread joins or stops idling. */
  function Arrive(s: State, i: nat): State
    requires i < |s.threads|
  {
    var threads := s.threads[i := Holding];
    match s.threads[i]
    case Outside => s.(nTotal := s.nTotal + 1, threads := threads)
    case Holding => s
    case Waiting(_) => s.(nIdle := s.nIdle - 1, threads := threads)
    case Working(batch, ok) =>
      var nTodo := s.nTodo - |batch|;
      s.(allOk := s.allOk && Result(batch, ok), nTodo := nTodo, done := s.done + multiset(batch),
         threads := if nTodo == 0 && i != 0 then NotifyMaster(threads) else threads)
  }

  function NotifyMaster(ts: seq<Thread>): (us: seq<Thread>)
    ensures |us| == |ts|
  {
    if ts != [] && ts[0].Waiting? then ts[0 := Waiting(true)] else ts
  }

  /** Whether the thread leaves the loop. */
  predicate Leaves(c: Config, s: State, i: nat)
  {
    s.queue == [] && (i == 0 || c.quit) && s.nTodo == 0
  }

  /** What is done before releasing the mutex: leave, wait, or take a batch. */
  function Proceed(c: Config, s: State, i: nat): State
    requires i < |s.threads|
  {
    if Leaves(c, s, i) then
      if i == 0
      then s.(nTotal := s.nTotal - 1, allOk := true, threads := s.threads[i := Outside],
              added := multiset{}, done := multiset{})
      else s.(nTotal := s.nTotal - 1, threads := s.threads[i := Outside])
    else if s.queue == [] then
      s.(nIdle := s.nIdle + 1, threads := s.threads[i := Waiting(false)])
    else if s.nTotal + s.nIdle + 1 <= 0 || BatchSize(c, s) > |s.queue| then s
    else
      var n := BatchSize(c, s);
      s.(queue := s.queue[..|s.queue| - n],
         threads := s.threads[i := Working(Popped(s.queue, n), s.allOk)])
  }

  /** One step of thread `i`. */
  function Step(c: Config, s: State, i: nat): State
    requires i < |s.threads|
  {
    Proceed(c, Arrive(s, i), i)
  }

  /** The workers that a call to Add wakes: one of them, `w`, for a single check, else all. */
  function NotifyWorkers(ts: seq<Thread>, count: nat, w: nat): (us: seq<Thread>)
    ensures |us| == |ts|
  {
    seq(|ts|, j requires 0 <= j < |ts| =>
      if j > 0 && ts[j].Waiting? && (count > 1 || (count == 1 && j == w)) then Waiting(true) else ts[j])
  }

  /** The master adds checks. */
  function Add(s: State, checks: seq<Check>, w: nat): State
  {
    s.(queue := s.queue + checks, nTodo := s.nTodo + |checks|, added := s.added + multiset(checks),
       threads := NotifyWorkers(s.threads, |checks|, w))
  }

  predicate IsIdle(s: State)
  {
    s.nTotal == s.nIdle && s.nTodo == 0 && s.allOk
  }

  // ----- the invariant

  /** The counters, where `k` threads hold the mutex. */
  ghost predicate Counts(s: State, k: nat)
  {
    && s.nIdle == Idle(s.threads)
    && s.nTotal == s.nIdle + Busy(s.threads) + k
    && s.nTodo == |s.queue| + |Held(s.threads)|
  }

  /** Every check added is in the queue, in one batch, or done, and the running result is that of those done. */
  ghost predicate History(s: State)
  {
    && s.added == multiset(s.queue) + Held(s.threads) + s.done
    && (s.allOk <==> AllPass(s.done))
  }

  /** All threads are in order; only thread `i` holds the mutex, none if that is no thread. */
  ghost predicate Threads(s: State, i: int)
  {
    forall j :: 0 <= j < |s.threads| ==> ThreadOk(s, s.threads[j]) && (s.threads[j].Holding? <==> j == i)
  }

  ghost predicate Inv(s: State)
  {
    |s.threads| > 0 && Counts(s, 0) && History(s) && Threads(s, -1) && MasterOk(s)
  }

  /** The invariant while thread `i` holds the mutex. */
  ghost predicate Mid(s: State, i: nat)
  {
    i < |s.threads| && Counts(s, 1) && History(s) && Threads(s, i) && MasterOk(s)
  }

  ghost predicate ThreadOk(s: State, t: Thread)
  {
    t.Working? ==> t.batch != [] && (t.ok || !s.allOk)
  }

  /** While the master waits nothing is queued, and it has been told if nothing is left to do. */
  ghost predicate MasterOk(s: State)
    requires |s.threads| > 0
  {
    s.threads[0].Waiting? ==> s.queue == [] && (s.threads[0].notified <==> s.nTodo == 0)
  }

  function Start(n: nat): State
  {
    State([], 0, 0, true, 0, seq(n, i => Outside), multiset{}, multiset{})
  }

  lemma {:induction false} NobodyInside(n: nat)
    ensures Idle(seq(n, i => Outside)) == 0 && Busy(seq(n, i => Outside)) == 0
    ensures Held(seq(n, i => Outside)) == multiset{}
  {
    if n > 0 {
      NobodyInside(n - 1);
      assert seq(n, i => Outside)[..n - 1] == seq(n - 1, i => Outside);
    }
  }

  lemma StartIsOk(n: nat)
    requires n > 0
    ensures Inv(Start(n))
  {
    NobodyInside(n);
  }

  lemma ArriveKeeps(s: State, i: nat)
    requires Inv(s) && i < |s.threads|
    ensures Mid(Arrive(s, i), i)
  {
    hide Idle, Busy, Held, AllPass, Counts, History;
    assert ThreadOk(s, s.threads[i]);
    if s.threads[i].Working? {
      AccountTally(s, i);
    } else {
      UpdateTally(s.threads, i, Holding);
      JoinTally(s, i);
    }
  }

  lemma JoinTally(s: State, i: nat)
    requires i < |s.threads| && Counts(s, 0) && History(s) && !s.threads[i].Working? && !s.threads[i].Holding?
    ensures Counts(Arrive(s, i), 1) && History(Arrive(s, i))
  {
    hide Idle, Busy, Held, AllPass;
    UpdateTally(s.threads, i, Holding);
  }

  lemma AccountTally(s: State, i: nat)
    requires i < |s.threads| && Counts(s, 0) && History(s)
    requires s.threads[i].Working? && (s.threads[i].ok || !s.allOk)
    ensures Counts(Arrive(s, i), 1) && History(Arrive(s, i)) && Arrive(s, i).nTodo >= 0
  {
    hide Idle, Busy, Held, AllPass, Batch;
    var batch, ts := multiset(s.threads[i].batch), s.threads[i := Holding];
    UpdateTally(s.threads, i, Holding);
    NotifyTally(ts);
    PassBoth(s.done, batch);
    BatchIs(s.threads[i]);
    BatchIs(Holding);
    MoveToDone(multiset(s.queue), Held(s.threads), s.done, batch);
    assert Held(Arrive(s, i).threads) == Held(s.threads) - batch + multiset{};
  }

  lemma BatchIs(t: Thread)
    ensures Batch(t) == if t.Working? then multiset(t.batch) else multiset{}
    ensures t.Working? ==> |Batch(t)| == |t.batch|
  {
  }

  lemma NotifyTally(ts: seq<Thread>)
    ensures Idle(NotifyMaster(ts)) == Idle(ts) && Busy(NotifyMaster(ts)) == Busy(ts) && Held(NotifyMaster(ts)) == Held(ts)
  {
    SameTally(ts, NotifyMaster(ts));
  }

  lemma MoveToDone(queue: multiset<Check>, held: multiset<Check>, done: multiset<Check>, batch: multiset<Check>)
    requires batch <= held
    ensures queue + held + done == queue + (held - batch + multiset{}) + (done + batch)
    ensures |held - batch + multiset{}| == |held| - |batch|
  {
  }

  lemma PassBoth(a: multiset<Check>, b: multiset<Check>)
    ensures AllPass(a + b) <==> AllPass(a) && AllPass(b)
  {
    assert forall x :: x in a ==> x in a + b;
    assert forall x :: x in b ==> x in a + b;
  }

  lemma ProceedKeeps(c: Config, s: State, i: nat)
    requires Mid(s, i)
    ensures Inv(Proceed(c, s, i))
  {
    hide Idle, Busy, Held, AllPass, Counts, History, BatchSize, Popped;
    if s.queue != [] {
      TakeTally(c, s, i);
    } else {
      StopTally(c, s, i);
      if s.nTodo == 0 {
        TodoIsHeld(s, 1);
        NobodyWorks(s.threads);
      }
    }
  }

  lemma TodoIsHeld(s: State, k: nat)
    requires Counts(s, k)
    ensures |Held(s.threads)| == s.nTodo - |s.queue|
  {
  }

  /** When no checks are held, no thread is working: a batch is never empty. */
  lemma {:induction false} NobodyWorks(ts: seq<Thread>)
    requires |Held(ts)| == 0
    requires forall j :: 0 <= j < |ts| && ts[j].Working? ==> ts[j].batch != []
    ensures forall j :: 0 <= j < |ts| ==> !ts[j].Working?
    ensures Busy(ts) == 0
  {
    if ts != [] {
      var last := |ts| - 1;
      BatchIs(ts[last]);
      NobodyWorks(ts[..last]);
    }
  }

  /** A thread that lets go of the mutex without a batch. */
  lemma LetGo(ts: seq<Thread>, i: nat, t: Thread)
    requires i < |ts| && ts[i].Holding? && !t.Working?
    ensures Idle(ts[i := t]) == Idle(ts) + One(t.Waiting?) && Busy(ts[i := t]) == Busy(ts) && Held(ts[i := t]) == Held(ts)
  {
    hide Idle, Busy, Held;
    UpdateTally(ts, i, t);
  }

  lemma LeaveTally(c: Config, s: State, i: nat)
    requires Mid(s, i) && Leaves(c, s, i)
    ensures Counts(Proceed(c, s, i), 0) && History(Proceed(c, s, i))
  {
    LetGo(s.threads, i, Outside);
    TodoIsHeld(s, 1);
    hide Idle, Busy, Held, ThreadOk, MasterOk;
  }

  lemma WaitTally(c: Config, s: State, i: nat)
    requires Mid(s, i) && s.queue == [] && !Leaves(c, s, i)
    ensures Counts(Proceed(c, s, i), 0) && History(Proceed(c, s, i))
  {
    hide Idle, Busy, Held, ThreadOk, MasterOk, Leaves, Counts, History;
    WaitedTally(s, i);
  }

  lemma WaitedTally(s: State, i: nat)
    requires i < |s.threads| && s.threads[i].Holding? && Counts(s, 1) && History(s)
    ensures var u := s.(nIdle := s.nIdle + 1, threads := s.threads[i := Waiting(false)]); Counts(u, 0) && History(u)
  {
    LetGo(s.threads, i, Waiting(false));
    hide Idle, Busy, Held, AllPass;
  }

  lemma StopTally(c: Config, s: State, i: nat)
    requires Mid(s, i) && s.queue == []
    ensures Counts(Proceed(c, s, i), 0) && History(Proceed(c, s, i))
  {
    hide *;
    if Leaves(c, s, i) { LeaveTally(c, s, i); } else { WaitTally(c, s, i); }
  }

  lemma TakeTally(c: Config, s: State, i: nat)
    requires Mid(s, i) && s.queue != []
    ensures s.nTotal + s.nIdle + 1 > 0 && 1 <= BatchSize(c, s) <= |s.queue|
    ensures Counts(Proceed(c, s, i), 0) && History(Proceed(c, s, i))
  {
    hide Idle, Busy, Held, AllPass, BatchSize, Popped, ThreadOk, MasterOk, Counts, History;
    SomeThread(s);
    BatchFits(c, s);
    var n := BatchSize(c, s);
    TakenTally(s, i, n);
  }

  lemma SomeThread(s: State)
    requires Counts(s, 1)
    ensures s.nTotal + s.nIdle + 1 > 0
  {
  }

  lemma TakenTally(s: State, i: nat, n: nat)
    requires i < |s.threads| && s.threads[i].Holding? && Counts(s, 1) && History(s) && 0 < n <= |s.queue|
    ensures var u := s.(queue := s.queue[..|s.queue| - n], threads := s.threads[i := Working(Popped(s.queue, n), s.allOk)]);
      Counts(u, 0) && History(u)
  {
    hide Idle, Busy, Held, AllPass, Popped;
    PoppedIsRest(s.queue, n);
    UpdateTally(s.threads, i, Working(Popped(s.queue, n), s.allOk));
  }

  /** A batch is as large as an equal share of the queue for every thread and one more, within the batch size. */
  lemma BatchIsShare(c: Config, s: State)
    requires s.nTotal + s.nIdle + 1 > 0
    ensures var n, shares := BatchSize(c, s), s.nTotal + s.nIdle + 1;
      && (n > 1 ==> n <= c.batchSize && n * shares <= |s.queue|)
      && (n < c.batchSize ==> (n + 1) * shares > |s.queue|)
  {
    var n, q, shares := BatchSize(c, s), |s.queue| / (s.nTotal + s.nIdle + 1), s.nTotal + s.nIdle + 1;
    ShareIs(|s.queue|, shares);
    if n > 1 { Shares(n, q, shares); }
    if n < c.batchSize { Shares(q + 1, n + 1, shares); }
  }

  lemma ShareIs(n: nat, d: nat)
    requires d > 0
    ensures n / d * d <= n < (n / d + 1) * d
  {
  }

  lemma Shares(a: nat, b: nat, d: nat)
    requires a <= b
    ensures a * d <= b * d
  {
  }

  /** Adding one check wakes one worker, `w`, if it waits, and adding more wakes all that wait; the master is not woken. */
  lemma AddWakes(s: State, checks: seq<Check>, w: nat, j: nat)
    requires j < |s.threads|
    ensures |Add(s, checks, w).threads| == |s.threads|
    ensures Add(s, checks, w).threads[j] == Waiting(true) <==>
      s.threads[j] == Waiting(true) || (s.threads[j].Waiting? && j > 0 && (|checks| > 1 || (|checks| == 1 && j == w)))
    ensures Add(s, checks, w).threads[j] != Waiting(true) ==> Add(s, checks, w).threads[j] == s.threads[j]
  {
  }

  lemma BatchFits(c: Config, s: State)
    requires s.queue != [] && s.nTotal + s.nIdle + 1 > 0
    ensures 1 <= BatchSize(c, s) <= |s.queue|
    ensures BatchSize(c, s) <= Max(1, c.batchSize)
  {
  }

  lemma AddKeeps(c: Config, s: State, checks: seq<Check>, w: nat)
    requires Inv(s) && s.threads[0].Outside?
    ensures Inv(Add(s, checks, w))
  {
    SameTally(s.threads, NotifyWorkers(s.threads, |checks|, w));
  }

  /** Threads that differ only in whether they have been notified. */
  ghost predicate SameThread(t: Thread, u: Thread)
  {
    t == u || (t.Waiting? && u.Waiting?)
  }

  lemma {:induction false} SameTally(ts: seq<Thread>, us: seq<Thread>)
    requires |us| == |ts| && forall j :: 0 <= j < |ts| ==> SameThread(ts[j], us[j])
    ensures Idle(us) == Idle(ts) && Busy(us) == Busy(ts) && Held(us) == Held(ts)
  {
    if ts != [] { SameTally(ts[..|ts| - 1], us[..|us| - 1]); }
  }

  // ----- runs

  datatype Op = AddChecks(checks: seq<Check>, w: nat) | ThreadStep(i: nat)

  /** Only the master adds checks, and not while it is waiting for them. */
  predicate Allowed(s: State, op: Op)
  {
    match op
    case AddChecks(_, _) => |s.threads| > 0 && s.threads[0].Outside?
    case ThreadStep(i) => i < |s.threads|
  }

  function Apply(c: Config, s: State, op: Op): State
    requires Allowed(s, op)
  {
    match op
    case AddChecks(checks, w) => Add(s, checks, w)
    case ThreadStep(i) => Step(c, s, i)
  }

  /** The state after some interleaving of steps; those that are not allowed do not happen. */
  function Run(c: Config, s: State, ops: seq<Op>): State
  {
    if ops == [] then s
    else
      var t := Run(c, s, ops[..|ops| - 1]);
      if Allowed(t, ops[|ops| - 1]) then Apply(c, t, ops[|ops| - 1]) else t
  }

  lemma StepKeeps(c: Config, s: State, i: nat)
    requires Inv(s) && i < |s.threads|
    ensures Inv(Step(c, s, i))
  {
    hide *;
    ArriveKeeps(s, i);
    ProceedKeeps(c, Arrive(s, i), i);
    StepIs(c, s, i);
  }

  lemma StepIs(c: Config, s: State, i: nat)
    requires i < |s.threads|
    ensures |Arrive(s, i).threads| == |s.threads| && Step(c, s, i) == Proceed(c, Arrive(s, i), i)
  {
  }

  /** Whatever the number of workers and however their steps interleave, the invariant holds. */
  lemma {:induction false} EveryRunIsOk(c: Config, n: nat, ops: seq<Op>)
    requires n > 0
    ensures Inv(Run(c, Start(n), ops))
  {
    hide Inv, Step, Add;
    if ops == [] {
      StartIsOk(n);
    } else {
      EveryRunIsOk(c, n, ops[..|ops| - 1]);
      var t, op := Run(c, Start(n), ops[..|ops| - 1]), ops[|ops| - 1];
      if Allowed(t, op) {
        match op
        case AddChecks(checks, w) => AddKeeps(c, t, checks, w);
        case ThreadStep(i) => StepKeeps(c, t, i);
      }
    }
  }

  // ----- what Wait returns

  /** The result a thread returns when it leaves the loop in its next step. */
  function Returns(c: Config, s: State, i: nat): Option<bool>
    requires i < |s.threads|
  {
    var t := Arrive(s, i);
    if Leaves(c, t, i) then Some(t.allOk) else None
  }

  /** When nothing is left to do, every check added has been done, and no thread holds one. */
  lemma NothingLeft(s: State, k: nat)
    requires Counts(s, k) && History(s) && s.nTodo == 0
    requires forall j :: 0 <= j < |s.threads| ==> ThreadOk(s, s.threads[j])
    ensures s.queue == [] && s.done == s.added && Busy(s.threads) == 0
    ensures s.allOk <==> AllPass(s.added)
  {
    hide Idle, Busy, Held, AllPass;
    assert |s.queue| == 0 && |Held(s.threads)| == 0;
    NobodyWorks(s.threads);
    assert Held(s.threads) == multiset{} && multiset(s.queue) == multiset{};
  }

  /**
   * Wait returns true exactly when every check added since it last returned succeeded. By then each of them has
   * been accounted for exactly once, and the queue is idle again.
   */
  lemma WaitIsRight(c: Config, s: State)
    requires Inv(s) && Returns(c, s, 0).Some?
    ensures Returns(c, s, 0).value <==> AllPass(s.added)
    ensures Arrive(s, 0).done == s.added
    ensures IsIdle(Step(c, s, 0)) && Step(c, s, 0).threads[0].Outside? && Step(c, s, 0).added == multiset{}
  {
    hide Counts, History, AllPass, Idle, Busy, Held;
    ArriveKeeps(s, 0);
    var t := Arrive(s, 0);
    NothingLeft(t, 1);
    CountsAre(t, 1);
  }

  lemma CountsAre(s: State, k: nat)
    requires Counts(s, k)
    ensures s.nTotal == s.nIdle + Busy(s.threads) + k && s.nTodo >= 0 && s.nIdle >= 0
  {
  }

  /** Between a return of Wait and the next Add the queue is idle, so a new controller may be attached to it. */
  lemma IdleBetweenWaits(s: State)
    requires Inv(s) && s.added == multiset{}
    ensures IsIdle(s)
  {
    hide Idle, Busy, Held;
    assert |multiset(s.queue) + Held(s.threads) + s.done| == 0;
    assert |multiset(s.queue)| == 0 && |Held(s.threads)| == 0 && |s.done| == 0;
    NothingLeft(s, 0);
  }

  // ----- no wake-up is lost

  lemma {:induction false} SomeoneWorks(ts: seq<Thread>) returns (j: nat)
    requires |Held(ts)| > 0
    ensures j < |ts| && ts[j].Working?
  {
    var last := |ts| - 1;
    if ts[last].Working? { j := last; } else { j := SomeoneWorks(ts[..last]); }
  }

  /** Work still to do: twice for a check in the queue, once for a check in a batch. */
  function Work(s: State): nat
  {
    2 * |s.queue| + |Held(s.threads)|
  }

  lemma StepWorks(c: Config, s: State, i: nat)
    requires Inv(s) && i < |s.threads|
    ensures Work(Step(c, s, i)) <= Work(s)
    ensures s.threads[i].Working? ==> Work(Step(c, s, i)) < Work(s)
  {
    hide Idle, Busy, Held, AllPass, BatchSize, History;
    ArriveKeeps(s, i);
    var t := Arrive(s, i);
    ProceedKeeps(c, t, i);
    assert t.queue == s.queue;
    assert ThreadOk(s, s.threads[i]);
    TodoIsHeld(s, 0);
    TodoIsHeld(t, 1);
    TodoIsHeld(Step(c, s, i), 0);
  }

  /**
   * While the master is in Wait there is a thread, not one that waits without having been notified, whose next
   * step makes Wait return or leaves less work. In particular a master that waits unnotified implies that
   * some worker still holds a batch.
   */
  lemma WaitProgresses(c: Config, s: State) returns (i: nat)
    requires Inv(s) && !s.threads[0].Outside?
    ensures i < |s.threads| && (s.threads[i].Working? || s.threads[i] == Waiting(true))
    ensures Returns(c, s, 0).Some? || Work(Step(c, s, i)) < Work(s)
    ensures s.threads[0] == Waiting(false) ==> i != 0 && s.threads[i].Working? && s.threads[i].batch != []
    ensures s.threads[0] == Waiting(true) ==> i == 0 && Returns(c, s, 0).Some?
  {
    hide Idle, Busy, Held, AllPass, BatchSize, History, Step;
    i := 0;
    if s.threads[0] == Waiting(false) {
      i := SomeoneWorks(s.threads);
    }
    assert ThreadOk(s, s.threads[i]);
    StepWorks(c, s, i);
  }
}
