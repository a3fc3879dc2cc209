/**
 * The check queue as a class: its methods carry out the steps of the protocol on the shared fields.
 */
module CheckQueue {
  import opened CheckQueueProtocol
  import opened Wrappers

  class CCheckQueue {
    var queue: seq<Check>
    var nIdle: int
    var nTotal: int
    var fAllOk: bool
    var nTodo: int
    const fQuit: bool
    const nBatchSize: nat

    // Where the threads are, and the history of the checks.
    var threads: seq<Thread>
    ghost var added: multiset<Check>
    ghost var done: multiset<Check>

    ghost function S(): State
      reads this
    {
      State(queue, nIdle, nTotal, fAllOk, nTodo, threads, added, done)
    }

    ghost function C(): Config
    {
      Config(nBatchSize, fQuit)
    }

    constructor (nBatchSizeIn: nat, nThreads: nat)
      requires nThreads > 0
      ensures S() == Start(nThreads) && Inv(S()) && C() == Config(nBatchSizeIn, false)
    {
      queue, nIdle, nTotal, fAllOk, nTodo := [], 0, 0, true, 0;
      fQuit, nBatchSize := false, nBatchSizeIn;
      threads := seq(nThreads, i => Outside);
      added, done := multiset{}, multiset{};
      new;
      StartIsOk(nThreads);
    }

    /** The master adds checks; `w` is the worker that a single notification wakes. */
    method Add(vChecks: seq<Check>, w: nat)
      requires Inv(S()) && threads[0].Outside?
      modifies this
      ensures S() == CheckQueueProtocol.Add(old(S()), vChecks, w) && Inv(S())
    {
      AddKeeps(C(), S(), vChecks, w);
      hide Inv, NotifyWorkers;
      Push(vChecks);
      nTodo := nTodo + |vChecks|;
      added := added + multiset(vChecks);
      threads := NotifyWorkers(threads, |vChecks|, w);
    }

    method Push(vChecks: seq<Check>)
      modifies this`queue
      ensures queue == old(queue) + vChecks
    {
      var i := 0;
      while i < |vChecks|
        invariant 0 <= i <= |vChecks| && queue == old(queue) + vChecks[..i]
      {
        queue := queue + [vChecks[i]];
        i := i + 1;
      }
    }

    /** Runs a batch outside the mutex. */
    static method RunChecks(vChecks: seq<Check>, ok: bool) returns (fOk: bool)
      ensures fOk == Result(vChecks, ok)
    {
      fOk := ok;
      var i := 0;
      while i < |vChecks|
        invariant 0 <= i <= |vChecks| && fOk == Result(vChecks[..i], ok)
      {
        ResultNext(vChecks, i, ok);
        if fOk {
          fOk := vChecks[i].passes;
        }
        i := i + 1;
      }
      assert vChecks[..|vChecks|] == vChecks;
    }

    /**
     * One round of thread `i` through the loop: it finishes its batch, takes the mutex, and then leaves with a
     * result, or waits, or takes a new batch.
     */
    method Loop(i: nat) returns (fRet: Option<bool>)
      requires Inv(S()) && i < |threads|
      modifies this
      ensures S() == Step(C(), old(S()), i) && Inv(S())
      ensures fRet == Returns(C(), old(S()), i)
      ensures i == 0 && fRet.Some? ==> (fRet.value <==> AllPass(old(added))) && CheckQueueProtocol.IsIdle(S())
    {
      ghost var s := S();
      hide Inv, Mid, Step, Arrive, Proceed, Leaves, Returns, AllPass, CheckQueueProtocol.IsIdle;
      NotHolding(s, i);
      ArriveKeeps(s, i);
      ProceedKeeps(C(), Arrive(s, i), i);
      StepIs(C(), s, i);
      ReturnsIs(C(), s, i);
      if i == 0 && Returns(C(), s, 0).Some? { WaitIsRight(C(), s); }
      Arrival(i);
      fRet := Continue(i);
    }

    /** The first half of a round: the batch is finished, and then the mutex taken. */
    method Arrival(i: nat)
      requires i < |threads| && !threads[i].Holding?
      modifies this
      ensures S() == Arrive(old(S()), i)
    {
      ArriveIs(S(), i);
      hide Result, NotifyMaster, Arrive;
      if threads[i].Outside? {
        nTotal := nTotal + 1;
        threads := threads[i := Holding];
      } else if threads[i].Waiting? {
        nIdle := nIdle - 1;
        threads := threads[i := Holding];
      } else {
        var fOk := RunChecks(threads[i].batch, threads[i].ok);
        Account(i, fOk);
      }
    }

    /** Accounts for the batch a thread has finished, and tells the master if it was the last. */
    method Account(i: nat, fOk: bool)
      requires i < |threads| && threads[i].Working?
      modifies this
      ensures var batch, holding := old(threads)[i].batch, old(threads)[i := Holding];
        S() == old(S()).(allOk := old(fAllOk) && fOk, nTodo := old(nTodo) - |batch|, done := old(done) + multiset(batch),
                         threads := if old(nTodo) - |batch| == 0 && i != 0 then NotifyMaster(holding) else holding)
    {
      hide NotifyMaster;
      var vChecks := threads[i].batch;
      threads := threads[i := Holding];
      fAllOk := fAllOk && fOk;
      nTodo := nTodo - |vChecks|;
      done := done + multiset(vChecks);
      if nTodo == 0 && i != 0 {
        threads := NotifyMaster(threads);
      }
    }

    /** The second half of a round, with the mutex held. */
    method Continue(i: nat) returns (fRet: Option<bool>)
      requires Mid(S(), i)
      modifies this
      ensures S() == Proceed(C(), old(S()), i)
      ensures fRet == if Leaves(C(), old(S()), i) then Some(old(fAllOk)) else None
    {
      MidIs(S(), i);
      ProceedIs(C(), S(), i);
      hide Mid, BatchSize, Popped, Proceed, Leaves;
      fRet := None;
      if queue == [] {
        fRet := Stop(i);
      } else {
        TakeBatch(i);
      }
    }

    /** Leaves the loop with a result when nothing is left to do, or waits. */
    method Stop(i: nat) returns (fRet: Option<bool>)
      requires i < |threads| && queue == []
      modifies this
      ensures S() == Proceed(C(), old(S()), i)
      ensures fRet == if Leaves(C(), old(S()), i) then Some(old(fAllOk)) else None
    {
      StopIs(C(), S(), i);
      hide Proceed, Leaves;
      var fMaster := i == 0;
      fRet := None;
      if (fMaster || fQuit) && nTodo == 0 {
        nTotal := nTotal - 1;
        fRet := Some(fAllOk);
        if fMaster {
          fAllOk := true;
          added, done := multiset{}, multiset{};
        }
        threads := threads[i := Outside];
      } else {
        nIdle := nIdle + 1;
        threads := threads[i := Waiting(false)];
      }
    }

    /** Decides how many checks to take now and takes them. */
    method TakeBatch(i: nat)
      requires i < |threads| && queue != [] && nTotal + nIdle + 1 > 0
      modifies this
      ensures BatchSize(C(), old(S())) <= |old(queue)|
      ensures S() == var n := BatchSize(C(), old(S()));
        old(S()).(queue := old(queue)[..|old(queue)| - n],
                  threads := old(threads)[i := Working(Popped(old(queue), n), fAllOk)])
    {
      BatchFits(C(), S());
      NowIs(C(), S());
      hide BatchSize, Popped;
      var nNow := Max(1, Min(nBatchSize, |queue| / (nTotal + nIdle + 1)));
      var vChecks := PopChecks(nNow);
      threads := threads[i := Working(vChecks, fAllOk)];
    }

    /** Moves checks from the back of the queue to a batch. */
    method PopChecks(nNow: nat) returns (vChecks: seq<Check>)
      requires nNow <= |queue|
      modifies this`queue
      ensures queue == old(queue)[..|old(queue)| - nNow] && vChecks == Popped(old(queue), nNow)
    {
      vChecks := [];
      var k := 0;
      assert queue[..|queue|] == queue;
      while k < nNow
        invariant 0 <= k <= nNow && queue == old(queue)[..|old(queue)| - k]
        invariant Popped(old(queue), nNow) == vChecks + Popped(queue, nNow - k)
      {
        PoppedIs(queue, nNow - k);
        TakeTake(old(queue), |queue|, |queue| - 1);
        vChecks := vChecks + [queue[|queue| - 1]];
        queue := queue[..|queue| - 1];
        k := k + 1;
      }
    }

    method IsIdle() returns (idle: bool)
      ensures idle == CheckQueueProtocol.IsIdle(S())
    {
      idle := nTotal == nIdle && nTodo == 0 && fAllOk == true;
    }
  }

  lemma ArriveIs(s: State, i: nat)
    requires i < |s.threads|
    ensures s.threads[i].Outside? ==>
      Arrive(s, i) == s.(nTotal := s.nTotal + 1, threads := s.threads[i := Holding])
    ensures s.threads[i].Waiting? ==>
      Arrive(s, i) == s.(nIdle := s.nIdle - 1, threads := s.threads[i := Holding])
    ensures s.threads[i].Working? ==>
      var batch, threads := s.threads[i].batch, s.threads[i := Holding];
      Arrive(s, i) ==
        s.(allOk := s.allOk && Result(batch, s.threads[i].ok), nTodo := s.nTodo - |batch|, done := s.done + multiset(batch),
           threads := if s.nTodo - |batch| == 0 && i != 0 then NotifyMaster(threads) else threads)
  {
    hide Result, NotifyMaster;
  }

  lemma ProceedIs(c: Config, s: State, i: nat)
    requires i < |s.threads| && s.nTotal + s.nIdle + 1 > 0
    ensures Leaves(c, s, i) && i == 0 ==>
      Proceed(c, s, i) == s.(nTotal := s.nTotal - 1, allOk := true, threads := s.threads[i := Outside],
                             added := multiset{}, done := multiset{})
    ensures Leaves(c, s, i) && i != 0 ==>
      Proceed(c, s, i) == s.(nTotal := s.nTotal - 1, threads := s.threads[i := Outside])
    ensures !Leaves(c, s, i) && s.queue == [] ==>
      Proceed(c, s, i) == s.(nIdle := s.nIdle + 1, threads := s.threads[i := Waiting(false)])
    ensures s.queue != [] ==> !Leaves(c, s, i)
    ensures s.queue != [] && BatchSize(c, s) <= |s.queue| ==>
      var n := BatchSize(c, s);
      Proceed(c, s, i) == s.(queue := s.queue[..|s.queue| - n],
                             threads := s.threads[i := Working(Popped(s.queue, n), s.allOk)])
  {
    hide BatchSize, Popped;
  }

  lemma StopIs(c: Config, s: State, i: nat)
    requires i < |s.threads| && s.queue == []
    ensures Leaves(c, s, i) <==> (i == 0 || c.quit) && s.nTodo == 0
    ensures Proceed(c, s, i) ==
      if !Leaves(c, s, i) then s.(nIdle := s.nIdle + 1, threads := s.threads[i := Waiting(false)])
      else if i != 0 then s.(nTotal := s.nTotal - 1, threads := s.threads[i := Outside])
      else s.(nTotal := s.nTotal - 1, allOk := true, threads := s.threads[i := Outside], added := multiset{}, done := multiset{})
  {
    hide BatchSize, Popped;
  }

  lemma NotHolding(s: State, i: nat)
    requires Inv(s) && i < |s.threads|
    ensures !s.threads[i].Holding?
  {
  }

  lemma ReturnsIs(c: Config, s: State, i: nat)
    requires i < |s.threads|
    ensures Returns(c, s, i) == if Leaves(c, Arrive(s, i), i) then Some(Arrive(s, i).allOk) else None
  {
  }

  lemma MidIs(s: State, i: nat)
    requires Mid(s, i)
    ensures i < |s.threads| && s.nTotal + s.nIdle + 1 > 0
  {
    hide Idle, Busy, Held, AllPass;
  }

  lemma NowIs(c: Config, s: State)
    requires s.nTotal + s.nIdle + 1 > 0
    ensures BatchSize(c, s) == Max(1, Min(c.batchSize, |s.queue| / (s.nTotal + s.nIdle + 1)))
  {
  }

  lemma ResultNext(checks: seq<Check>, i: nat, ok: bool)
    requires i < |checks|
    ensures Result(checks[..i + 1], ok) <==> Result(checks[..i], ok) && checks[i].passes
  {
    assert checks[..i + 1] == checks[..i] + [checks[i]];
    assert checks[i] in multiset(checks[..i + 1]);
    assert forall x :: x in multiset(checks[..i]) ==> x in multiset(checks[..i + 1]);
  }
}
