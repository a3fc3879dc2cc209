/**
 * Runs of the address manager: after every sequence of operations the invariant holds, and the consistency check of
 * the source passes unless a clock was not after zero when it mattered.
 */
module AddrRuns {
  import opened AddrTables
  import opened AddrInvariant
  import opened AddrOperations
  import opened AddrTheorems

  // ----- times of success and attempt

  predicate SameTimes(i: Info, j: Info)
  {
    i.lastTry == j.lastTry && i.lastSuccess == j.lastSuccess && (j.inTried ==> i.inTried)
  }

  /** From `t` to `u` no time changed, and no entry entered the tried table. */
  ghost predicate TimesFrom(t: Tables, u: Tables)
  {
    forall k :: k in u.info ==> k in t.info && SameTimes(t.info[k], u.info[k])
  }

  /** The same for all entries but one. */
  ghost predicate OtherTimesFrom(t: Tables, u: Tables, id: int)
  {
    forall k :: k in u.info && k != id ==> k in t.info && SameTimes(t.info[k], u.info[k])
  }

  lemma TimesTrans(t: Tables, u: Tables, v: Tables)
    requires TimesFrom(t, u) && TimesFrom(u, v)
    ensures TimesFrom(t, v)
  {
  }

  lemma TimelyFrom(t: Tables, u: Tables)
    requires Timely(t.info) && TimesFrom(t, u)
    ensures Timely(u.info)
  {
  }

  lemma DeleteTimes(t: Tables, id: int)
    ensures TimesFrom(t, Delete(t, id))
  {
  }

  lemma ClearNewTimes(t: Tables, s: Slot)
    ensures TimesFrom(t, ClearNew(t, s))
  {
    if s in t.newAt && t.newAt[s] in t.info {
      var u := Unlink(t, s);
      DeleteTimes(u, t.newAt[s]);
      hide Delete;
      assert TimesFrom(t, u);
      TimesTrans(t, u, Delete(u, t.newAt[s]));
    }
  }

  lemma LinkTimes(t: Tables, id: int, s: Slot)
    requires id in t.info
    ensures TimesFrom(t, Link(t, id, s))
  {
  }

  lemma EvictTimes(e: Env, t: Tables, s: Slot)
    ensures TimesFrom(t, Evict(e, t, s))
  {
    hide ClearNew, NewSlot;
    if s in t.triedAt && t.triedAt[s] in t.info {
      var i := t.info[t.triedAt[s]];
      var to := NewSlot(e, i.addr.service, i.source);
      assert TimesFrom(t, Untry(t, s));
      ClearNewTimes(Untry(t, s), to);
      TimesTrans(t, Untry(t, s), ClearNew(Untry(t, s), to));
      TimesTrans(t, ClearNew(Untry(t, s), to), Evict(e, t, s));
    }
  }

  lemma PlaceTimes(e: Env, t: Tables, id: int, source: NetAddr, now: int)
    requires id in t.info
    ensures TimesFrom(t, Place(e, t, id, source, now))
  {
    var s := NewSlot(e, t.info[id].addr.service, source);
    LinkTimes(t, id, s);
    DeleteTimes(t, id);
    ClearNewTimes(t, s);
    if id in ClearNew(t, s).info {
      LinkTimes(ClearNew(t, s), id, s);
      TimesTrans(t, ClearNew(t, s), Link(ClearNew(t, s), id, s));
    }
    assert TimesFrom(t, t);
    hide ClearNew, Link, Delete, NewSlot, Yields, TimesFrom;
  }

  /** Adding brings in no bad time, whatever clock, hashes and draw. */
  lemma AddKeepsTimely(e: Env, t: Tables, addr: Address, source: NetAddr, penalty: int, now: int, draw: nat)
    requires Timely(t.info)
    ensures Timely(Add(e, t, addr, source, penalty, now, draw).0.info)
  {
    var net := addr.service.net;
    if Find(t, net).None? {
      var u := CreateNew(t, addr, source, penalty);
      assert t.idCount in u.info && Timely(u.info);
      PlaceTimes(e, u, t.idCount, source, now);
      hide Place, CreateNew;
      TimelyFrom(u, Place(e, u, t.idCount, source, now));
    } else {
      var id := Find(t, net).value;
      var u := WithInfo(t, id, Refreshed(t.info[id], addr, penalty, now));
      assert Timely(u.info);
      PlaceTimes(e, u, id, source, now);
      hide Place, Refreshed;
      TimelyFrom(u, Place(e, u, id, source, now));
    }
  }

  /** The operation is about an entry that is known by address and port. */
  ghost predicate IsKnown(t: Tables, s: Service)
  {
    Find(t, s.net).Some? && t.info[Find(t, s.net).value].addr.service == s
  }

  /** An address marked good ends up in the tried table, with the time given. */
  ghost predicate IsTriedAt(u: Tables, id: int, time: int)
  {
    id in u.info && u.info[id].inTried && u.info[id].lastSuccess == time && u.info[id].lastTry == time
  }

  lemma GoodIsTried(e: Env, t: Tables, s: Service, time: int)
    requires Consistent(e, t) && IsKnown(t, s)
    ensures IsTriedAt(Good(e, t, s, time), Find(t, s.net).value, time)
    ensures OtherTimesFrom(t, Good(e, t, s, time), Find(t, s.net).value)
  {
    FindIsSound(e, t, s.net);
    hide Consistent, MakeTried, OtherTimesFrom, IsTriedAt;
    var id := Find(t, s.net).value;
    MarkedIs(t, id, time);
    if !t.info[id].inTried { GoodMakesTried(e, t, id, time); }
  }

  lemma MarkedIs(t: Tables, id: int, time: int)
    requires id in t.info
    ensures OtherTimesFrom(t, MarkGood(t, id, time), id)
    ensures t.info[id].inTried ==> IsTriedAt(MarkGood(t, id, time), id, time)
  {
  }

  lemma GoodMakesTried(e: Env, t: Tables, id: int, time: int)
    requires Consistent(e, t) && id in t.info && !t.info[id].inTried
    ensures IsTriedAt(MakeTried(e, MarkGood(t, id, time), id), id, time)
    ensures OtherTimesFrom(t, MakeTried(e, MarkGood(t, id, time), id), id)
  {
    var u := MarkGood(t, id, time);
    EntryIsOk(e, t, id);
    MarkedIs(t, id, time);
    UpdateKeepsInv(e, t, id, u.info[id], {}, 0);
    hide Inv, MakeTried;
    MakeTriedKeepsInv(e, u, id);
    MadeTriedTimes(e, u, id);
  }

  lemma MadeTriedTimes(e: Env, u: Tables, id: int)
    requires id in u.info && id in MakeTried(e, u, id).info
    ensures OtherTimesFrom(u, MakeTried(e, u, id), id)
    ensures var i, j := u.info[id], MakeTried(e, u, id).info[id]; i.lastTry == j.lastTry && i.lastSuccess == j.lastSuccess
  {
    var s, w := TriedSlot(e, u.info[id].addr.service), TakeOut(u, id);
    assert TimesFrom(u, w);
    EvictTimes(e, w, s);
    hide Evict, TakeOut, TriedSlot;
    TimesTrans(u, w, Evict(e, w, s));
    hide SameTimes;
    assert forall k :: k in Evict(e, w, s).info ==> k in u.info && SameTimes(u.info[k], Evict(e, w, s).info[k]);
    assert SameTimes(u.info[id], Evict(e, w, s).info[id]);
    SameTimesAre(u.info[id], Evict(e, w, s).info[id]);
  }

  lemma SameTimesAre(i: Info, j: Info)
    requires SameTimes(i, j)
    ensures i.lastTry == j.lastTry && i.lastSuccess == j.lastSuccess
  {
  }

  /** Marking an address good keeps times sound exactly if the clock is after zero, or the address is not known. */
  lemma GoodIsTimelyIff(e: Env, t: Tables, s: Service, time: int)
    requires Consistent(e, t) && Timely(t.info)
    ensures Timely(Good(e, t, s, time).info) <==> time > 0 || !IsKnown(t, s)
  {
    if IsKnown(t, s) {
      GoodIsTried(e, t, s, time);
      hide Consistent, Good;
      assert !IsTimely(Good(e, t, s, time).info[Find(t, s.net).value]) <==> time <= 0;
    } else {
      hide Consistent, MakeTried, MarkGood;
    }
  }

  /** Noting an attempt keeps times sound exactly if the clock is not before zero, or the address is not known. */
  lemma AttemptIsTimelyIff(t: Tables, s: Service, time: int)
    requires Timely(t.info)
    ensures Timely(Attempt(t, s, time).info) <==> time >= 0 || !IsKnown(t, s)
  {
    if IsKnown(t, s) {
      var id := Find(t, s.net).value;
      assert !IsTimely(Attempt(t, s, time).info[id]) <==> time < 0;
    }
  }

  lemma ConnectedKeepsTimely(t: Tables, s: Service, time: int)
    requires Timely(t.info)
    ensures Timely(Connected(t, s, time).info)
  {
  }

  lemma GetAddrKeepsTimely(e: Env, t: Tables, draws: nat -> nat, now: int)
    requires Consistent(e, t) && Timely(t.info)
    ensures Timely(GetAddr(t, draws, now).0.info)
  {
    hide Consistent;
    GetAddrCorrect(e, t, draws, now);
  }

  // ----- runs

  datatype Op =
    | AddOp(addr: Address, source: NetAddr, penalty: int, now: int, draw: nat)
    | GoodOp(service: Service, time: int)
    | AttemptOp(service: Service, time: int)
    | ConnectedOp(service: Service, time: int)
    | GetAddrOp(draws: nat -> nat, now: int)

  /** The clock is after zero for a success of a known address, and not before zero for an attempt. */
  ghost predicate ClockOk(t: Tables, op: Op)
  {
    match op
    case GoodOp(service, time) => time > 0 || !IsKnown(t, service)
    case AttemptOp(service, time) => time >= 0 || !IsKnown(t, service)
    case _ => true
  }

  ghost function Step(e: Env, t: Tables, op: Op): Tables
  {
    match op
    case AddOp(addr, source, penalty, now, draw) => Add(e, t, addr, source, penalty, now, draw).0
    case GoodOp(service, time) => Good(e, t, service, time)
    case AttemptOp(service, time) => Attempt(t, service, time)
    case ConnectedOp(service, time) => Connected(t, service, time)
    case GetAddrOp(draws, now) => GetAddr(t, draws, now).0
  }

  ghost function Run(e: Env, ops: seq<Op>): Tables
  {
    if ops == [] then EMPTY else Step(e, Run(e, ops[..|ops| - 1]), ops[|ops| - 1])
  }

  lemma StepKeepsConsistent(e: Env, t: Tables, op: Op)
    requires Consistent(e, t)
    ensures Consistent(e, Step(e, t, op))
  {
    hide Add, Good, Attempt, Connected, GetAddr, Consistent, SameButPosition;
    match op
    case AddOp(addr, source, penalty, now, draw) => AddKeepsConsistent(e, t, addr, source, penalty, now, draw);
    case GoodOp(service, time) => GoodKeepsConsistent(e, t, service, time);
    case AttemptOp(service, time) => AttemptKeepsConsistent(e, t, service, time);
    case ConnectedOp(service, time) => ConnectedKeepsConsistent(e, t, service, time);
    case GetAddrOp(draws, now) => GetAddrCorrect(e, t, draws, now);
  }

  lemma StepIsTimelyIff(e: Env, t: Tables, op: Op)
    requires Consistent(e, t) && Timely(t.info)
    ensures Timely(Step(e, t, op).info) <==> ClockOk(t, op)
  {
    hide Add, Good, Attempt, Connected, GetAddr, Consistent, Timely, IsKnown;
    match op
    case AddOp(addr, source, penalty, now, draw) => AddKeepsTimely(e, t, addr, source, penalty, now, draw);
    case GoodOp(service, time) => GoodIsTimelyIff(e, t, service, time);
    case AttemptOp(service, time) => AttemptIsTimelyIff(t, service, time);
    case ConnectedOp(service, time) => ConnectedKeepsTimely(t, service, time);
    case GetAddrOp(draws, now) => GetAddrKeepsTimely(e, t, draws, now);
  }

  /** Every run from the empty manager ends in consistent tables, whatever the clocks said. */
  lemma {:induction false} EveryRunIsConsistent(e: Env, ops: seq<Op>)
    ensures Consistent(e, Run(e, ops))
  {
    if ops == [] {
      EmptyIsConsistent(e);
    } else {
      hide Consistent, Step;
      EveryRunIsConsistent(e, ops[..|ops| - 1]);
      StepKeepsConsistent(e, Run(e, ops[..|ops| - 1]), ops[|ops| - 1]);
    }
  }

  /** Every clock in the run was right for its operation. */
  ghost predicate ClocksOk(e: Env, ops: seq<Op>)
  {
    ops == [] || (ClocksOk(e, ops[..|ops| - 1]) && ClockOk(Run(e, ops[..|ops| - 1]), ops[|ops| - 1]))
  }

  /** With such clocks the source's check passes at the end of every run; at the first other one, it fails. */
  lemma {:induction false} EveryRunPassesCheck(e: Env, ops: seq<Op>)
    requires e.key != 0 && ClocksOk(e, ops)
    ensures CheckPasses(e, Run(e, ops))
    ensures forall op :: CheckPasses(e, Run(e, ops + [op])) <==> ClockOk(Run(e, ops), op)
  {
    EveryRunIsTimely(e, ops);
    EveryRunIsConsistent(e, ops);
    ConsistentPassesCheck(e, Run(e, ops));
    forall op ensures CheckPasses(e, Run(e, ops + [op])) <==> ClockOk(Run(e, ops), op) {
      NextStep(e, ops, op);
      hide Consistent, Step, CheckPasses, ClockOk, Run, Timely;
      EveryRunIsConsistent(e, ops + [op]);
      StepIsTimelyIff(e, Run(e, ops), op);
      ConsistentPassesCheck(e, Run(e, ops + [op]));
    }
  }

  lemma NextStep(e: Env, ops: seq<Op>, op: Op)
    ensures Run(e, ops + [op]) == Step(e, Run(e, ops), op)
  {
    hide Step;
    assert (ops + [op])[..|ops|] == ops;
  }

  lemma {:induction false} EveryRunIsTimely(e: Env, ops: seq<Op>)
    requires ClocksOk(e, ops)
    ensures Timely(Run(e, ops).info)
  {
    if ops != [] {
      hide Step, ClockOk, Timely, Consistent;
      EveryRunIsTimely(e, ops[..|ops| - 1]);
      EveryRunIsConsistent(e, ops[..|ops| - 1]);
      StepIsTimelyIff(e, Run(e, ops[..|ops| - 1]), ops[|ops| - 1]);
    }
  }

  /** Clocks that are always after zero are right. */
  lemma {:induction false} PositiveClocksAreOk(e: Env, ops: seq<Op>)
    requires forall op :: op in ops ==> (op.GoodOp? ==> op.time > 0) && (op.AttemptOp? ==> op.time >= 0)
    ensures ClocksOk(e, ops)
  {
    if ops != [] {
      hide Run, IsKnown;
      PositiveClocksAreOk(e, ops[..|ops| - 1]);
    }
  }
}
