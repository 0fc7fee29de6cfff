/**
  Both services take one service-wide lock around every charge and use, so any
  concurrent run of them is equivalent to some serial order of atomic steps.
  This module states a step and a serial run as functions of the store, proves
  what every serial order keeps (other users untouched, the log only growing,
  balances staying within bounds), and models the concurrency test
  `PointConcurrencyTest` as a statement about every such order.
 */
module Serial {
  import opened Ledger
  import Service
  import Point

  datatype Op = Charge(userId: int, amount: int) | Use(userId: int, amount: int)

  /** Which of the two services runs the operations; they differ only in the use guard. */
  datatype Variant = ServiceVariant | PointVariant

  predicate UseRejected(v: Variant, balance: int, amount: int) {
    match v
    case ServiceVariant => Service.InsufficientForUse(balance, amount)
    case PointVariant => Point.Insufficient(balance, amount)
  }

  /**
    One locked critical section: a charge always commits; a use commits
    unless the guard rejects it, and a rejected use changes nothing. Only the
    operation's user is touched, and the log grows by at most one record.
   */
  function Apply(v: Variant, s: Store, op: Op): (t: Store)
    ensures forall other :: other != op.userId ==> Balance(t.balances, other) == Balance(s.balances, other)
    ensures |t.history| == |s.history| + (if op.Use? && UseRejected(v, Balance(s.balances, op.userId), op.amount) then 0 else 1)
    ensures t.history[..|s.history|] == s.history
  {
    match op
    case Charge(userId, amount) => Charged(s, userId, amount)
    case Use(userId, amount) =>
      if UseRejected(v, Balance(s.balances, userId), amount) then s else Used(s, userId, amount)
  }

  /** The operations applied one after another, first to last; the log only grows. */
  function Run(v: Variant, s: Store, ops: seq<Op>): (t: Store)
    ensures |s.history| <= |t.history| <= |s.history| + |ops|
    ensures t.history[..|s.history|] == s.history
    decreases |ops|
  {
    if ops == [] then s
    else
      var t := Apply(v, s, ops[0]);
      var r := Run(v, t, ops[1..]);
      assert r.history[..|s.history|] == r.history[..|t.history|][..|s.history|];
      r
  }

  /** Sum of the amounts charged to `userId`. */
  function ChargedTotal(ops: seq<Op>, userId: int): (total: int) {
    if ops == [] then 0
    else (if ops[0].Charge? && ops[0].userId == userId then ops[0].amount else 0)
         + ChargedTotal(ops[1..], userId)
  }

  /** Sum of the amounts of the uses on `userId` that the guard accepts along a run. */
  function AcceptedUseTotal(v: Variant, s: Store, ops: seq<Op>, userId: int): (total: int)
    decreases |ops|
  {
    if ops == [] then 0
    else (if ops[0].Use? && ops[0].userId == userId
             && !UseRejected(v, Balance(s.balances, userId), ops[0].amount)
          then ops[0].amount else 0)
         + AcceptedUseTotal(v, Apply(v, s, ops[0]), ops[1..], userId)
  }

  /** Number of charges among the operations. */
  function ChargeCount(ops: seq<Op>): (n: nat)
    ensures n <= |ops|
  {
    if ops == [] then 0 else (if ops[0].Charge? then 1 else 0) + ChargeCount(ops[1..])
  }

  /** A use the guard lets through, with a non-negative amount, leaves a non-negative balance. */
  lemma AcceptedUseNonNegative(v: Variant, balance: int, amount: int)
    requires amount >= 0 && !UseRejected(v, balance, amount)
    ensures balance - amount >= 0
    ensures v == ServiceVariant ==> balance - amount >= amount
  {
  }

  /**
    The two guards differ: with 900 points a use of 500 is rejected by the
    service-package guard although the balance covers it, and accepted by the
    point-package guard, which leaves 400.
   */
  lemma CoveredUseRejected()
    ensures var s := Store(map[1 := 900], []);
            && Apply(ServiceVariant, s, Use(1, 500)) == s
            && Balance(Apply(PointVariant, s, Use(1, 500)).balances, 1) == 400
  {
  }

  /** For non-negative amounts the service-package guard rejects whatever the point-package guard rejects. */
  lemma ServiceGuardStricter(balance: int, amount: int)
    requires amount >= 0
    ensures UseRejected(PointVariant, balance, amount) ==> UseRejected(ServiceVariant, balance, amount)
  {
  }

  /** Running a sequence then one more operation is the run of the longer sequence. */
  lemma {:induction false} RunSnoc(v: Variant, s: Store, ops: seq<Op>, op: Op)
    ensures Run(v, s, ops + [op]) == Apply(v, Run(v, s, ops), op)
    decreases |ops|
  {
    if ops == [] {
      assert ops + [op] == [op];
    } else {
      assert (ops + [op])[1..] == ops[1..] + [op];
      RunSnoc(v, Apply(v, s, ops[0]), ops[1..], op);
    }
  }

  /** Operations on other users never change a user's balance or history. */
  lemma {:induction false} RunIsolation(v: Variant, s: Store, ops: seq<Op>, userId: int)
    requires forall i :: 0 <= i < |ops| ==> ops[i].userId != userId
    ensures Balance(Run(v, s, ops).balances, userId) == Balance(s.balances, userId)
    ensures HistoryOf(Run(v, s, ops).history, userId) == HistoryOf(s.history, userId)
    decreases |ops|
  {
    if ops != [] {
      var t := Apply(v, s, ops[0]);
      if ops[0].Charge? {
        HistoryOfAppend(s.history, PointHistory(ops[0].userId, ops[0].amount, CHARGE), userId);
      } else if t != s {
        HistoryOfAppend(s.history, PointHistory(ops[0].userId, ops[0].amount, USE), userId);
      }
      RunIsolation(v, t, ops[1..], userId);
    }
  }

  /**
    The log is only appended to: the old records stay in place, every charge
    adds one record and every use adds at most one.
   */
  lemma {:induction false} RunAppendsHistory(v: Variant, s: Store, ops: seq<Op>)
    ensures |Run(v, s, ops).history| >= |s.history|
    ensures Run(v, s, ops).history[..|s.history|] == s.history
    ensures |s.history| + ChargeCount(ops) <= |Run(v, s, ops).history| <= |s.history| + |ops|
    decreases |ops|
  {
    if ops != [] {
      RunAppendsHistory(v, Apply(v, s, ops[0]), ops[1..]);
    }
  }

  /**
    No update is lost: a user's balance after any serial run is the start
    plus everything charged to them minus every use the guard let through.
   */
  lemma {:induction false} RunBalance(v: Variant, s: Store, ops: seq<Op>, userId: int)
    ensures Balance(Run(v, s, ops).balances, userId)
         == Balance(s.balances, userId) + ChargedTotal(ops, userId) - AcceptedUseTotal(v, s, ops, userId)
    decreases |ops|
  {
    if ops != [] {
      RunBalance(v, Apply(v, s, ops[0]), ops[1..], userId);
    }
  }

  /** `n` charges of `amount` to one user. */
  function Charges(userId: int, amount: int, n: nat): (ops: seq<Op>)
    ensures |ops| == n
    ensures forall i :: 0 <= i < n ==> ops[i] == Charge(userId, amount)
  {
    if n == 0 then [] else [Charge(userId, amount)] + Charges(userId, amount, n - 1)
  }

  /** The `n` CHARGE records those charges append. */
  function ChargeRecords(userId: int, amount: int, n: nat): (records: seq<PointHistory>)
    ensures |records| == n
  {
    if n == 0 then [] else [PointHistory(userId, amount, CHARGE)] + ChargeRecords(userId, amount, n - 1)
  }

  lemma MulPred(n: nat, amount: int)
    requires n > 0
    ensures amount + (n - 1) * amount == n * amount
  {
  }

  /** One charge followed by `n - 1` more is the run of `n` charges. */
  lemma ChargesUnfold(v: Variant, s: Store, userId: int, amount: int, n: nat)
    requires n > 0
    ensures Run(v, s, Charges(userId, amount, n))
         == Run(v, Charged(s, userId, amount), Charges(userId, amount, n - 1))
  {
    var ops := Charges(userId, amount, n);
    assert ops[0] == Charge(userId, amount);
    assert ops[1..] == Charges(userId, amount, n - 1);
  }

  /**
    `n` charges of `amount` from balance `b`, under either guard, end at
    exactly `b + n * amount`: no charge is lost.
   */
  lemma {:induction false} ChargesAccumulate(v: Variant, s: Store, userId: int, amount: int, n: nat)
    ensures Balance(Run(v, s, Charges(userId, amount, n)).balances, userId)
         == Balance(s.balances, userId) + n * amount
    decreases n
  {
    if n > 0 {
      var t := Charged(s, userId, amount);
      var before, rest := Balance(s.balances, userId), (n - 1) * amount;
      assert Balance(Run(v, s, Charges(userId, amount, n)).balances, userId) == before + amount + rest by {
        ChargesUnfold(v, s, userId, amount, n);
        ChargesAccumulate(v, t, userId, amount, n - 1);
      }
      MulPred(n, amount);
    }
  }

  /** `n` charges of `amount` append exactly `n` CHARGE records of `amount`, in order. */
  lemma {:induction false} ChargesRecorded(v: Variant, s: Store, userId: int, amount: int, n: nat)
    ensures Run(v, s, Charges(userId, amount, n)).history
         == s.history + ChargeRecords(userId, amount, n)
    decreases n
  {
    if n > 0 {
      var t := Charged(s, userId, amount);
      var record, rest := PointHistory(userId, amount, CHARGE), ChargeRecords(userId, amount, n - 1);
      assert Run(v, s, Charges(userId, amount, n)).history == t.history + rest by {
        ChargesUnfold(v, s, userId, amount, n);
        ChargesRecorded(v, t, userId, amount, n - 1);
      }
      assert t.history + rest == s.history + ChargeRecords(userId, amount, n) by {
        assert t.history == s.history + [record];
        assert ChargeRecords(userId, amount, n) == [record] + rest;
      }
    }
  }

  /**
    With non-negative amounts, a user who starts non-negative stays
    non-negative and never exceeds the start plus what was charged to them.
   */
  lemma {:induction false} RunBounds(v: Variant, s: Store, ops: seq<Op>, userId: int)
    requires forall i :: 0 <= i < |ops| && ops[i].userId == userId ==> ops[i].amount >= 0
    requires Balance(s.balances, userId) >= 0
    ensures 0 <= Balance(Run(v, s, ops).balances, userId)
              <= Balance(s.balances, userId) + ChargedTotal(ops, userId)
    decreases |ops|
  {
    if ops != [] {
      var t := Apply(v, s, ops[0]);
      if ops[0].Use? && ops[0].userId == userId && t != s {
        AcceptedUseNonNegative(v, Balance(s.balances, userId), ops[0].amount);
      }
      RunBounds(v, t, ops[1..], userId);
    }
  }

  /** `n` uses of `amount` by one user. */
  function Uses(userId: int, amount: int, n: nat): (ops: seq<Op>)
    ensures |ops| == n
    ensures forall i :: 0 <= i < n ==> ops[i] == Use(userId, amount)
  {
    if n == 0 then [] else [Use(userId, amount)] + Uses(userId, amount, n - 1)
  }

  /**
    The ten tasks of the concurrency test as it builds them: five
    `chargePoint(1000)` and then five `usePoint(500)`. The executor may run
    them in any order, so a schedule is any sequence with this multiset.
   */
  function TestTasks(userId: int): (tasks: multiset<Op>) {
    multiset(Charges(userId, 1000, 5) + Uses(userId, 500, 5))
  }

  lemma {:induction false} ChargesMultiset(userId: int, amount: int, n: nat)
    ensures multiset(Charges(userId, amount, n))[Charge(userId, amount)] == n
    decreases n
  {
    if n > 0 {
      assert Charges(userId, amount, n) == [Charge(userId, amount)] + Charges(userId, amount, n - 1);
      ChargesMultiset(userId, amount, n - 1);
    }
  }

  /** The test's task multiset: ten tasks, five of them the charge, each one of the two tasks. */
  lemma TestTasksShape(userId: int)
    ensures |TestTasks(userId)| == 10
    ensures TestTasks(userId)[Charge(userId, 1000)] == 5
    ensures forall x :: x in TestTasks(userId) ==> x == Charge(userId, 1000) || x == Use(userId, 500)
  {
    var cs, us := Charges(userId, 1000, 5), Uses(userId, 500, 5);
    assert multiset(cs + us) == multiset(cs) + multiset(us);
    ChargesMultiset(userId, 1000, 5);
    assert Charge(userId, 1000) !in us;
    forall x | x in TestTasks(userId)
      ensures x == Charge(userId, 1000) || x == Use(userId, 500)
    {
      assert x in cs + us;
    }
  }

  /** In a schedule made only of the test's two tasks, totals follow from the task counts. */
  lemma {:induction false} ScheduleTotals(ops: seq<Op>, userId: int)
    requires forall i :: 0 <= i < |ops| ==> ops[i] == Charge(userId, 1000) || ops[i] == Use(userId, 500)
    ensures ChargedTotal(ops, userId) == 1000 * multiset(ops)[Charge(userId, 1000)]
    ensures ChargeCount(ops) == multiset(ops)[Charge(userId, 1000)]
  {
    if ops != [] {
      assert ops == [ops[0]] + ops[1..];
      assert multiset(ops) == multiset{ops[0]} + multiset(ops[1..]);
      ScheduleTotals(ops[1..], userId);
    }
  }

  /** Every element of a schedule of the test's tasks is one of the two tasks. */
  lemma TestScheduleShape(ops: seq<Op>, userId: int)
    requires multiset(ops) == TestTasks(userId)
    ensures |ops| == 10
    ensures multiset(ops)[Charge(userId, 1000)] == 5
    ensures forall i :: 0 <= i < |ops| ==> ops[i] == Charge(userId, 1000) || ops[i] == Use(userId, 500)
    ensures forall i :: 0 <= i < |ops| ==> ops[i].amount >= 0
  {
    TestTasksShape(userId);
    assert |multiset(ops)| == 10;
    forall i | 0 <= i < |ops|
      ensures ops[i] == Charge(userId, 1000) || ops[i] == Use(userId, 500)
    {
      assert ops[i] in multiset(ops);
    }
  }

  /**
    `PointConcurrencyTest`: from a balance of 0, every serial order of five
    `chargePoint(1000)` and five `usePoint(500)` ends with a balance in
    [0, 5000], with all five charges and at most five uses in the log.
   */
  lemma ConcurrentChargeAndUse(v: Variant, s: Store, ops: seq<Op>, userId: int)
    requires Balance(s.balances, userId) == 0
    requires multiset(ops) == TestTasks(userId)
    ensures 0 <= Balance(Run(v, s, ops).balances, userId) <= 5000
    ensures Balance(Run(v, s, ops).balances, userId) == 5000 - AcceptedUseTotal(v, s, ops, userId)
    ensures |s.history| + 5 <= |Run(v, s, ops).history| <= |s.history| + 10
  {
    TestScheduleShape(ops, userId);
    ScheduleTotals(ops, userId);
    RunBounds(v, s, ops, userId);
    RunBalance(v, s, ops, userId);
    RunAppendsHistory(v, s, ops);
  }

  /**
    Some orders of the test's tasks reject a use under either guard: a use
    scheduled first finds the balance 0. The test's task rethrows that
    `PointException`, so `result.get()` fails for such an order.
   */
  lemma UseFirstRejected(v: Variant, s: Store, userId: int)
    requires Balance(s.balances, userId) == 0
    ensures var ops := [Use(userId, 500)] + Charges(userId, 1000, 5) + Uses(userId, 500, 4);
            && multiset(ops) == TestTasks(userId)
            && Apply(v, s, ops[0]) == s
  {
    var cs, us := Charges(userId, 1000, 5), Uses(userId, 500, 4);
    assert Uses(userId, 500, 5) == [Use(userId, 500)] + us;
    assert multiset([Use(userId, 500)] + cs + us) == multiset([Use(userId, 500)]) + multiset(cs) + multiset(us);
    assert multiset(cs + ([Use(userId, 500)] + us)) == multiset(cs) + multiset([Use(userId, 500)]) + multiset(us);
  }

  /**
    The test's task loop against the service-package service: the executor
    runs the ten tasks in the order `schedule`, and the service lock makes each
    one an atomic step. A rejected use is counted rather than rethrown.
   */
  method ChargeAndUseConcurrently(service: Service.PointService, userId: int, schedule: seq<Op>)
    returns (finalPoint: UserPoint, rejected: nat)
    requires Balance(service.userPointTable, userId) == 0
    requires multiset(schedule) == TestTasks(userId)
    modifies service
    ensures service.State() == Run(ServiceVariant, old(service.State()), schedule)
    ensures finalPoint.id == userId && 0 <= finalPoint.point <= 5000
    ensures rejected <= 5
    ensures finalPoint.point == 2500 + 500 * rejected
    ensures |service.pointHistoryTable| == |old(service.pointHistoryTable)| + 10 - rejected
  {
    ghost var s0 := service.State();
    TestScheduleShape(schedule, userId);
    ScheduleTotals(schedule, userId);
    ConcurrentChargeAndUse(ServiceVariant, s0, schedule, userId);
    rejected := RunSchedule(service, userId, schedule);
    finalPoint := service.GetPoint(userId);
  }

  /**
    The executor's loop over a schedule of the test's two tasks: the service
    ends in the serial-run state, and its balance is what the accepted charges
    and uses add up to.
   */
  method RunSchedule(service: Service.PointService, userId: int, schedule: seq<Op>) returns (rejected: nat)
    requires |schedule| <= 10
    requires forall i :: 0 <= i < |schedule| ==> schedule[i] == Charge(userId, 1000) || schedule[i] == Use(userId, 500)
    requires Balance(service.userPointTable, userId) == 0
    modifies service
    ensures service.State() == Run(ServiceVariant, old(service.State()), schedule)
    ensures rejected <= |schedule| - ChargeCount(schedule)
    ensures |service.pointHistoryTable| == |old(service.pointHistoryTable)| + |schedule| - rejected
    ensures Balance(service.userPointTable, userId)
         == 1000 * ChargeCount(schedule) - 500 * (|schedule| - ChargeCount(schedule) - rejected)
  {
    ghost var s0 := service.State();
    rejected := 0;
    var i := 0;
    while i < |schedule|
      invariant 0 <= i <= |schedule|
      invariant service.State() == Run(ServiceVariant, s0, schedule[..i])
      invariant rejected <= i - ChargeCount(schedule[..i])
      invariant |service.pointHistoryTable| == |s0.history| + i - rejected
      invariant Balance(service.userPointTable, userId)
             == 1000 * ChargeCount(schedule[..i]) - 500 * (i - ChargeCount(schedule[..i]) - rejected)
    {
      PrefixStep(ServiceVariant, s0, schedule, i);
      var wasRejected := RunTask(service, userId, schedule[i]);
      if wasRejected {
        rejected := rejected + 1;
      }
      i := i + 1;
    }
    assert schedule[..i] == schedule;
  }

  /** Extending a prefix of a schedule by one operation is one more serial step. */
  lemma PrefixStep(v: Variant, s: Store, ops: seq<Op>, i: nat)
    requires i < |ops|
    ensures Run(v, s, ops[..i + 1]) == Apply(v, Run(v, s, ops[..i]), ops[i])
    ensures ChargeCount(ops[..i + 1]) == ChargeCount(ops[..i]) + (if ops[i].Charge? then 1 else 0)
  {
    assert ops[..i + 1] == ops[..i] + [ops[i]];
    RunSnoc(v, s, ops[..i], ops[i]);
    ScheduleCountSnoc(ops[..i], ops[i]);
  }

  /**
    One task of the test under the service lock: a charge of 1000 or a use of
    500. Its effect is the serial step; `wasRejected` reports a rejected use.
   */
  method RunTask(service: Service.PointService, userId: int, op: Op) returns (wasRejected: bool)
    requires op == Charge(userId, 1000) || op == Use(userId, 500)
    requires -10000 <= Balance(service.userPointTable, userId) <= 10000
    modifies service
    ensures service.State() == Apply(ServiceVariant, old(service.State()), op)
    ensures wasRejected <==> op.Use? && UseRejected(ServiceVariant, old(Balance(service.userPointTable, userId)), 500)
    ensures Balance(service.userPointTable, userId)
         == old(Balance(service.userPointTable, userId))
            + (if op.Charge? then 1000 else if wasRejected then 0 else -500)
  {
    if op.Charge? {
      var _ := service.ChargePoint(userId, 1000);
      wasRejected := false;
    } else {
      var r := service.UsePoint(userId, 500);
      wasRejected := r.Err?;
    }
  }

  lemma {:induction false} ScheduleCountSnoc(ops: seq<Op>, op: Op)
    ensures ChargeCount(ops + [op]) == ChargeCount(ops) + (if op.Charge? then 1 else 0)
    decreases |ops|
  {
    if ops == [] {
      assert ops + [op] == [op];
      assert [op][1..] == [];
    } else {
      assert (ops + [op])[1..] == ops[1..] + [op];
      ScheduleCountSnoc(ops[1..], op);
    }
  }
}
