/**
  `io.hhplus.tdd.point.PointService`: the other variant. Same shape as the
  service-package one (one lock for the whole service, balance write before
  history append), with a private `getCurrentPoint` read and the use guard
  `currentPoint < amount`.
 */
module Point {
  import opened Ledger

  /** The use guard: the current balance does not cover the amount. */
  predicate Insufficient(currentPoint: int, amount: int) {
    currentPoint < amount
  }

  /** The guard rejects exactly the uses that would leave a negative balance. */
  lemma InsufficientIff(currentPoint: int, amount: int)
    ensures Insufficient(currentPoint, amount) <==> currentPoint - amount < 0
  {
  }

  class PointService {
    /** The balance table behind `UserPointTable`. */
    var userPointTable: map<int, int>
    /** The log behind `PointHistoryTable`, oldest record first. */
    var pointHistoryTable: seq<PointHistory>

    /** The tables are injected; the service starts from whatever they hold. */
    constructor (balances: map<int, int>, history: seq<PointHistory>)
      ensures userPointTable == balances && pointHistoryTable == history
    {
      userPointTable := balances;
      pointHistoryTable := history;
    }

    function State(): Store
      reads this
    {
      Store(userPointTable, pointHistoryTable)
    }

    /** `getCurrentPoint`: the stored balance, 0 for a user never written. */
    method GetCurrentPoint(userId: int) returns (point: int)
      ensures userId in userPointTable ==> point == userPointTable[userId]
      ensures userId !in userPointTable ==> point == 0
    {
      point := Balance(userPointTable, userId);
    }

    /**
      Writes getCurrentPoint + amount, then appends one CHARGE record; there is
      no rejection path. The requires excludes only a sum outside `long`.
     */
    method ChargePoint(userId: int, amount: int) returns (updated: UserPoint)
      requires InLong(Balance(userPointTable, userId) + amount)
      modifies this
      ensures State() == Charged(old(State()), userId, amount)
      ensures updated == UserPoint(userId, old(Balance(userPointTable, userId)) + amount)
      ensures updated.point == Balance(userPointTable, userId)
    {
      var currentPoint := GetCurrentPoint(userId);
      userPointTable := userPointTable[userId := currentPoint + amount];
      updated := UserPoint(userId, currentPoint + amount);
      pointHistoryTable := pointHistoryTable + [PointHistory(userId, amount, CHARGE)];
    }

    /**
      Throws `IllegalArgumentException` before any write when the balance does
      not cover the amount; otherwise writes currentPoint - amount and appends
      one USE record. The requires excludes only a difference outside `long`
      on the path that computes it.
     */
    method UsePoint(userId: int, amount: int) returns (r: Result)
      requires !Insufficient(Balance(userPointTable, userId), amount)
               ==> InLong(Balance(userPointTable, userId) - amount)
      modifies this
      ensures r.Err? <==> Insufficient(old(Balance(userPointTable, userId)), amount)
      ensures r.Err? ==> r.error == IllegalArgumentException && State() == old(State())
      ensures r.Ok? ==> State() == Used(old(State()), userId, amount)
      ensures r.Ok? ==> r.value == UserPoint(userId, Balance(userPointTable, userId))
      ensures r.Ok? ==> r.value.point == old(Balance(userPointTable, userId)) - amount >= 0
    {
      var currentPoint := GetCurrentPoint(userId);
      if currentPoint < amount {
        return Err(IllegalArgumentException);
      }
      userPointTable := userPointTable[userId := currentPoint - amount];
      var updated := UserPoint(userId, currentPoint - amount);
      pointHistoryTable := pointHistoryTable + [PointHistory(userId, amount, USE)];
      return Ok(updated);
    }

    /** `selectById`: the stored balance, 0 for a user never written. */
    method GetPoint(userId: int) returns (p: UserPoint)
      ensures p.id == userId
      ensures userId in userPointTable ==> p.point == userPointTable[userId]
      ensures userId !in userPointTable ==> p.point == 0
    {
      p := UserPoint(userId, Balance(userPointTable, userId));
    }

    /** `selectAllByUserId`: exactly this user's records, in the order they were appended. */
    method GetHistory(userId: int) returns (h: seq<PointHistory>)
      ensures forall r :: r in h <==> r in pointHistoryTable && r.userId == userId
      ensures h == HistoryOf(pointHistoryTable, userId)
    {
      h := HistoryOf(pointHistoryTable, userId);
      forall r | r in pointHistoryTable && r.userId == userId
        ensures r in h
      {
        HistoryOfComplete(pointHistoryTable, r);
      }
    }
  }
}
