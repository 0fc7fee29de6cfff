/**
  `io.hhplus.tdd.point.service.PointService`: the variant the tests exercise.
  Every charge and use runs under one service-wide lock, so each is modelled as
  one atomic step over the whole store.
 */
module Service {
  import opened Ledger

  /**
    The use guard as written: the service computes `balance - amount` and
    throws when that is smaller than `amount`.
   */
  predicate InsufficientForUse(balance: int, amount: int) {
    balance - amount < amount
  }

  /** The guard rejects exactly the balances below twice the amount. */
  lemma InsufficientForUseIff(balance: int, amount: int)
    ensures InsufficientForUse(balance, amount) <==> balance < 2 * amount
  {
  }

  class PointService {
    /** The balance table behind `UserPointRepository`. */
    var userPointTable: map<int, int>
    /** The log behind `PointHistoryRepository`, oldest record first. */
    var pointHistoryTable: seq<PointHistory>

    /** The repositories are injected; the service starts from whatever they hold. */
    constructor (balances: map<int, int>, history: seq<PointHistory>)
      ensures userPointTable == balances && pointHistoryTable == history
    {
      userPointTable := balances;
      pointHistoryTable := history;
    }

    function State(): Store
      reads this
    {
      Store(userPointTable, pointHistoryTable)
    }

    /**
      Reads the balance, writes balance + amount, then appends one CHARGE
      record; there is no rejection path. The requires excludes only a sum
      outside the range of `long`.
     */
    method ChargePoint(userId: int, amount: int) returns (updated: UserPoint)
      requires InLong(Balance(userPointTable, userId) + amount)
      modifies this
      ensures State() == Charged(old(State()), userId, amount)
      ensures updated == UserPoint(userId, old(Balance(userPointTable, userId)) + amount)
      ensures updated.point == Balance(userPointTable, userId)
    {
      var userPoint := UserPoint(userId, Balance(userPointTable, userId));
      var updateAmount := userPoint.point + amount;
      userPointTable := userPointTable[userId := updateAmount];
      updated := UserPoint(userId, updateAmount);
      pointHistoryTable := pointHistoryTable + [PointHistory(userId, amount, CHARGE)];
    }

    /**
      Reads the balance and throws `PointException` before any write when the
      guard fires; otherwise writes balance - amount and appends one USE record.
      The requires excludes only a difference outside the range of `long`.
     */
    method UsePoint(userId: int, amount: int) returns (r: Result)
      requires InLong(Balance(userPointTable, userId) - amount)
      modifies this
      ensures r.Err? <==> InsufficientForUse(old(Balance(userPointTable, userId)), amount)
      ensures r.Err? ==> r.error == PointException && State() == old(State())
      ensures r.Ok? ==> State() == Used(old(State()), userId, amount)
      ensures r.Ok? ==> r.value == UserPoint(userId, Balance(userPointTable, userId))
      ensures r.Ok? ==> r.value.point == old(Balance(userPointTable, userId)) - amount >= amount
    {
      var userPoint := UserPoint(userId, Balance(userPointTable, userId));
      var updateAmount := userPoint.point - amount;
      if updateAmount < amount {
        return Err(PointException);
      }
      userPointTable := userPointTable[userId := updateAmount];
      var updated := UserPoint(userId, updateAmount);
      pointHistoryTable := pointHistoryTable + [PointHistory(userId, amount, USE)];
      return Ok(updated);
    }

    /** `selectById`: the stored balance, 0 for a user never written. */
    method GetPoint(userId: int) returns (p: UserPoint)
      ensures p.id == userId
      ensures userId in userPointTable ==> p.point == userPointTable[userId]
      ensures userId !in userPointTable ==> p.point == 0
    {
      p := UserPoint(userId, Balance(userPointTable, userId));
    }

    /** `selectAllByUserId`: exactly this user's records, in the order they were appended. */
    method GetHistory(userId: int) returns (h: seq<PointHistory>)
      ensures forall r :: r in h <==> r in pointHistoryTable && r.userId == userId
      ensures h == HistoryOf(pointHistoryTable, userId)
    {
      h := HistoryOf(pointHistoryTable, userId);
      forall r | r in pointHistoryTable && r.userId == userId
        ensures r in h
      {
        HistoryOfComplete(pointHistoryTable, r);
      }
    }
  }
}
