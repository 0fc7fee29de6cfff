/**
  The state both point services work on: a balance table keyed by user id and
  an append-only log of point transactions, together with the two committed
  updates (a charge and a use) as functions of that state.

  The tables themselves (UserPointTable, PointHistoryTable and the repository
  interfaces in front of them) are not part of this model; they are abstracted
  as a map and a sequence, and a read of a user that was never written yields
  the balance 0.
 */
module Ledger {

  /** Range of a Java `long`. */
  const LONG_MIN: int := -0x8000_0000_0000_0000
  const LONG_MAX: int := 0x7fff_ffff_ffff_ffff

  predicate InLong(x: int) {
    LONG_MIN <= x <= LONG_MAX
  }

  datatype TransactionType = CHARGE | USE

  /** One history record; the table-assigned id and the timestamp are left out. */
  datatype PointHistory = PointHistory(userId: int, amount: int, kind: TransactionType)

  /** A user's point balance as returned by the services; `updateMillis` is left out. */
  datatype UserPoint = UserPoint(id: int, point: int)

  /** What a service call returns: the written balance, or the exception it throws. */
  datatype Failure = PointException | IllegalArgumentException
  datatype Result = Ok(value: UserPoint) | Err(error: Failure)

  /** The balance table and the history log together. */
  datatype Store = Store(balances: map<int, int>, history: seq<PointHistory>)

  /** `selectById(userId).point()`: a user never written reads as 0. */
  function Balance(balances: map<int, int>, userId: int): (point: int)
    ensures userId !in balances ==> point == 0
    ensures userId in balances ==> point == balances[userId]
  {
    if userId in balances then balances[userId] else 0
  }

  /** `selectAllByUserId`: the records of one user, in insertion order. */
  function HistoryOf(history: seq<PointHistory>, userId: int): (records: seq<PointHistory>)
    ensures |records| <= |history|
    ensures forall r :: r in records ==> r in history && r.userId == userId
  {
    if history == [] then []
    else if history[0].userId == userId then [history[0]] + HistoryOf(history[1..], userId)
    else HistoryOf(history[1..], userId)
  }

  /** Every record of the user in the log is returned by HistoryOf. */
  lemma {:induction false} HistoryOfComplete(history: seq<PointHistory>, r: PointHistory)
    requires r in history
    ensures r in HistoryOf(history, r.userId)
  {
    if history[0] != r {
      HistoryOfComplete(history[1..], r);
    }
  }

  /** Appending a record extends the history of its own user at the end and no other. */
  lemma {:induction false} HistoryOfAppend(history: seq<PointHistory>, r: PointHistory, userId: int)
    ensures HistoryOf(history + [r], userId)
         == HistoryOf(history, userId) + (if r.userId == userId then [r] else [])
  {
    if history == [] {
      assert history + [r] == [r];
      assert [r][1..] == [];
    } else {
      assert (history + [r])[1..] == history[1..] + [r];
      HistoryOfAppend(history[1..], r, userId);
    }
  }

  /**
    `insertOrUpdate(userId, point)` followed by `insert(record)`: the one
    balance entry is overwritten and the record goes at the end of the log.
   */
  function Commit(s: Store, userId: int, point: int, record: PointHistory): (t: Store)
    requires record.userId == userId
    ensures Balance(t.balances, userId) == point
    ensures forall other :: other != userId ==> Balance(t.balances, other) == Balance(s.balances, other)
    ensures |t.history| == |s.history| + 1 && t.history[..|s.history|] == s.history
    ensures t.history[|s.history|] == record
  {
    Store(s.balances[userId := point], s.history + [record])
  }

  /** A commit extends the committing user's history by its record and no other user's. */
  lemma CommitHistory(s: Store, userId: int, point: int, record: PointHistory)
    requires record.userId == userId
    ensures HistoryOf(Commit(s, userId, point, record).history, userId) == HistoryOf(s.history, userId) + [record]
    ensures forall other :: other != userId
              ==> HistoryOf(Commit(s, userId, point, record).history, other) == HistoryOf(s.history, other)
  {
    forall other {
      HistoryOfAppend(s.history, record, other);
    }
  }

  /** The committed effect of `chargePoint(userId, amount)`. */
  function Charged(s: Store, userId: int, amount: int): (t: Store)
    ensures Balance(t.balances, userId) == Balance(s.balances, userId) + amount
    ensures forall other :: other != userId ==> Balance(t.balances, other) == Balance(s.balances, other)
    ensures t.history == s.history + [PointHistory(userId, amount, CHARGE)]
  {
    Commit(s, userId, Balance(s.balances, userId) + amount, PointHistory(userId, amount, CHARGE))
  }

  /** The committed effect of a `usePoint(userId, amount)` that passed its guard. */
  function Used(s: Store, userId: int, amount: int): (t: Store)
    ensures Balance(t.balances, userId) == Balance(s.balances, userId) - amount
    ensures forall other :: other != userId ==> Balance(t.balances, other) == Balance(s.balances, other)
    ensures t.history == s.history + [PointHistory(userId, amount, USE)]
  {
    Commit(s, userId, Balance(s.balances, userId) - amount, PointHistory(userId, amount, USE))
  }
}
