# Point service model

A Dafny model of the point (credit) service of `hhplus-tdd-java`. The service
holds a per-user balance table and an append-only transaction history.
`chargePoint` adds to a user's balance and records a CHARGE. `usePoint`
checks the balance, then either throws or subtracts and records a USE.
`getPoint` and `getHistory` are read-only.

The repository has two copies of the service, and both are modelled:

- `Service` models `io.hhplus.tdd.point.service.PointService`, the copy the
  tests exercise. Its use guard throws when `balance - amount < amount`.
- `Point` models `io.hhplus.tdd.point.PointService`. Its use guard throws when
  `currentPoint < amount`.

Each is a `class` with two fields. `userPointTable: map<int, int>` stands for
the balance table, and `pointHistoryTable: seq<PointHistory>` for the history
table. The charge and use methods update those fields and say so in their
`ensures`. Each method's new state equals a function of the old state in the
`Ledger` module: `Charged`, or `Used`, or no change when the use is rejected.
The frame properties are proved about those functions: only the one user's
balance changes, and the log only grows at its end.

Both services wrap every charge and use in one service-wide `ReentrantLock`,
so every concurrent run equals some serial order of atomic steps. The
`Serial` module defines a step (`Apply`) and a serial run (`Run`) for either
guard. It proves what every order keeps:

- other users stay untouched;
- the log is only appended to;
- with non-negative amounts, a balance stays between 0 and its start plus
  what was charged;
- no update is lost: a balance ends at its start plus everything charged
  minus every use the guard accepted.

From these it proves the assertion of `PointConcurrencyTest` for every order
of the ten tasks. `PointServiceTest` replays the unit-test scenarios against
the class contracts.

The balance and history tables themselves are not part of this model. A read
of a user who was never written yields 0 (`Ledger.Balance`), which is how
`selectById` is assumed to behave.

There is one lock for all users, no upper balance limit and no check that
an amount is positive; the model follows the code. The two copies differ in
their use condition (see Findings).

## Model

| member | source | states |
|---|---|---|
| `Ledger.Balance` | src/main/java/io/hhplus/tdd/point/service/PointService.java:33-34 | a user present in the balance table reads as the stored value, a user never written reads as 0 |
| `Ledger.HistoryOf` | src/main/java/io/hhplus/tdd/point/service/PointService.java:75-77 | the records returned for a user all come from the log and all belong to that user; there are never more of them than records in the log |
| `Ledger.HistoryOfComplete` | src/main/java/io/hhplus/tdd/point/service/PointService.java:75-77 | every record of the user that is in the log is returned by the per-user history read |
| `Ledger.HistoryOfAppend` | src/main/java/io/hhplus/tdd/point/service/PointService.java:39-40 | appending a record adds it at the end of its own user's history and leaves every other user's history unchanged |
| `Ledger.Commit` | src/main/java/io/hhplus/tdd/point/service/PointService.java:60-63 | a balance write followed by a history insert sets exactly that user's balance, keeps every other balance, and keeps the old log as a prefix with the one record added at the end |
| `Ledger.CommitHistory` | src/main/java/io/hhplus/tdd/point/service/PointService.java:60-63 | a commit extends the committing user's history by exactly its record and leaves every other user's history unchanged |
| `Ledger.Charged` | src/main/java/io/hhplus/tdd/point/service/PointService.java:33-40 | a committed charge raises the user's balance by the amount, leaves other users' balances alone and appends one CHARGE record with the amount |
| `Ledger.Used` | src/main/java/io/hhplus/tdd/point/service/PointService.java:54-63 | a committed use lowers the user's balance by the amount, leaves other users' balances alone and appends one USE record with the amount |
| `Service.InsufficientForUseIff` | src/main/java/io/hhplus/tdd/point/service/PointService.java:55-59 | the service-package use guard fires exactly when the balance is below twice the amount |
| `Service.PointService.constructor` | src/main/java/io/hhplus/tdd/point/service/PointService.java:21-25 | the service starts from the contents of the injected repositories |
| `Service.PointService.ChargePoint` | src/main/java/io/hhplus/tdd/point/service/PointService.java:27-46 | never fails; the new state is the committed charge of the old one; the returned point is old balance + amount and equals the stored balance |
| `Service.PointService.UsePoint` | src/main/java/io/hhplus/tdd/point/service/PointService.java:48-69 | throws PointException exactly when balance - amount < amount, and then nothing changes; otherwise the new state is the committed use, and the returned point equals the stored balance, which is at least the amount |
| `Service.PointService.GetPoint` | src/main/java/io/hhplus/tdd/point/service/PointService.java:71-73 | returns the stored balance, or 0 for a user never written, and changes nothing |
| `Service.PointService.GetHistory` | src/main/java/io/hhplus/tdd/point/service/PointService.java:75-77 | returns exactly the user's records of the log, in log order, and changes nothing |
| `Point.InsufficientIff` | src/main/java/io/hhplus/tdd/point/PointService.java:43-46 | the point-package use guard fires exactly when the use would leave a negative balance |
| `Point.PointService.constructor` | src/main/java/io/hhplus/tdd/point/PointService.java:17-21 | the service starts from the contents of the injected tables |
| `Point.PointService.GetCurrentPoint` | src/main/java/io/hhplus/tdd/point/PointService.java:66-68 | returns the stored balance, or 0 for a user never written |
| `Point.PointService.ChargePoint` | src/main/java/io/hhplus/tdd/point/PointService.java:23-37 | never fails; the new state is the committed charge of the old one; the returned point is current balance + amount and equals the stored balance |
| `Point.PointService.UsePoint` | src/main/java/io/hhplus/tdd/point/PointService.java:39-56 | throws IllegalArgumentException exactly when currentPoint < amount, and then nothing changes; otherwise the new state is the committed use, and the returned and stored balance is non-negative |
| `Point.PointService.GetPoint` | src/main/java/io/hhplus/tdd/point/PointService.java:58-60 | returns the stored balance, or 0 for a user never written, and changes nothing |
| `Point.PointService.GetHistory` | src/main/java/io/hhplus/tdd/point/PointService.java:62-64 | returns exactly the user's records of the log, in log order, and changes nothing |
| `PointServiceTest.ChargePointShouldUpdateUserPoint` | src/test/java/io/hhplus/tdd/point/PointServiceTest.java:38-57 | from a balance of 1000, charging 500 returns the point 1500 and logs one CHARGE of 500 |
| `PointServiceTest.UsePointShouldRecordHistory` | src/test/java/io/hhplus/tdd/point/PointServiceTest.java:59-81 | from a balance of 1000, using 500 succeeds with the point 500 and logs one USE of 500 for that user |
| `PointServiceTest.UsePointShouldThrowWhenInsufficientBalance` | src/test/java/io/hhplus/tdd/point/PointServiceTest.java:82-98 | from a balance of 100, using 500 throws PointException, the balance is not written and nothing is logged |
| `Serial.Apply` | src/main/java/io/hhplus/tdd/point/service/PointService.java:31-44 | one locked step changes no other user's balance, keeps the log as a prefix, and adds one record unless it is a use the guard rejects |
| `Serial.Run` | src/main/java/io/hhplus/tdd/point/service/PointService.java:31-69 | a serial run of steps keeps the old log as a prefix and adds at most one record per operation |
| `Serial.AcceptedUseNonNegative` | src/main/java/io/hhplus/tdd/point/service/PointService.java:54-59 | with a non-negative amount, a use either guard accepts leaves a non-negative balance; under the service-package guard the balance left is at least the amount |
| `Serial.ServiceGuardStricter` | src/main/java/io/hhplus/tdd/point/PointService.java:44 | for non-negative amounts, every use the point-package guard rejects is also rejected by the service-package guard |
| `Serial.CoveredUseRejected` | src/main/java/io/hhplus/tdd/point/service/PointService.java:55-58 | from a balance of 900, a use of 500 leaves the store unchanged under the service-package guard but leaves 400 under the point-package guard |
| `Serial.RunIsolation` | src/main/java/io/hhplus/tdd/point/service/PointService.java:27-69 | any serial run of operations on other users leaves a user's balance and history unchanged |
| `Serial.RunAppendsHistory` | src/main/java/io/hhplus/tdd/point/service/PointService.java:27-69 | any serial run keeps the old log as a prefix; each charge adds one record and each use adds at most one |
| `Serial.RunBalance` | src/main/java/io/hhplus/tdd/point/service/PointService.java:31-63 | no update is lost: after any serial run a user's balance is exactly the start plus everything charged to them minus the uses the guard accepted |
| `Serial.ChargesAccumulate` | src/main/java/io/hhplus/tdd/point/service/PointService.java:33-37 | n charges of a from balance b end at exactly b + n * a, under either guard |
| `Serial.ChargesRecorded` | src/main/java/io/hhplus/tdd/point/service/PointService.java:39-40 | n charges of a append exactly n CHARGE records of a for that user, in order, after the old log |
| `Serial.RunBounds` | src/main/java/io/hhplus/tdd/point/service/PointService.java:48-69 | when that user's operations have non-negative amounts, a user who starts non-negative stays between 0 and the start plus the total charged to them, under either guard |
| `Serial.ConcurrentChargeAndUse` | src/test/java/io/hhplus/tdd/point/PointConcurrencyTest.java:38-73 | from balance 0, every serial order of five charges of 1000 and five uses of 500 ends at exactly 5000 minus the accepted uses, which lies in [0, 5000], with between 5 and 10 new records, under either guard |
| `Serial.UseFirstRejected` | src/test/java/io/hhplus/tdd/point/PointConcurrencyTest.java:52-69 | the order that runs a use first is one of the test's orders, and that use finds the balance 0 and is rejected under either guard |
| `Serial.ChargeAndUseConcurrently` | src/test/java/io/hhplus/tdd/point/PointConcurrencyTest.java:39-73 | running the ten test tasks on the service in any order gives the serial-run state; the final point is exactly 2500 + 500 * (rejected uses), so it is in [0, 5000]; at most five uses are rejected; the log grows by ten minus the rejected uses |
| `Serial.RunSchedule` | src/test/java/io/hhplus/tdd/point/PointConcurrencyTest.java:63-69 | running a schedule of the two test tasks on the service ends in the serial-run state, with the balance equal to 1000 per charge minus 500 per accepted use |
| `Serial.RunTask` | src/test/java/io/hhplus/tdd/point/PointConcurrencyTest.java:44-60 | one test task under the service lock has the effect of one serial step and reports exactly the uses the guard rejects |

## Left out

- Locking and threads: the `ReentrantLock` and its `finally` unlock are not modelled, and neither are the executor and futures of the concurrency test. Each charge and use is one atomic step, because one lock serialises all of them.
- Timestamps: `System.currentTimeMillis()` in history records and `UserPoint.updateMillis` are wall-clock values and are omitted.
- History record ids: these are assigned by the history table, which is not part of this model.
- The tables: `UserPointTable`, `PointHistoryTable` and the repository interfaces are not part of this model. A map and a sequence stand for them, and a never-written user reads as 0.
- Spring wiring, the controller and its MockMvc tests: this is the HTTP layer around the service.
- Service.PointService.ChargePoint: requires the new balance to fit in a Java `long`; the wrap-around of `point + amount` is not modelled.
- Service.PointService.UsePoint: requires `balance - amount` to fit in a Java `long`; the wrap-around is not modelled.
- Point.PointService.ChargePoint: requires the new balance to fit in a Java `long`; the wrap-around is not modelled.
- Point.PointService.UsePoint: requires `currentPoint - amount` to fit in a Java `long` when the guard passes; the wrap-around is not modelled.
- Serial.RunBounds: `Apply` and `Run` compute with unbounded integers, so `long` wrap-around is not modelled. The balances in the concurrency scenario stay within [0, 5000].
- Serial.ChargeAndUseConcurrently: a rejected use is counted and the run goes on. In the test, the task rethrows the `PointException` and `result.get()` then throws, so the test fails for such an order (see Findings). That rethrow is not modelled.

## Findings

| source | as written | input that shows it | evidently intended | confidence | as-written member | corrected member |
|---|---|---|---|---|---|---|
| src/main/java/io/hhplus/tdd/point/service/PointService.java:55-58 | throws "insufficient balance" when `balance - amount < amount`, i.e. when balance < 2 * amount | balance 900, use 500: rejected, although 900 covers 500 and would leave 400 | throw only when `balance < amount`, as the guard at src/main/java/io/hhplus/tdd/point/PointService.java:44 does | medium, not executed | `Serial.CoveredUseRejected` | `Point.PointService.UsePoint` |
| src/test/java/io/hhplus/tdd/point/PointConcurrencyTest.java:54-69 | a use task rethrows the `PointException` of a rejected use, and `result.get()` rethrows it, so the test fails before its assertion | the order that runs a use first: the balance is 0, the use is rejected and the test ends in an `ExecutionException` | tolerate a rejected use and assert that the final balance is in [0, 5000] | medium, not executed | `Serial.UseFirstRejected` | `Serial.ChargeAndUseConcurrently` |

The service-package class keeps the guard as written, because that is the
code the tests run. The point-package class carries the intended guard. Its
contract proves that a use is rejected exactly when the balance does not
cover the amount. `Serial.ConcurrentChargeAndUse` holds under both guards.

In the concurrency test, the schedule that runs a use first is a legal order
of the ten tasks (`Serial.UseFirstRejected`), and it makes the test fail
without ever reaching its assertion. `Serial.ChargeAndUseConcurrently` runs
the tasks with a rejected use counted instead of rethrown. For every order it
proves the bound the test asserts, and the exact final balance
2500 + 500 * (rejected uses).
