/**
  The scenarios of `PointServiceTest`, replayed against the contracts of the
  service-package `PointService`: what a caller can conclude from them alone.
  Each returns what its test inspects, and its ensures is the test's assertion.
 */
module PointServiceTest {
  import opened Ledger
  import Service

  /** 1000 + 500: the returned and the stored balance are 1500, one CHARGE record. */
  method ChargePointShouldUpdateUserPoint() returns (updated: UserPoint, history: seq<PointHistory>)
    ensures updated == UserPoint(1, 1500)
    ensures history == [PointHistory(1, 500, CHARGE)]
  {
    var service := new Service.PointService(map[1 := 1000], []);
    updated := service.ChargePoint(1, 500);
    history := service.pointHistoryTable;
  }

  /** 1000 - 500: accepted, leaves 500 and records one USE of 500. */
  method UsePointShouldRecordHistory() returns (r: Result, history: seq<PointHistory>)
    ensures r == Ok(UserPoint(1, 500))
    ensures history == [PointHistory(1, 500, USE)]
  {
    var service := new Service.PointService(map[1 := 1000], []);
    r := service.UsePoint(1, 500);
    history := service.pointHistoryTable;
  }

  /** 100 - 500: throws `PointException`, no balance write and no record. */
  method UsePointShouldThrowWhenInsufficientBalance()
    returns (r: Result, balances: map<int, int>, history: seq<PointHistory>)
    ensures r == Err(PointException)
    ensures balances == map[1 := 100]
    ensures history == []
  {
    var service := new Service.PointService(map[1 := 100], []);
    r := service.UsePoint(1, 500);
    balances := service.userPointTable;
    history := service.pointHistoryTable;
  }
}
