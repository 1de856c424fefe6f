/** Request sequences against a fresh table, proved from the routes' contracts. */
module Scenarios {
  import opened StatusStore
  import opened Requests
  import opened StatusRoute
  import DrinkRoute
  import EatRoute
  import AwakeRoute

  /** From an empty table, the admin sets `hasEaten` then `isAwake`; the read route
      then shows both, and `hasDrunk` still false: the eat route's create gave it,
      and the awake route's update left it alone. */
  method EatThenAwake(admin: string, defaults: Flags, now: int, later: int)
    returns (eaten: Response, awake: Response, read: ReadResponse)
    ensures eaten.Ok? && awake.Ok? && awake.row.id == eaten.row.id
    ensures read == StatusJson(Flags(true, true, false))
  {
    var table := new StatusTable([], defaults);
    eaten := EatRoute.Post(table, AdminSets(admin, HasEaten, true), Some(admin), true, now);
    assert table.rows == [eaten.row];
    awake := AwakeRoute.Post(table, AdminSets(admin, IsAwake, true), Some(admin), true, later);
    read := Get(table.rows, true);
  }

  /** From an empty table, the admin sets `hasDrunk`; then a caller without a
      session tries the same, gets 401, and the read route still shows the
      admin's write. */
  method DrinkThenIntruder(admin: string, defaults: Flags, now: int)
    returns (first: Response, second: Response, read: ReadResponse)
    ensures first.Ok? && StatusCode(first) == 200
    ensures second == Unauthorized && StatusCode(second) == 401
    ensures read == StatusJson(Flags(false, false, true))
  {
    var table := new StatusTable([], defaults);
    first := DrinkRoute.Post(table, AdminSets(admin, HasDrunk, true), Some(admin), true, now);
    assert table.rows == [first.row] && first.row.View() == Flags(false, false, true);
    ghost var rows := table.rows;
    var intruder := Request(NoSession, AdminSets(admin, HasDrunk, true).body);
    assert !Authorized(intruder.session, Some(admin));
    second := DrinkRoute.Post(table, intruder, Some(admin), true, now);
    assert table.rows == rows;
    read := Get(table.rows, true);
  }

  /** A body whose `isAwake` is the string "yes" gets 400 and the table is not
      touched: no row appears and no call is made on it. */
  method AwakeWithString(admin: string, defaults: Flags, now: int)
    returns (r: Response, rows: seq<Row>, ghost log: seq<StoreOp>, read: ReadResponse)
    ensures r == InvalidInput && StatusCode(r) == 400
    ensures rows == [] && log == []
    ensures read == StatusJson(AllFalse)
  {
    var table := new StatusTable([], defaults);
    var body := Parsed(JObject(map["isAwake" := JOther]));
    r := AwakeRoute.Post(table, Request(Session(Address(admin)), body), Some(admin), true, now);
    rows := table.rows;
    log := table.log;
    read := Get(rows, true);
  }
}
