/** `POST /api/status/drink`: sets `hasDrunk` on the current status. */
module DrinkRoute {
  import opened StatusStore
  import opened Requests
  import opened Reconcile

  /** The handler, step by step: admin guard, body, boolean check, `findFirst`,
      then `create` on an empty table or `update` of the latest row's `hasDrunk`. */
  method Post(table: StatusTable, req: Request, adminEmail: Option<string>, online: bool, now: int)
    returns (r: Response)
    requires table.Valid()
    modifies table
    ensures table.Valid()
    ensures var o := Step(HasDrunk, req, adminEmail, online, now, table.defaults,
                          Table(old(table.rows), old(table.nextId)));
      && r == o.response
      && Table(table.rows, table.nextId) == o.table
      && table.log == old(table.log) + o.ops
  {
    if !Authorized(req.session, adminEmail) {
      return Unauthorized;
    }
    var hasDrunk := ReadProperty(req.body, "hasDrunk");
    if hasDrunk.Thrown? {
      return ServerError;
    }
    var value := AsBoolean(hasDrunk);
    if value.None? {
      return InvalidInput;
    }
    var query := table.FindLatest(online);
    if query.Fault? {
      return ServerError;
    }
    if query.latest.None? {
      var created := table.Create(Data(Some(false), Some(false), Some(value.value)), now);
      return Ok(created);
    }
    ghost var k := LatestIndex(table.rows);
    var updated := table.Update(query.latest.value.id, Data(None, None, Some(value.value)));
    assert old(table.rows)[k].id == query.latest.value.id;
    return Ok(updated);
  }

  /** On an empty table the drink route inserts and returns the one row
      `{ hasDrunk: v, isAwake: false, hasEaten: false }`. */
  lemma FirstWrite(req: Request, adminEmail: Option<string>, now: int, defaults: Flags, t: Table, v: bool)
    requires t.rows == [] && Accepted(HasDrunk, req, adminEmail) == Some(v)
    ensures var o := Step(HasDrunk, req, adminEmail, true, now, defaults, t);
      var row := Row(t.nextId, false, false, v, now);
      o.response == Ok(row) && o.table.rows == [row]
  {
    StepCreates(HasDrunk, req, adminEmail, now, defaults, t, v);
  }

  /** On a non-empty table the drink route rewrites the latest row's `hasDrunk`
      and nothing else, and returns that row. */
  lemma LaterWrite(req: Request, adminEmail: Option<string>, now: int, defaults: Flags, t: Table, v: bool)
    requires WellFormed(t.rows, t.nextId) && t.rows != []
    requires Accepted(HasDrunk, req, adminEmail) == Some(v)
    ensures var o := Step(HasDrunk, req, adminEmail, true, now, defaults, t);
      var k := LatestIndex(t.rows);
      && o.table.rows == t.rows[k := t.rows[k].(hasDrunk := v)]
      && o.response == Ok(t.rows[k].(hasDrunk := v))
  {
    StepUpdates(HasDrunk, req, adminEmail, now, defaults, t, v);
  }
}
