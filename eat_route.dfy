/** `POST /api/status/eat`: sets `hasEaten` on the current status. */
module EatRoute {
  import opened StatusStore
  import opened Requests
  import opened Reconcile

  /** The handler, step by step: admin guard, body, boolean check, `findFirst`,
      then `create` on an empty table or `update` of the latest row's `hasEaten`. */
  method Post(table: StatusTable, req: Request, adminEmail: Option<string>, online: bool, now: int)
    returns (r: Response)
    requires table.Valid()
    modifies table
    ensures table.Valid()
    ensures var o := Step(HasEaten, req, adminEmail, online, now, table.defaults,
                          Table(old(table.rows), old(table.nextId)));
      && r == o.response
      && Table(table.rows, table.nextId) == o.table
      && table.log == old(table.log) + o.ops
  {
    if !Authorized(req.session, adminEmail) {
      return Unauthorized;
    }
    var hasEaten := ReadProperty(req.body, "hasEaten");
    if hasEaten.Thrown? {
      return ServerError;
    }
    var value := AsBoolean(hasEaten);
    if value.None? {
      return InvalidInput;
    }
    var query := table.FindLatest(online);
    if query.Fault? {
      return ServerError;
    }
    if query.latest.None? {
      var created := table.Create(Data(Some(false), Some(value.value), Some(false)), now);
      return Ok(created);
    }
    ghost var k := LatestIndex(table.rows);
    var updated := table.Update(query.latest.value.id, Data(None, Some(value.value), None));
    assert old(table.rows)[k].id == query.latest.value.id;
    return Ok(updated);
  }

  /** On an empty table the eat route inserts and returns the one row
      `{ hasEaten: v, isAwake: false, hasDrunk: false }`. */
  lemma FirstWrite(req: Request, adminEmail: Option<string>, now: int, defaults: Flags, t: Table, v: bool)
    requires t.rows == [] && Accepted(HasEaten, req, adminEmail) == Some(v)
    ensures var o := Step(HasEaten, req, adminEmail, true, now, defaults, t);
      var row := Row(t.nextId, false, v, false, now);
      o.response == Ok(row) && o.table.rows == [row]
  {
    StepCreates(HasEaten, req, adminEmail, now, defaults, t, v);
  }

  /** On a non-empty table the eat route rewrites the latest row's `hasEaten`
      and nothing else, and returns that row. */
  lemma LaterWrite(req: Request, adminEmail: Option<string>, now: int, defaults: Flags, t: Table, v: bool)
    requires WellFormed(t.rows, t.nextId) && t.rows != []
    requires Accepted(HasEaten, req, adminEmail) == Some(v)
    ensures var o := Step(HasEaten, req, adminEmail, true, now, defaults, t);
      var k := LatestIndex(t.rows);
      && o.table.rows == t.rows[k := t.rows[k].(hasEaten := v)]
      && o.response == Ok(t.rows[k].(hasEaten := v))
  {
    StepUpdates(HasEaten, req, adminEmail, now, defaults, t, v);
  }
}
