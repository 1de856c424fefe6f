/** `POST /api/status/awake`: sets `isAwake` on the current status. */
module AwakeRoute {
  import opened StatusStore
  import opened Requests
  import opened Reconcile

  /** The handler, step by step: admin guard, body, boolean check, `findFirst`,
      then `create` on an empty table or `update` of the latest row's `isAwake`. */
  method Post(table: StatusTable, req: Request, adminEmail: Option<string>, online: bool, now: int)
    returns (r: Response)
    requires table.Valid()
    modifies table
    ensures table.Valid()
    ensures var o := Step(IsAwake, req, adminEmail, online, now, table.defaults,
                          Table(old(table.rows), old(table.nextId)));
      && r == o.response
      && Table(table.rows, table.nextId) == o.table
      && table.log == old(table.log) + o.ops
  {
    if !Authorized(req.session, adminEmail) {
      return Unauthorized;
    }
    var isAwake := ReadProperty(req.body, "isAwake");
    if isAwake.Thrown? {
      return ServerError;
    }
    var value := AsBoolean(isAwake);
    if value.None? {
      return InvalidInput;
    }
    var query := table.FindLatest(online);
    if query.Fault? {
      return ServerError;
    }
    if query.latest.None? {
      var created := table.Create(Data(Some(value.value), Some(false), None), now);
      return Ok(created);
    }
    ghost var k := LatestIndex(table.rows);
    var updated := table.Update(query.latest.value.id, Data(Some(value.value), None, None));
    assert old(table.rows)[k].id == query.latest.value.id;
    return Ok(updated);
  }

  /** On an empty table the awake route inserts and returns the one row
      `{ isAwake: v, hasEaten: false }`; `hasDrunk`, which it does not give, takes
      the schema default. */
  lemma FirstWrite(req: Request, adminEmail: Option<string>, now: int, defaults: Flags, t: Table, v: bool)
    requires t.rows == [] && Accepted(IsAwake, req, adminEmail) == Some(v)
    ensures var o := Step(IsAwake, req, adminEmail, true, now, defaults, t);
      var row := Row(t.nextId, v, false, defaults.hasDrunk, now);
      o.response == Ok(row) && o.table.rows == [row]
  {
    StepCreates(IsAwake, req, adminEmail, now, defaults, t, v);
  }

  /** On a non-empty table the awake route rewrites the latest row's `isAwake`
      and nothing else, and returns that row. */
  lemma LaterWrite(req: Request, adminEmail: Option<string>, now: int, defaults: Flags, t: Table, v: bool)
    requires WellFormed(t.rows, t.nextId) && t.rows != []
    requires Accepted(IsAwake, req, adminEmail) == Some(v)
    ensures var o := Step(IsAwake, req, adminEmail, true, now, defaults, t);
      var k := LatestIndex(t.rows);
      && o.table.rows == t.rows[k := t.rows[k].(isAwake := v)]
      && o.response == Ok(t.rows[k].(isAwake := v))
  {
    StepUpdates(IsAwake, req, adminEmail, now, defaults, t, v);
  }
}
