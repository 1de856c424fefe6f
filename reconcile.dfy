/** What one POST to `/api/status/awake`, `/eat` or `/drink` does to the status
    table, as a function of the request and the table before it, and the
    properties of that reconciliation: field isolation, defaults on the first
    write, no store access on a rejected request, no growth after the first
    write, idempotence, and agreement with the read route. */
module Reconcile {
  import opened StatusStore
  import opened Requests
  import opened StatusRoute

  /** The persistent content of the table. */
  datatype Table = Table(rows: seq<Row>, nextId: nat)

  /** The response, the table after the request, and the calls made on the table. */
  datatype Outcome = Outcome(response: Response, table: Table, ops: seq<StoreOp>)

  /** The `data` each route passes to `create`: the drink and eat routes give all
      three columns, the awake route leaves `hasDrunk` to the schema default.
      Whatever the defaults, the created row holds `v` in `f` and `false` in the
      other columns, except `hasDrunk` under the awake route, which is the default. */
  function CreateData(f: Field, v: bool): (d: Data)
    ensures forall id: nat, defaults: Flags, now: int ::
      FlagOf(NewRow(id, d, defaults, now), f) == v
    ensures forall id: nat, defaults: Flags, now: int, g: Field :: g != f ==>
      FlagOf(NewRow(id, d, defaults, now), g) == (f == IsAwake && g == HasDrunk && defaults.hasDrunk)
  {
    match f
    case HasDrunk => Data(Some(false), Some(false), Some(v))
    case HasEaten => Data(Some(false), Some(v), Some(false))
    case IsAwake => Data(Some(v), Some(false), None)
  }

  /** The boolean a route accepts from `req`, or none when it answers 401, 400 or
      fails on the body. */
  function Accepted(f: Field, req: Request, adminEmail: Option<string>): Option<bool> {
    if Authorized(req.session, adminEmail) then AsBoolean(ReadProperty(req.body, Key(f)))
    else None
  }

  /** One POST to the route of field `f`: guard, read of the body, boolean check,
      read of the latest row, then create or update. */
  function Step(f: Field, req: Request, adminEmail: Option<string>, online: bool, now: int,
                defaults: Flags, t: Table): (o: Outcome)
    ensures !o.response.Ok? ==> o.table == t && |o.ops| <= 1
    ensures o.response.Ok? ==> o.response.row in o.table.rows && |o.ops| == 2 && o.ops[0] == FindFirst
  {
    if !Authorized(req.session, adminEmail) then Outcome(Unauthorized, t, [])
    else
      var p := ReadProperty(req.body, Key(f));
      if p.Thrown? then Outcome(ServerError, t, [])
      else match AsBoolean(p)
        case None => Outcome(InvalidInput, t, [])
        case Some(v) =>
          if !online then Outcome(ServerError, t, [FindFirst])
          else match Latest(t.rows)
            case None =>
              var created := NewRow(t.nextId, CreateData(f, v), defaults, now);
              Outcome(Ok(created), Table(t.rows + [created], t.nextId + 1),
                      [FindFirst, Insert(CreateData(f, v))])
            case Some(latest) =>
              var k := LatestIndex(t.rows);
              assert UpdateWhere(t.rows, latest.id, Only(f, v))[k] == Overlay(latest, Only(f, v));
              Outcome(Ok(Overlay(latest, Only(f, v))),
                      Table(UpdateWhere(t.rows, latest.id, Only(f, v)), t.nextId),
                      [FindFirst, UpdateById(latest.id, Only(f, v))])
  }

  /** A request the guard or the body check rejects leaves the table as it was and
      makes no call on it; a database fault after a valid request leaves it as it
      was too. Only an accepted request on a reachable database answers 200. */
  lemma StepRejects(f: Field, req: Request, adminEmail: Option<string>, online: bool, now: int,
                    defaults: Flags, t: Table)
    ensures var o := Step(f, req, adminEmail, online, now, defaults, t);
      && (!Authorized(req.session, adminEmail) ==> o == Outcome(Unauthorized, t, []))
      && (Authorized(req.session, adminEmail) && ReadProperty(req.body, Key(f)).Thrown? ==>
            o == Outcome(ServerError, t, []))
      && ((Authorized(req.session, adminEmail) && !ReadProperty(req.body, Key(f)).Thrown? &&
           Accepted(f, req, adminEmail).None?) ==> o == Outcome(InvalidInput, t, []))
      && (Accepted(f, req, adminEmail).Some? && !online ==> o == Outcome(ServerError, t, [FindFirst]))
      && (o.response.Ok? <==> Accepted(f, req, adminEmail).Some? && online)
      && (!o.response.Ok? ==> o.table == t)
  {
  }

  /** First write: on an empty table exactly one row is inserted, with a fresh id,
      created at `now`, carrying `v` in `f` and the route's create defaults
      elsewhere, and that row is returned. */
  lemma StepCreates(f: Field, req: Request, adminEmail: Option<string>, now: int,
                    defaults: Flags, t: Table, v: bool)
    requires t.rows == [] && Accepted(f, req, adminEmail) == Some(v)
    ensures var o := Step(f, req, adminEmail, true, now, defaults, t);
      && o.response == Ok(NewRow(t.nextId, CreateData(f, v), defaults, now))
      && o.table == Table([o.response.row], t.nextId + 1)
      && FlagOf(o.response.row, f) == v
      && o.ops == [FindFirst, Insert(CreateData(f, v))]
  {
  }

  /** Later write: on a non-empty table only the latest row changes, and only in
      `f`; its id and `createdAt` stay, every other row stays, no row is added,
      and the returned row is the persisted one. */
  lemma StepUpdates(f: Field, req: Request, adminEmail: Option<string>, now: int,
                    defaults: Flags, t: Table, v: bool)
    requires WellFormed(t.rows, t.nextId) && t.rows != []
    requires Accepted(f, req, adminEmail) == Some(v)
    ensures var o := Step(f, req, adminEmail, true, now, defaults, t);
      var k := LatestIndex(t.rows);
      && |o.table.rows| == |t.rows| && o.table.nextId == t.nextId
      && o.response == Ok(o.table.rows[k])
      && FlagOf(o.table.rows[k], f) == v
      && (forall g :: g != f ==> FlagOf(o.table.rows[k], g) == FlagOf(t.rows[k], g))
      && o.table.rows[k].id == t.rows[k].id && o.table.rows[k].createdAt == t.rows[k].createdAt
      && (forall j :: 0 <= j < |t.rows| && j != k ==> o.table.rows[j] == t.rows[j])
      && o.ops == [FindFirst, UpdateById(t.rows[k].id, Only(f, v))]
  {
    var k := LatestIndex(t.rows);
    UpdateWhereOne(t.rows, k, Only(f, v));
    OverlayOnly(t.rows[k], f, v);
  }

  /** Every request keeps ids unique and below `nextId`. */
  lemma StepKeepsWellFormed(f: Field, req: Request, adminEmail: Option<string>, online: bool, now: int,
                            defaults: Flags, t: Table)
    requires WellFormed(t.rows, t.nextId)
    ensures var o := Step(f, req, adminEmail, online, now, defaults, t);
      WellFormed(o.table.rows, o.table.nextId)
  {
    if t.rows != [] {
      var k := LatestIndex(t.rows);
      UpdateWhereKeepsKeys(t.rows, t.rows[k].id, Only(f, false), t.nextId);
      UpdateWhereKeepsKeys(t.rows, t.rows[k].id, Only(f, true), t.nextId);
    }
  }

  /** The table grows only by the first write: afterwards the number of rows stays,
      and a table that has a row never becomes empty again. */
  lemma StepRowCount(f: Field, req: Request, adminEmail: Option<string>, online: bool, now: int,
                     defaults: Flags, t: Table)
    ensures var o := Step(f, req, adminEmail, online, now, defaults, t);
      |o.table.rows| == if t.rows == [] && o.response.Ok? then 1 else |t.rows|
  {
    if t.rows != [] {
      UpdateWhereKeepsKeys(t.rows, t.rows[LatestIndex(t.rows)].id, Only(f, false), t.nextId);
      UpdateWhereKeepsKeys(t.rows, t.rows[LatestIndex(t.rows)].id, Only(f, true), t.nextId);
    }
  }

  /** Sending the same request twice leaves the same table and the same answer as
      sending it once, whatever the clock says the second time. */
  lemma StepIdempotent(f: Field, req: Request, adminEmail: Option<string>, online: bool,
                       now: int, now': int, defaults: Flags, t: Table)
    ensures var o := Step(f, req, adminEmail, online, now, defaults, t);
      var o' := Step(f, req, adminEmail, online, now', defaults, o.table);
      o'.table == o.table && o'.response == o.response
  {
    var o := Step(f, req, adminEmail, online, now, defaults, t);
    if Accepted(f, req, adminEmail).Some? && online {
      var v := Accepted(f, req, adminEmail).value;
      var d := Only(f, v);
      if t.rows == [] {
        var created := NewRow(t.nextId, CreateData(f, v), defaults, now);
        assert o.table.rows == [created];
        assert Overlay(created, d) == created by { OverlayOnly(created, f, v); }
        assert UpdateWhere([created], created.id, d) == [created];
      } else {
        var k := LatestIndex(t.rows);
        var latest := t.rows[k];
        var rows' := UpdateWhere(t.rows, latest.id, d);
        assert o.table == Table(rows', t.nextId) && o.response == Ok(Overlay(latest, d));
        UpdateWhereKeepsKeys(t.rows, latest.id, d, t.nextId);
        LatestIndexStable(t.rows, rows');
        assert Latest(rows') == Some(Overlay(latest, d));
        var o' := Step(f, req, adminEmail, online, now', defaults, o.table);
        assert o' == Outcome(Ok(Overlay(Overlay(latest, d), d)),
                             Table(UpdateWhere(rows', latest.id, d), t.nextId),
                             [FindFirst, UpdateById(latest.id, d)]);
        OverlayIdempotent(latest, d);
        UpdateWhereIdempotent(t.rows, latest.id, d);
      }
    }
  }

  /** Read after write: after an accepted write, the read route answers exactly
      the three booleans of the row the write returned. */
  lemma ReadAfterWrite(f: Field, req: Request, adminEmail: Option<string>, online: bool, now: int,
                       defaults: Flags, t: Table)
    ensures var o := Step(f, req, adminEmail, online, now, defaults, t);
      o.response.Ok? ==> Get(o.table.rows, true) == StatusJson(o.response.row.View())
  {
    var o := Step(f, req, adminEmail, online, now, defaults, t);
    if o.response.Ok? && t.rows != [] {
      var v := Accepted(f, req, adminEmail).value;
      var k := LatestIndex(t.rows);
      var rows' := UpdateWhere(t.rows, t.rows[k].id, Only(f, v));
      UpdateWhereKeepsKeys(t.rows, t.rows[k].id, Only(f, v), t.nextId);
      LatestIndexStable(t.rows, rows');
    }
  }

  /** One write of the admin, at the time `now` of its own request. */
  datatype Write = Write(f: Field, v: bool, now: int)

  /** The table after the admin's writes `ws`, in order, on a reachable database. */
  function Replay(ws: seq<Write>, admin: string, defaults: Flags, t: Table): Table
    decreases |ws|
  {
    if ws == [] then t
    else
      var w := ws[|ws| - 1];
      Step(w.f, AdminSets(admin, w.f, w.v), Some(admin), true, w.now, defaults,
           Replay(ws[..|ws| - 1], admin, defaults, t)).table
  }

  /** The value of the last write to `g` in `ws`, if any. */
  function LastWrite(ws: seq<Write>, g: Field): Option<bool>
    decreases |ws|
  {
    if ws == [] then None
    else if ws[|ws| - 1].f == g then Some(ws[|ws| - 1].v)
    else LastWrite(ws[..|ws| - 1], g)
  }

  /** What a field reads after `ws` from an empty table: the last value written to
      it, or, if it was never written, what the first write's create gave it. */
  function Expected(ws: seq<Write>, g: Field, defaults: Flags): bool
    requires ws != []
  {
    LastWrite(ws, g).GetOr(FlagOf(NewRow(0, CreateData(ws[0].f, ws[0].v), defaults, 0), g))
  }

  /** The admin's first write on an empty table leaves one row holding `w.v` in
      `w.f` and the create defaults elsewhere. */
  lemma ReplayFirst(w: Write, admin: string, defaults: Flags, firstId: nat)
    ensures var t := Replay([w], admin, defaults, Table([], firstId));
      && |t.rows| == 1 && t.rows[0].id == firstId && t.nextId == firstId + 1
      && forall g :: FlagOf(t.rows[0], g) ==
           if g == w.f then w.v else FlagOf(NewRow(0, CreateData(w.f, w.v), defaults, 0), g)
  {
    var t := Table([], firstId);
    var req := AdminSets(admin, w.f, w.v);
    assert [w][..0] == [];
    assert Replay([w], admin, defaults, t) == Step(w.f, req, Some(admin), true, w.now, defaults, t).table;
    StepCreates(w.f, req, Some(admin), w.now, defaults, t, w.v);
  }

  /** A later write of the admin on a one-row table keeps the one row and changes
      `w.f` only. */
  lemma ReplayNext(ws: seq<Write>, admin: string, defaults: Flags, firstId: nat)
    requires |ws| > 1
    requires var t := Replay(ws[..|ws| - 1], admin, defaults, Table([], firstId));
      |t.rows| == 1 && t.rows[0].id == firstId && t.nextId == firstId + 1
    ensures var before := Replay(ws[..|ws| - 1], admin, defaults, Table([], firstId));
      var t := Replay(ws, admin, defaults, Table([], firstId));
      && |t.rows| == 1 && t.rows[0].id == firstId && t.nextId == firstId + 1
      && forall g :: FlagOf(t.rows[0], g) ==
           if g == ws[|ws| - 1].f then ws[|ws| - 1].v else FlagOf(before.rows[0], g)
  {
    var w := ws[|ws| - 1];
    var before := Replay(ws[..|ws| - 1], admin, defaults, Table([], firstId));
    StepUpdates(w.f, AdminSets(admin, w.f, w.v), Some(admin), w.now, defaults, before, w.v);
  }

  /** Field isolation over any sequence of writes: starting from an empty table,
      the table keeps one row and each field of it holds the last value written
      to that field; writes to the other fields never change it. */
  lemma {:induction false} ReplayKeepsLastWrites(ws: seq<Write>, admin: string, defaults: Flags,
                                                 firstId: nat)
    requires ws != []
    ensures var t := Replay(ws, admin, defaults, Table([], firstId));
      && |t.rows| == 1 && t.rows[0].id == firstId && t.nextId == firstId + 1
      && forall g :: FlagOf(t.rows[0], g) == Expected(ws, g, defaults)
  {
    var n := |ws| - 1;
    if n == 0 {
      ReplayFirst(ws[0], admin, defaults, firstId);
      assert ws == [ws[0]];
      forall g ensures LastWrite(ws, g) == if ws[0].f == g then Some(ws[0].v) else None {
        assert LastWrite(ws[..n], g) == None;
      }
    } else {
      ReplayKeepsLastWrites(ws[..n], admin, defaults, firstId);
      ReplayNext(ws, admin, defaults, firstId);
      assert ws[..n][0] == ws[0];
    }
  }

  /** The read route after a sequence of writes from an empty table. */
  lemma ReadAfterWrites(ws: seq<Write>, admin: string, defaults: Flags, firstId: nat)
    requires ws != []
    ensures Get(Replay(ws, admin, defaults, Table([], firstId)).rows, true) ==
      StatusJson(Flags(Expected(ws, IsAwake, defaults), Expected(ws, HasEaten, defaults),
                       Expected(ws, HasDrunk, defaults)))
  {
    ReplayKeepsLastWrites(ws, admin, defaults, firstId);
  }
}
