/** The `Status` table and the three Prisma calls the status routes make on it:
    `findFirst` ordered by `createdAt` descending, `create` and `update` by id. */
module StatusStore {

  datatype Option<T> = None | Some(value: T)
  {
    function GetOr(default: T): T {
      match this
      case Some(v) => v
      case None => default
    }
  }

  /** The three booleans of a status row; also the JSON body of `GET /api/status`. */
  datatype Flags = Flags(isAwake: bool, hasEaten: bool, hasDrunk: bool)

  /** One row of the `Status` table. */
  datatype Row = Row(id: nat, isAwake: bool, hasEaten: bool, hasDrunk: bool, createdAt: int)
  {
    function View(): Flags {
      Flags(isAwake, hasEaten, hasDrunk)
    }
  }

  /** The boolean column a write route targets. */
  datatype Field = IsAwake | HasEaten | HasDrunk

  function FlagOf(row: Row, f: Field): bool {
    match f
    case IsAwake => row.isAwake
    case HasEaten => row.hasEaten
    case HasDrunk => row.hasDrunk
  }

  /** The `data` argument of a Prisma `create` or `update`: a column is either
      given a value or left out. */
  datatype Data = Data(isAwake: Option<bool>, hasEaten: Option<bool>, hasDrunk: Option<bool>)

  /** `data: { <f>: v }`, the argument of every route's update. */
  function Only(f: Field, v: bool): Data {
    match f
    case IsAwake => Data(Some(v), None, None)
    case HasEaten => Data(None, Some(v), None)
    case HasDrunk => Data(None, None, Some(v))
  }

  /** The row an `update` leaves: the columns `data` gives are replaced, the others,
      `id` and `createdAt` included, are kept. */
  function Overlay(row: Row, data: Data): Row {
    Row(row.id,
        data.isAwake.GetOr(row.isAwake),
        data.hasEaten.GetOr(row.hasEaten),
        data.hasDrunk.GetOr(row.hasDrunk),
        row.createdAt)
  }

  /** The row a `create` inserts: columns that `data` leaves out take the schema default. */
  function NewRow(id: nat, data: Data, defaults: Flags, now: int): Row {
    Row(id,
        data.isAwake.GetOr(defaults.isAwake),
        data.hasEaten.GetOr(defaults.hasEaten),
        data.hasDrunk.GetOr(defaults.hasDrunk),
        now)
  }

  /** An update of one field changes that field only. */
  lemma OverlayOnly(row: Row, f: Field, v: bool)
    ensures FlagOf(Overlay(row, Only(f, v)), f) == v
    ensures forall g :: g != f ==> FlagOf(Overlay(row, Only(f, v)), g) == FlagOf(row, g)
    ensures Overlay(row, Only(f, v)).id == row.id
    ensures Overlay(row, Only(f, v)).createdAt == row.createdAt
  {
  }

  /** Writing the same value twice is the same as writing it once. */
  lemma OverlayIdempotent(row: Row, data: Data)
    ensures Overlay(Overlay(row, data), data) == Overlay(row, data)
  {
  }

  /** Position of the row with the greatest `createdAt`; on a tie, the earliest one. */
  function LatestIndex(rows: seq<Row>): (k: nat)
    requires |rows| > 0
    ensures k < |rows|
    ensures forall j :: 0 <= j < |rows| ==> rows[j].createdAt <= rows[k].createdAt
    ensures forall j :: 0 <= j < k ==> rows[j].createdAt < rows[k].createdAt
  {
    if |rows| == 1 then 0
    else
      var k := LatestIndex(rows[..|rows| - 1]);
      if rows[k].createdAt < rows[|rows| - 1].createdAt then |rows| - 1 else k
  }

  /** `findFirst({ orderBy: { createdAt: 'desc' } })`: the latest row, or none. */
  function Latest(rows: seq<Row>): (r: Option<Row>)
    ensures r.None? <==> rows == []
    ensures r.Some? ==> r.value in rows
    ensures r.Some? ==> forall j :: 0 <= j < |rows| ==> rows[j].createdAt <= r.value.createdAt
  {
    if rows == [] then None else Some(rows[LatestIndex(rows)])
  }

  /** Which row is latest depends on the `createdAt` column alone. */
  lemma {:induction false} LatestIndexStable(rows: seq<Row>, rows': seq<Row>)
    requires |rows| > 0 && |rows'| == |rows|
    requires forall j :: 0 <= j < |rows| ==> rows'[j].createdAt == rows[j].createdAt
    ensures LatestIndex(rows') == LatestIndex(rows)
  {
    if |rows| > 1 {
      var n := |rows| - 1;
      LatestIndexStable(rows[..n], rows'[..n]);
    }
  }

  ghost predicate UniqueIds(rows: seq<Row>) {
    forall i, j :: 0 <= i < j < |rows| ==> rows[i].id != rows[j].id
  }

  /** Every id in use is below `nextId`, and no two rows share an id. */
  ghost predicate WellFormed(rows: seq<Row>, nextId: nat) {
    UniqueIds(rows) && forall i :: 0 <= i < |rows| ==> rows[i].id < nextId
  }

  /** An id above every id in `rows`. */
  function FreshId(rows: seq<Row>): (n: nat)
    ensures forall i :: 0 <= i < |rows| ==> rows[i].id < n
  {
    if rows == [] then 0
    else
      var n := FreshId(rows[..|rows| - 1]);
      var last := rows[|rows| - 1].id;
      if n <= last then last + 1 else n
  }

  /** `update({ where: { id }, data })` applied to every row carrying `id`. */
  function UpdateWhere(rows: seq<Row>, id: nat, data: Data): seq<Row> {
    seq(|rows|, i requires 0 <= i < |rows| => if rows[i].id == id then Overlay(rows[i], data) else rows[i])
  }

  /** Running the same update twice is the same as running it once. */
  lemma UpdateWhereIdempotent(rows: seq<Row>, id: nat, data: Data)
    ensures UpdateWhere(UpdateWhere(rows, id, data), id, data) == UpdateWhere(rows, id, data)
  {
    var once := UpdateWhere(rows, id, data);
    forall j | 0 <= j < |once|
      ensures UpdateWhere(once, id, data)[j] == once[j]
    {
      OverlayIdempotent(rows[j], data);
    }
  }

  /** With unique ids, an update by the id of row `k` rewrites row `k` and no other,
      keeps the number of rows, and keeps every `id` and `createdAt`. */
  lemma UpdateWhereOne(rows: seq<Row>, k: nat, data: Data)
    requires UniqueIds(rows) && k < |rows|
    ensures |UpdateWhere(rows, rows[k].id, data)| == |rows|
    ensures UpdateWhere(rows, rows[k].id, data)[k] == Overlay(rows[k], data)
    ensures forall j :: 0 <= j < |rows| && j != k ==> UpdateWhere(rows, rows[k].id, data)[j] == rows[j]
  {
  }

  /** An update keeps every `id` and `createdAt`, hence keeps the table well formed. */
  lemma UpdateWhereKeepsKeys(rows: seq<Row>, id: nat, data: Data, nextId: nat)
    ensures |UpdateWhere(rows, id, data)| == |rows|
    ensures forall j :: 0 <= j < |rows| ==>
      UpdateWhere(rows, id, data)[j].id == rows[j].id && UpdateWhere(rows, id, data)[j].createdAt == rows[j].createdAt
    ensures WellFormed(rows, nextId) ==> WellFormed(UpdateWhere(rows, id, data), nextId)
  {
  }

  /** Position of the row carrying `id`, if any. */
  function IndexOfId(rows: seq<Row>, id: nat): (k: Option<nat>)
    ensures k.Some? ==> k.value < |rows| && rows[k.value].id == id
    ensures k.None? ==> forall i :: 0 <= i < |rows| ==> rows[i].id != id
  {
    if rows == [] then None
    else if rows[|rows| - 1].id == id then Some(|rows| - 1)
    else IndexOfId(rows[..|rows| - 1], id)
  }

  /** The calls a route makes on the table, in order. */
  datatype StoreOp = FindFirst | Insert(data: Data) | UpdateById(id: nat, data: Data)

  /** What `findFirst` yields: the latest row or none, or a thrown database error. */
  datatype Query = Found(latest: Option<Row>) | Fault

  class StatusTable {
    var rows: seq<Row>
    /** Next id the table hands out (the id column's generator is not part of this model). */
    var nextId: nat
    /** Column defaults of the schema, used for the columns a `create` leaves out. */
    const defaults: Flags
    /** The calls made on the table so far. */
    ghost var log: seq<StoreOp>

    ghost predicate Valid()
      reads this
    {
      WellFormed(rows, nextId)
    }

    constructor (initial: seq<Row>, defaults: Flags)
      requires UniqueIds(initial)
      ensures Valid()
      ensures rows == initial && this.defaults == defaults && log == []
    {
      rows := initial;
      nextId := FreshId(initial);
      this.defaults := defaults;
      log := [];
    }

    /** `findFirst` ordered by `createdAt` descending; `online` says whether the
        database answers. */
    method FindLatest(online: bool) returns (q: Query)
      modifies this`log
      ensures q == if online then Found(Latest(rows)) else Fault
      ensures log == old(log) + [FindFirst]
    {
      log := log + [FindFirst];
      if !online {
        return Fault;
      }
      q := Found(Latest(rows));
    }

    /** `create({ data })`: appends one row with a fresh id, created at `now`. */
    method Create(data: Data, now: int) returns (created: Row)
      requires Valid()
      modifies this
      ensures Valid()
      ensures created == NewRow(old(nextId), data, defaults, now)
      ensures rows == old(rows) + [created] && nextId == old(nextId) + 1
      ensures log == old(log) + [Insert(data)]
    {
      created := NewRow(nextId, data, defaults, now);
      rows := rows + [created];
      nextId := nextId + 1;
      log := log + [Insert(data)];
    }

    /** `update({ where: { id }, data })`: rewrites the row carrying `id` and returns it. */
    method Update(id: nat, data: Data) returns (updated: Row)
      requires Valid()
      requires exists i :: 0 <= i < |rows| && rows[i].id == id
      modifies this
      ensures Valid()
      ensures rows == UpdateWhere(old(rows), id, data) && nextId == old(nextId)
      ensures forall i :: 0 <= i < |old(rows)| && old(rows)[i].id == id ==> updated == Overlay(old(rows)[i], data)
      ensures log == old(log) + [UpdateById(id, data)]
    {
      var k := IndexOfId(rows, id);
      updated := Overlay(rows[k.value], data);
      UpdateWhereKeepsKeys(rows, id, data, nextId);
      rows := UpdateWhere(rows, id, data);
      log := log + [UpdateById(id, data)];
    }
  }
}
