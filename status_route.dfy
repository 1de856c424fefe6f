/** `GET /api/status`: the three booleans of the latest row, all `false` on an
    empty table, a 500 when the database fails. */
module StatusRoute {
  import opened StatusStore

  /** The answer of the read route: the JSON object of three booleans, or the
      500 'Error fetching status'. */
  datatype ReadResponse = StatusJson(view: Flags) | FetchError

  const AllFalse := Flags(false, false, false)

  /** The read route over the table's rows; `online` says whether `findFirst` answers. */
  function Get(rows: seq<Row>, online: bool): (r: ReadResponse)
    ensures !online <==> r == FetchError
    ensures online && rows == [] ==> r == StatusJson(AllFalse)
    ensures online && rows != [] ==>
      exists k :: 0 <= k < |rows| && r == StatusJson(rows[k].View()) &&
        forall j :: 0 <= j < |rows| ==> rows[j].createdAt <= rows[k].createdAt
  {
    if !online then FetchError
    else match Latest(rows)
      case None => StatusJson(AllFalse)
      case Some(latest) => StatusJson(latest.View())
  }

  /** The reader only looks at `createdAt` and the three booleans: two tables that
      agree on those read the same, whatever their ids. */
  lemma {:induction false} GetIgnoresIds(rows: seq<Row>, rows': seq<Row>, online: bool)
    requires |rows'| == |rows|
    requires forall j :: 0 <= j < |rows| ==>
      rows'[j].createdAt == rows[j].createdAt && rows'[j].View() == rows[j].View()
    ensures Get(rows', online) == Get(rows, online)
  {
    if rows != [] {
      LatestIndexStable(rows, rows');
    }
  }
}
