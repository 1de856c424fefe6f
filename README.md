# Status record reconciliation

A Dafny model of the status API of a small personal status tracker. A single
admin sets three booleans about a person: `isAwake`, `hasEaten` and `hasDrunk`.
Anyone may read them. The state lives in a `Status` table of rows
(`id`, `isAwake`, `hasEaten`, `hasDrunk`, `createdAt`). The current status is
the row with the greatest `createdAt`.

- `GET /api/status` answers the three booleans of the latest row. On an empty
  table it answers all `false`. On a database error it answers 500.
- `POST /api/status/awake`, `/eat` and `/drink` each do the same five steps:
  1. Admin guard: no session, or a session email other than the configured
     admin email, gives 401.
  2. Body read.
  3. Boolean check of the route's one key, otherwise 400.
  4. `findFirst` of the latest row.
  5. On an empty table, `create` one row: the route's field gets the value and
     the others get defaults. Otherwise `update` the latest row in place,
     changing only the route's field.

Files and modules:

- `store.dfy`, module `StatusStore`. Rows, the Prisma `data` argument as one
  optional value per column, and the latest-row selector. Also the class
  `StatusTable`, whose methods `FindLatest`, `Create` and `Update` stand for the
  three Prisma calls. A ghost `log` records the calls made on the table.
- `requests.dfy`, module `Requests`. The session and the admin guard, which uses
  JavaScript strict equality on optional emails. Also the JSON body, the
  destructuring read of one key, the `typeof … === 'boolean'` check, and the
  responses.
- `status_route.dfy`, module `StatusRoute`. The read route, as a pure function.
- `reconcile.dfy`, module `Reconcile`. `Step` is the specification of one POST:
  the response, the table after it and the store calls made, as a function of
  the request and the table before it. The lemmas about `Step` cover the three
  routes at once.
- `drink_route.dfy`, `eat_route.dfy`, `awake_route.dfy`. Each handler is an
  imperative method on a `StatusTable`, proved equal to `Step` for its field.
  Next to it are the route's own first-write and later-write lemmas.
- `scenarios.dfy`, module `Scenarios`. Client methods that run requests against
  a fresh table and prove the outcome from the handlers' contracts alone.

The clock (`now`), the database's availability (`online`), the session and the
admin email are inputs. The schema's column defaults are the table's
`defaults`. Only `defaults.hasDrunk` is ever used, by the awake route's create.

Three points of the code's behaviour worth noting:

- The awake route's first write does not set `hasDrunk`, so that column takes
  the schema default. It is not forced to `false`.
- A write answers the whole row, `id` and `createdAt` included.
- The write routes catch no errors. A database error, or a body that is not
  JSON, ends in the framework's 500.

## Model

| member | source | states |
|---|---|---|
| `StatusStore.LatestIndex` | app/api/status/route.ts:10-14 | The position it picks holds a row whose `createdAt` is at least that of every row. Every earlier position has a strictly smaller `createdAt`, so ties go to the first row. |
| `StatusStore.Latest` | app/api/status/drink/route.ts:23 | `findFirst` ordered by `createdAt` descending. None exactly when the table is empty. Otherwise a row of the table with the greatest `createdAt`. |
| `StatusStore.LatestIndexStable` | app/api/status/route.ts:11-13 | Which row is latest depends on `createdAt` alone. Changing other columns never moves the current row. |
| `StatusStore.OverlayOnly` | app/api/status/drink/route.ts:38-41 | An update with `data: { f: v }` sets `f` to `v`. It keeps the other two booleans, the `id` and the `createdAt`. |
| `StatusStore.OverlayIdempotent` | app/api/status/eat/route.ts:35-38 | Applying the same update data twice gives the same row as applying it once. |
| `StatusStore.UpdateWhereOne` | app/api/status/drink/route.ts:38-41 | With unique ids, `update` where `id` is the id of row k rewrites row k and no other row. The row count stays the same. |
| `StatusStore.UpdateWhereKeepsKeys` | app/api/status/eat/route.ts:35-38 | An update keeps the row count and every `id` and `createdAt`. So ids stay unique. |
| `StatusStore.StatusTable.FindLatest` | app/api/status/eat/route.ts:20 | Answers the latest row, or none, or a fault when the database is down. Records one `findFirst` call and changes no row. |
| `StatusStore.StatusTable.Create` | app/api/status/drink/route.ts:27-33 | Appends exactly one row with a fresh id, created at `now`. Columns given in `data` get those values. Columns left out get the schema default. Returns the inserted row. |
| `StatusStore.StatusTable.Update` | app/api/status/drink/route.ts:38-41 | Rewrites the rows carrying `id` with `data` and touches no other row. Returns the updated row. Requires that a row with `id` exists. |
| `Requests.AuthorizedIff` | app/api/status/drink/route.ts:11-14 | The guard passes exactly for a session whose email equals the admin email, character for character. With no admin email configured, it passes exactly for a session without an email. A missing session never passes. |
| `Requests.ReadProperty` | app/api/status/drink/route.ts:17 | Destructuring the body throws exactly when the body is not JSON or is `null`. It gives the key's value when the body is an object holding the key, and `undefined` otherwise. |
| `Requests.AsBoolean` | app/api/status/drink/route.ts:18-20 | Accepts exactly a present JSON boolean and gives its value. Anything else is rejected. |
| `StatusRoute.Get` | app/api/status/route.ts:8-35 | A database fault gives 500 and never the defaults. An empty table gives all `false`. Otherwise the answer is the three booleans of a row with the greatest `createdAt`. It is a function of the rows, so a read changes nothing. |
| `StatusRoute.GetIgnoresIds` | app/api/status/route.ts:26-30 | The answer depends only on the three booleans and `createdAt`. It holds no `id` or `createdAt`. |
| `Reconcile.Step` | app/api/status/drink/route.ts:9-43 | The reference definition of one POST to the route of a field: guard (401), body read (500 when it throws), boolean check (400), `findFirst` (500 on a fault), then `create` on an empty table or `update` of the latest row by id. A rejected request or a fault leaves the table as it was, with at most the `findFirst` call made. A 200 returns a row that is in the table after it, after exactly `findFirst` and one write. The three `Post` methods are proved equal to it. |
| `Reconcile.CreateData` | app/api/status/awake/route.ts:22 | The `data` each route passes to `create`: drink gives `{isAwake: false, hasEaten: false, hasDrunk: v}` (drink/route.ts:28-32), eat gives `{isAwake: false, hasEaten: v, hasDrunk: false}` (eat/route.ts:25-29), and awake gives `{isAwake: v, hasEaten: false}` with `hasDrunk` left out. Whatever the schema defaults, the created row holds `v` in the route's column and `false` in the others, except `hasDrunk` under the awake route, which takes the default. |
| `Reconcile.StepRejects` | app/api/status/drink/route.ts:11-20 | For each of the three routes: a failed guard gives 401 and a non-boolean value gives 400. Neither makes any call on the table nor changes it. A body that throws or a database fault gives 500 and leaves the table as it was. A write answers 200 exactly when it is accepted and the database is up. |
| `Reconcile.StepCreates` | app/api/status/eat/route.ts:22-31 | On an empty table, an accepted write inserts exactly one row and returns it. The row has the next id, `createdAt = now`, the value in the route's field and the route's create data elsewhere. The calls are `findFirst` then `create`. |
| `Reconcile.StepUpdates` | app/api/status/drink/route.ts:37-42 | On a non-empty table, an accepted write changes only the latest row, and only the route's field. That row keeps its id, `createdAt` and other fields. Every other row stays, no row is added, and the response is the persisted row. |
| `Reconcile.StepKeepsWellFormed` | app/api/status/awake/route.ts:19-29 | Every request keeps the ids unique and below the next id. |
| `Reconcile.StepRowCount` | app/api/status/awake/route.ts:20-30 | A request adds one row only when the table was empty and the write succeeds. Otherwise the row count stays the same, so a table with a row never grows or empties. |
| `Reconcile.StepIdempotent` | app/api/status/eat/route.ts:35-39 | The same request sent twice leaves the same table and the same response as sending it once, even when the clock differs. |
| `Reconcile.ReadAfterWrite` | app/api/status/route.ts:26-30 | After an accepted write, the read route answers exactly the three booleans of the row the write returned. |
| `Reconcile.ReplayKeepsLastWrites` | app/api/status/eat/route.ts:34-38 | After any non-empty sequence of admin writes from an empty table, each write made at its own time, the table has exactly one row. Each field holds the last value written to it, or the first write's create value if it was never written. |
| `Reconcile.ReadAfterWrites` | app/api/status/route.ts:10-30 | After any non-empty sequence of admin writes from an empty table, each write made at its own time, the read route answers the last value written to each field. Unwritten fields read as the first create set them. |
| `DrinkRoute.Post` | app/api/status/drink/route.ts:9-43 | The drink handler, step by step. Its response, new rows, next id and store calls are those of `Step` for `hasDrunk`. Unique ids are kept. |
| `DrinkRoute.FirstWrite` | app/api/status/drink/route.ts:26-35 | On an empty table, the drink route inserts and returns the one row `{hasDrunk: v, isAwake: false, hasEaten: false}`. |
| `DrinkRoute.LaterWrite` | app/api/status/drink/route.ts:37-42 | On a non-empty table, the new rows are the old ones with only the latest row's `hasDrunk` replaced. That row is returned. |
| `EatRoute.Post` | app/api/status/eat/route.ts:9-40 | The eat handler, step by step, equal to `Step` for `hasEaten`. Unique ids are kept. |
| `EatRoute.FirstWrite` | app/api/status/eat/route.ts:22-32 | On an empty table, the eat route inserts and returns the one row `{hasEaten: v, isAwake: false, hasDrunk: false}`. |
| `EatRoute.LaterWrite` | app/api/status/eat/route.ts:34-39 | On a non-empty table, only the latest row's `hasEaten` changes. `isAwake` and `hasDrunk` are kept, no row is added, and the row is returned. |
| `AwakeRoute.Post` | app/api/status/awake/route.ts:7-31 | The awake handler, step by step, equal to `Step` for `isAwake`. Unique ids are kept. |
| `AwakeRoute.FirstWrite` | app/api/status/awake/route.ts:20-24 | On an empty table, the awake route inserts and returns the one row `{isAwake: v, hasEaten: false}`. Its `hasDrunk` is the schema default. |
| `AwakeRoute.LaterWrite` | app/api/status/awake/route.ts:25-30 | On a non-empty table, only the latest row's `isAwake` changes. `hasEaten` and `hasDrunk` are kept, no row is added, and the row is returned. |
| `Scenarios.EatThenAwake` | app/api/status/awake/route.ts:18-30 | From an empty table, eat(true) then awake(true) update one row. The read then answers `{isAwake: true, hasEaten: true, hasDrunk: false}` whatever the schema defaults. |
| `Scenarios.DrinkThenIntruder` | app/api/status/drink/route.ts:11-14 | After the admin's drink(true), a request without a session gets 401. The read still answers `{false, false, true}`. |
| `Scenarios.AwakeWithString` | app/api/status/awake/route.ts:13-16 | A non-boolean `isAwake` gets 400. The table ends with no row and an empty call log. |

## Left out

- Pages, components, layout, theming and dark-mode storage are rendering and browser storage, not status logic.
- The Spotify login, callback, token cookies and playlist fetch are calls to a third-party service.
- The partition of playlists by owner id is a display filter.
- The NextAuth provider and its sign-in callback are left out. The session is an input.
- `getServerSession` and the environment lookup of `ADMIN_EMAIL` are inputs: a `Session` value and an optional admin email.
- Only the status code of each error response is modelled, not its text body. `console.error` logging is left out too.
- JSON serialisation of responses is not modelled. A write answers the `Row`, the read answers `Flags`.
- JSON numbers, strings and arrays are one value, `JOther`. The routes only tell booleans, `null` and objects apart.
- How the database picks among rows with equal `createdAt` is unspecified. The model picks the earliest-inserted such row. The writers never insert a second row, so ties arise only in rows that were already in the table.
- Reconcile.StepIdempotent: on a table where two rows share the greatest `createdAt`, it relies on the model's tie choice. The database may update a different tied row on the second request.
- Reconcile.ReadAfterWrite: on a table where two rows share the greatest `createdAt`, it relies on the model's tie choice. The database's read may return the other tied row's booleans.
- How the `id` column is generated is not known, because the schema is not part of this model. The table hands out increasing ids from a counter.
- The `createdAt` default is the `now` input of a write.
- A database fault is modelled at `findFirst` only. A fault in `create` or `update` after a good read also gives 500 with the table unchanged, if the database writes a row atomically. That case is not modelled separately.
- The lost update between two concurrent requests is left out. Each request is one atomic step, as the handlers run with no locking or transaction.
- Configuration files (`next.config.ts`, `tailwind.config.mjs`) hold no status logic.
