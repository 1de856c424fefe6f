/** What a POST status route receives and answers: the session behind the admin
    guard, the JSON body, and the response it sends back. */
module Requests {
  import opened StatusStore

  /** The value of `session.user?.email`: `undefined` when the user or the email is
      missing, `null`, or an address. */
  datatype Email = Undefined | Null | Address(text: string)

  /** The result of `getServerSession()`: no session, or one carrying an email value. */
  datatype Session = NoSession | Session(email: Email)

  /** `session.user?.email !== process.env.ADMIN_EMAIL` negated: JavaScript strict
      equality between the session's email and the admin email, itself a string or
      `undefined` when the variable is unset. */
  function SameEmail(email: Email, adminEmail: Option<string>): bool {
    match (email, adminEmail)
    case (Undefined, None) => true
    case (Address(a), Some(b)) => a == b
    case _ => false
  }

  /** The admin guard every POST route runs first. */
  function Authorized(session: Session, adminEmail: Option<string>): bool {
    session.Session? && SameEmail(session.email, adminEmail)
  }

  /** Exactly one caller passes the guard: a session whose email is, character for
      character, the configured admin email; with no admin email configured, a
      session without an email. */
  lemma AuthorizedIff(session: Session, adminEmail: Option<string>)
    ensures Authorized(session, adminEmail) <==>
      match adminEmail
      case Some(admin) => session == Session(Address(admin))
      case None => session == Session(Undefined)
  {
  }

  /** A JSON value; numbers, strings and arrays are told apart only from booleans,
      `null` and objects. */
  datatype Json = JNull | JBool(b: bool) | JObject(fields: map<string, Json>) | JOther

  /** What `await request.json()` gives: a JSON value, or a rejection when the body
      is not JSON. */
  datatype Body = Unparsable | Parsed(json: Json)

  /** The value `const { <key> } = await request.json()` binds: the read throws when
      the body is not JSON or is `null`, and gives `undefined` for a missing key. */
  datatype Property = Thrown | Missing | Present(value: Json)

  function ReadProperty(body: Body, key: string): (p: Property)
    ensures p.Thrown? <==> body == Unparsable || body == Parsed(JNull)
    ensures p.Present? <==> body.Parsed? && body.json.JObject? && key in body.json.fields
    ensures p.Present? ==> p.value == body.json.fields[key]
  {
    match body
    case Unparsable => Thrown
    case Parsed(JNull) => Thrown
    case Parsed(JObject(fields)) => if key in fields then Present(fields[key]) else Missing
    case Parsed(_) => Missing
  }

  /** `typeof value === 'boolean'`: the boolean, or none. */
  function AsBoolean(p: Property): (r: Option<bool>)
    ensures r.Some? <==> p.Present? && p.value.JBool?
    ensures r.Some? ==> p.value == JBool(r.value)
  {
    if p.Present? && p.value.JBool? then Some(p.value.b) else None
  }

  /** The JSON body key each route reads. */
  function Key(f: Field): string {
    match f
    case IsAwake => "isAwake"
    case HasEaten => "hasEaten"
    case HasDrunk => "hasDrunk"
  }

  /** A route's answer. `ServerError` stands for the 500 the framework sends when the
      handler throws (a body that is not JSON, a database error). */
  datatype Response = Ok(row: Row) | Unauthorized | InvalidInput | ServerError

  function StatusCode(r: Response): nat {
    match r
    case Ok(_) => 200
    case Unauthorized => 401
    case InvalidInput => 400
    case ServerError => 500
  }

  /** A request: who asks, and what body they send. */
  datatype Request = Request(session: Session, body: Body)

  /** The admin's request that sets `f` to `v`. */
  function AdminSets(adminEmail: string, f: Field, v: bool): (req: Request)
    ensures Authorized(req.session, Some(adminEmail))
    ensures AsBoolean(ReadProperty(req.body, Key(f))) == Some(v)
  {
    Request(Session(Address(adminEmail)), Parsed(JObject(map[Key(f) := JBool(v)])))
  }
}
