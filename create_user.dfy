/** supabase/functions/create-user/index.ts: the server function an admin calls to create an
    account. Each awaited call is replaced by its outcome, given as input; the function is the
    decision that turns a request and those outcomes into a response and the writes it makes. */
module CreateUserFunction {
  import opened Wrappers
  import opened Backend
  import opened Rows

  /** A value thrown while reading the body: an `Error` with its message, or anything else. */
  datatype Thrown = ErrorValue(message: string) | OtherValue

  /** `await req.json()` destructured into its four fields, or what it threw. */
  datatype Body = Fields(email: Option<string>, password: Option<string>, name: Option<string>, role: Option<string>) | Unreadable(thrown: Thrown)

  datatype Request = Request(httpMethod: string, authorization: Option<string>, body: Body)

  datatype AuthUser = AuthUser(id: string, email: Option<string>)

  /** `auth.admin.createUser`: the user record it returns (possibly absent) or its error. */
  datatype CreateOutcome = Created(user: Option<AuthUser>) | CreateFailed(message: string)

  /** The outcomes of the calls the function makes: who the token belongs to, that user's role
      row (`.single()`), and the account creation. */
  datatype Calls = Calls(caller: Reply<AuthUser>, callerRole: Reply<Option<string>>, create: CreateOutcome)

  /** The writes the function performs. */
  datatype Effect = CreateAccount(email: string, password: string, name: string) | PromoteToAdmin(userId: string)

  datatype ResponseBody =
    | Empty
    | ErrorMessage(error: string)
    | Success(id: Option<string>, email: Option<string>, name: string, role: string)

  /** Every response carries the CORS headers; all but the preflight one are JSON. */
  datatype Response = Response(status: int, body: ResponseBody, json: bool)

  datatype Handled = Handled(response: Response, effects: seq<Effect>)

  const MinPasswordLength := 6

  function Refuse(status: int, message: string): Response {
    Response(status, ErrorMessage(message), true)
  }

  /** `role === 'admin' ? 'admin' : 'user'`. */
  function NormalisedRole(requested: Option<string>): (role: string)
    ensures role == "admin" <==> requested == Some("admin")
    ensures role != "admin" ==> role == "user"
  {
    if requested == Some("admin") then "admin" else "user"
  }

  /** `new Response(...)` for one request. The checks run in the order the function makes
      them, and the first failing one answers. */
  function Handle(req: Request, calls: Calls): (r: Handled)
    ensures req.httpMethod == "OPTIONS" ==> r == Handled(Response(200, Empty, false), [])
    ensures req.httpMethod != "OPTIONS" && !Present(req.authorization) ==>
      r == Handled(Refuse(401, "Missing authorization header"), [])
    ensures r.response.status in {200, 400, 401, 403, 500}
  {
    if req.httpMethod == "OPTIONS" then Handled(Response(200, Empty, false), [])
    else if !Present(req.authorization) then Handled(Refuse(401, "Missing authorization header"), [])
    else if calls.caller.error.Some? || calls.caller.data.None? then Handled(Refuse(401, "Unauthorized"), [])
    else if calls.callerRole.error.Some? || calls.callerRole.data != Some(Some("admin")) then
      Handled(Refuse(403, "Only admins can create users"), [])
    else match req.body
      case Unreadable(thrown) =>
        Handled(Refuse(500, if thrown.ErrorValue? then thrown.message else "Unknown error occurred"), [])
      case Fields(email, password, name, role) =>
        if !Present(email) || !Present(password) || !Present(name) then
          Handled(Refuse(400, "Email, password and name are required"), [])
        else if |password.value| < MinPasswordLength then
          Handled(Refuse(400, "Password must be at least 6 characters"), [])
        else
          var userRole := NormalisedRole(role);
          var create := CreateAccount(email.value, password.value, name.value);
          match calls.create
          case CreateFailed(message) => Handled(Refuse(400, message), [create])
          case Created(user) =>
            var promote := if userRole == "admin" && user.Some? then [PromoteToAdmin(user.value.id)] else [];
            var id := if user.Some? then Some(user.value.id) else None;
            var mail := if user.Some? then user.value.email else None;
            Handled(Response(200, Success(id, mail, name.value, userRole), true), [create] + promote)
  }

  /** The caller is an authenticated admin: a token, a user behind it, and the role 'admin'. */
  predicate CallerIsAdmin(req: Request, calls: Calls) {
    Present(req.authorization) && calls.caller.error.None? && calls.caller.data.Some? &&
    calls.callerRole.error.None? && calls.callerRole.data == Some(Some("admin"))
  }

  /** The body is readable, has the three required fields, and a password of 6 or more. */
  predicate ValidBody(body: Body) {
    body.Fields? && Present(body.email) && Present(body.password) && Present(body.name) &&
    |body.password.value| >= MinPasswordLength
  }

  /** Nothing is written unless an authenticated admin sent a valid body, and then the first
      write creates exactly the account requested. */
  lemma WritesOnlyForAdminWithValidBody(req: Request, calls: Calls)
    ensures Handle(req, calls).effects != [] <==> req.httpMethod != "OPTIONS" && CallerIsAdmin(req, calls) && ValidBody(req.body)
    ensures Handle(req, calls).effects != [] ==>
      Handle(req, calls).effects[0] == CreateAccount(req.body.email.value, req.body.password.value, req.body.name.value)
  {
  }

  /** A non-admin caller is refused before the body is looked at: the answer is the same for
      every body, and there is no write. */
  lemma RoleCheckedBeforeBody(req: Request, calls: Calls, otherBody: Body)
    requires req.httpMethod != "OPTIONS" && Present(req.authorization) && calls.caller.error.None? && calls.caller.data.Some?
    requires !CallerIsAdmin(req, calls)
    ensures Handle(req, calls) == Handle(req.(body := otherBody), calls) == Handled(Refuse(403, "Only admins can create users"), [])
  {
  }

  /** On success the account is created with the role asked for, normalised to 'admin' or
      'user'; the role row is promoted exactly when that role is 'admin' and the new user is
      known, and the response reports the normalised role. */
  lemma SuccessReportsNormalisedRole(req: Request, calls: Calls)
    requires Handle(req, calls).response.status == 200 && req.httpMethod != "OPTIONS"
    ensures calls.create.Created? && req.body.Fields? && CallerIsAdmin(req, calls) && ValidBody(req.body)
    ensures var r := Handle(req, calls);
      r.response.body.Success? && r.response.body.role == NormalisedRole(req.body.role) &&
      r.response.body.name == req.body.name.value &&
      (|r.effects| == 2 <==> NormalisedRole(req.body.role) == "admin" && calls.create.user.Some?) &&
      (|r.effects| == 2 ==> r.effects[1] == PromoteToAdmin(calls.create.user.value.id)) &&
      1 <= |r.effects| <= 2
  {
  }

  /** A token that does not resolve to a user (the lookup fails or finds no one) gives 401
      "Unauthorized" before the role or the body is looked at. */
  lemma UnknownCallerIsUnauthorized(req: Request, calls: Calls)
    requires req.httpMethod != "OPTIONS" && Present(req.authorization)
    requires calls.caller.error.Some? || calls.caller.data.None?
    ensures Handle(req, calls) == Handled(Refuse(401, "Unauthorized"), [])
  {
  }

  /** An admin's request missing the e-mail, the password or the name gives 400, with no write. */
  lemma MissingFieldsAreBadRequest(req: Request, calls: Calls)
    requires req.httpMethod != "OPTIONS" && CallerIsAdmin(req, calls) && req.body.Fields?
    requires !Present(req.body.email) || !Present(req.body.password) || !Present(req.body.name)
    ensures Handle(req, calls) == Handled(Refuse(400, "Email, password and name are required"), [])
  {
  }

  /** With all three fields present, a password shorter than 6 gives 400, with no write. */
  lemma ShortPasswordIsBadRequest(req: Request, calls: Calls)
    requires req.httpMethod != "OPTIONS" && CallerIsAdmin(req, calls) && req.body.Fields?
    requires Present(req.body.email) && Present(req.body.password) && Present(req.body.name)
    requires |req.body.password.value| < MinPasswordLength
    ensures Handle(req, calls) == Handled(Refuse(400, "Password must be at least 6 characters"), [])
  {
  }

  /** When account creation fails for a valid admin request, the answer is 400 with the
      failure's message; the creation was the only write attempted. */
  lemma CreateFailureIsBadRequest(req: Request, calls: Calls)
    requires req.httpMethod != "OPTIONS" && CallerIsAdmin(req, calls) && ValidBody(req.body)
    requires calls.create.CreateFailed?
    ensures Handle(req, calls) == Handled(Refuse(400, calls.create.message),
      [CreateAccount(req.body.email.value, req.body.password.value, req.body.name.value)])
  {
  }

  /** A body that cannot be read gives 500 with the thrown message, or the generic one for a
      thrown value that is not an `Error`. */
  lemma UnreadableBodyIsServerError(req: Request, calls: Calls)
    requires req.httpMethod != "OPTIONS" && CallerIsAdmin(req, calls) && req.body.Unreadable?
    ensures Handle(req, calls).response.status == 500
    ensures req.body.thrown.ErrorValue? ==> Handle(req, calls).response.body == ErrorMessage(req.body.thrown.message)
    ensures req.body.thrown.OtherValue? ==> Handle(req, calls).response.body == ErrorMessage("Unknown error occurred")
  {
  }
}
