/** src/hooks/useUsers.ts: the admin user list (profiles joined with their roles) and the
    client side of user creation. */
module Users {
  import opened Wrappers
  import opened Backend
  import opened Rows
  import Lists

  datatype ProfileRow = ProfileRow(id: string, userId: string, name: string, email: string, points: int, createdAt: string)

  /** `select('user_id, role')` on `user_roles`. */
  datatype RoleRow = RoleRow(userId: string, role: string)

  datatype UserWithRole = UserWithRole(id: string, userId: string, name: string, email: string, points: int, role: string, createdAt: string)

  /** `roles?.find((r) => r.user_id === userId)?.role || 'user'`. */
  function RoleOf(roles: seq<RoleRow>, userId: string): (role: string)
    ensures (forall i :: 0 <= i < |roles| ==> roles[i].userId != userId) ==> role == "user"
    ensures role != "user" ==> exists i :: 0 <= i < |roles| && roles[i].userId == userId && roles[i].role == role &&
                                           (forall j :: 0 <= j < i ==> roles[j].userId != userId)
  {
    match Lists.FindFirst(roles, (r: RoleRow) => r.userId == userId)
    case None => "user"
    case Some(r) => if r.role == "" then "user" else r.role
  }

  /** The role is the one on the user's first role row (an 'admin' row makes an admin), or
      'user' when that row's role is empty. */
  lemma RoleOfFirstRow(roles: seq<RoleRow>, userId: string, i: nat)
    requires i < |roles| && roles[i].userId == userId
    requires forall j :: 0 <= j < i ==> roles[j].userId != userId
    ensures RoleOf(roles, userId) == if roles[i].role == "" then "user" else roles[i].role
  {
    var found := Lists.FindFirst(roles, (r: RoleRow) => r.userId == userId);
    var k :| 0 <= k < |roles| && roles[k] == found.value && roles[k].userId == userId &&
      forall j :: 0 <= j < k ==> roles[j].userId != userId;
    assert k == i;
  }

  /** Role rows of other users, before or after, do not change a user's role. */
  lemma {:induction false} RoleIgnoresOtherUsers(roles: seq<RoleRow>, others: seq<RoleRow>, userId: string)
    requires forall i :: 0 <= i < |others| ==> others[i].userId != userId
    ensures RoleOf(others + roles, userId) == RoleOf(roles, userId)
    ensures RoleOf(roles + others, userId) == RoleOf(roles, userId)
  {
    var p := (r: RoleRow) => r.userId == userId;
    FindFirstSkips(roles, others, p);
    FindFirstAppend(roles, others, p);
  }

  lemma {:induction false} FindFirstSkips(s: seq<RoleRow>, skipped: seq<RoleRow>, p: RoleRow -> bool)
    requires forall i :: 0 <= i < |skipped| ==> !p(skipped[i])
    ensures Lists.FindFirst(skipped + s, p) == Lists.FindFirst(s, p)
  {
    if skipped != [] {
      assert (skipped + s)[0] == skipped[0] && (skipped + s)[1..] == skipped[1..] + s;
      FindFirstSkips(s, skipped[1..], p);
    } else {
      assert skipped + s == s;
    }
  }

  lemma {:induction false} FindFirstAppend(s: seq<RoleRow>, more: seq<RoleRow>, p: RoleRow -> bool)
    requires forall i :: 0 <= i < |more| ==> !p(more[i])
    ensures Lists.FindFirst(s + more, p) == Lists.FindFirst(s, p)
  {
    if s != [] {
      assert (s + more)[1..] == s[1..] + more;
      FindFirstAppend(s[1..], more, p);
    } else {
      FindFirstSkips([], more, p);
      assert more + [] == more;
    }
  }

  /** One profile with its role; every other field is copied. */
  function WithRole(profile: ProfileRow, roles: seq<RoleRow>): (u: UserWithRole)
    ensures u.id == profile.id && u.userId == profile.userId && u.name == profile.name
    ensures u.email == profile.email && u.points == profile.points && u.createdAt == profile.createdAt
    ensures u.role == RoleOf(roles, profile.userId)
  {
    UserWithRole(profile.id, profile.userId, profile.name, profile.email, profile.points, RoleOf(roles, profile.userId), profile.createdAt)
  }

  /** The query function of `useUsers`: an error from either read aborts with it; otherwise one
      user per profile row, in the order read. */
  function UseUsers(profilesQ: Reply<seq<ProfileRow>>, rolesQ: Reply<seq<RoleRow>>): (r: Result<seq<UserWithRole>>)
    ensures profilesQ.error.Some? ==> r == Err(profilesQ.error.value)
    ensures profilesQ.error.None? && rolesQ.error.Some? ==> r == Err(rolesQ.error.value)
    ensures r.Ok? <==> profilesQ.error.None? && rolesQ.error.None?
    ensures r.Ok? ==> |r.value| == |RowsOf(profilesQ)|
    ensures r.Ok? ==> forall i :: 0 <= i < |r.value| ==> r.value[i] == WithRole(RowsOf(profilesQ)[i], RowsOf(rolesQ))
  {
    if profilesQ.error.Some? then Err(profilesQ.error.value)
    else if rolesQ.error.Some? then Err(rolesQ.error.value)
    else
      var profiles := RowsOf(profilesQ);
      var roles := RowsOf(rolesQ);
      Ok(seq(|profiles|, i requires 0 <= i < |profiles| => WithRole(profiles[i], roles)))
  }

  /** What `supabase.functions.invoke('create-user')` resolves to: a transport error, or the
      function's JSON body, whose `error` field reports a refusal. */
  datatype InvokeResponse = InvokeResponse(error: Option<string>, data: Option<FunctionBody>)

  datatype FunctionBody = FunctionBody(error: Option<string>, success: bool)

  /** The outcome of `useCreateUser`'s mutation: whether the function was invoked, and what
      the mutation resolved to or threw. */
  datatype CreateAttempt = CreateAttempt(invoked: bool, result: Result<Option<FunctionBody>>)

  const NotAuthenticated := "Not authenticated"

  /** `useCreateUser`'s mutation function. Without a session it throws before invoking, so
      `response` is then never looked at. */
  function CreateUser(hasSession: bool, response: InvokeResponse): (r: CreateAttempt)
    ensures r.invoked == hasSession
    ensures !hasSession ==> r.result == Err(NotAuthenticated)
    ensures hasSession && response.error.Some? ==> r.result == Err(response.error.value)
    ensures hasSession && response.error.None? && response.data.Some? && Present(response.data.value.error) ==>
      r.result == Err(response.data.value.error.value)
    ensures r.result.Ok? <==>
      hasSession && response.error.None? && !(response.data.Some? && Present(response.data.value.error))
    ensures r.result.Ok? ==> r.result.value == response.data
  {
    if !hasSession then CreateAttempt(false, Err(NotAuthenticated))
    else if response.error.Some? then CreateAttempt(true, Err(response.error.value))
    else if response.data.Some? && Present(response.data.value.error) then CreateAttempt(true, Err(response.data.value.error.value))
    else CreateAttempt(true, Ok(response.data))
  }

  /** Without a session the outcome does not depend on what the function would have answered. */
  lemma NoSessionIgnoresResponse(a: InvokeResponse, b: InvokeResponse)
    ensures CreateUser(false, a) == CreateUser(false, b)
  {
  }
}
