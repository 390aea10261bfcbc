/** src/contexts/AuthContext.tsx: the demo sign-in, which matches an e-mail against a fixed
    list of users and keeps the current user in the provider's state. */
module Auth {
  import opened Wrappers
  import opened Types
  import Lists

  const Joao := User("1", "João Silva", "joao@empresa.com", None, "user", 1250, Some(3))
  const AdminUser := User("2", "Admin", "admin@empresa.com", None, "admin", 0, None)

  /** `mockUsers`. */
  const MockUsers: seq<User> := [Joao, AdminUser]

  /** `mockUsers.find((u) => u.email === email)`. */
  function FindByEmail(email: string): (r: Option<User>)
    ensures r.None? <==> forall i :: 0 <= i < |MockUsers| ==> MockUsers[i].email != email
    ensures r.Some? ==> r.value in MockUsers && r.value.email == email
  {
    Lists.FindFirst(MockUsers, (u: User) => u.email == email)
  }

  /** The two demo addresses sign in as their users: João as a learner, Admin as an admin. */
  lemma DemoAccounts()
    ensures FindByEmail("joao@empresa.com") == Some(Joao) && Joao.role == "user"
    ensures FindByEmail("admin@empresa.com") == Some(AdminUser) && AdminUser.role == "admin"
  {
    assert MockUsers[0].email == "joao@empresa.com";
    assert MockUsers[1].email == "admin@empresa.com" != "joao@empresa.com";
  }

  /** The value the provider hands to `useAuth`. */
  datatype AuthContextValue = AuthContextValue(user: Option<User>, isAuthenticated: bool, isAdmin: bool)

  /** `isAuthenticated: !!user`, `isAdmin: user?.role === 'admin'`. */
  function ContextValue(user: Option<User>): (v: AuthContextValue)
    ensures v.user == user
    ensures v.isAuthenticated <==> user.Some?
    ensures v.isAdmin <==> user.Some? && user.value.role == "admin"
    ensures v.isAdmin ==> v.isAuthenticated
  {
    AuthContextValue(user, user.Some?, user.Some? && user.value.role == "admin")
  }

  const OutsideProvider := "useAuth must be used within an AuthProvider"

  /** `useAuth`: outside a provider the context is `undefined` and the hook throws. */
  function UseAuth(context: Option<AuthContextValue>): (r: Result<AuthContextValue>)
    ensures context.None? <==> r == Err(OutsideProvider)
    ensures context.Some? ==> r == Ok(context.value)
  {
    match context
    case None => Err(OutsideProvider)
    case Some(v) => Ok(v)
  }

  /** `AuthProvider`'s state. */
  class AuthProvider {
    var user: Option<User>

    /** `useState(mockUsers[0])`: the demo starts signed in as the first mock user. */
    constructor ()
      ensures user == Some(MockUsers[0])
    {
      user := Some(MockUsers[0]);
    }

    /** `login`: the first mock user with this e-mail becomes the current user, whatever the
        password; an unknown e-mail returns false and keeps the current user. */
    method Login(email: string, password: string) returns (ok: bool)
      modifies this
      ensures ok <==> exists i :: 0 <= i < |MockUsers| && MockUsers[i].email == email
      ensures ok ==> user == FindByEmail(email) && user.Some? && user.value.email == email
      ensures !ok ==> user == old(user)
    {
      var found := FindByEmail(email);
      if found.None? {
        return false;
      }
      user := found;
      return true;
    }

    /** `logout`. */
    method Logout()
      modifies this
      ensures user.None?
    {
      user := None;
    }

    /** What `useAuth` returns inside this provider. */
    function Context(): AuthContextValue
      reads this
    {
      ContextValue(user)
    }
  }
}
