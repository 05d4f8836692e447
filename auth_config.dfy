/** The session callbacks: the route gate `authorized`, which admits any
    path outside `/admin` and admin paths only for a signed-in SUPER_ADMIN,
    and `jwt` / `session`, which copy the user's role into the token and
    from the token into the session. */
module AuthConfig {
  import opened Common
  import opened Store

  const AdminPrefix: string := "/admin"
  const SuperAdmin: string := "SUPER_ADMIN"

  /** `loggedIn` is whether the session has a user, `role` that user's role. */
  function Authorized(path: string, loggedIn: bool, role: Option<string>): (ok: bool)
    ensures !StartsWith(path, AdminPrefix) ==> ok
  {
    if !StartsWith(path, AdminPrefix) then true
    else if !loggedIn then false
    else role == Some(SuperAdmin)
  }

  /** The gate in one rule: a path is refused exactly when it is an admin
      path and the caller is not a signed-in SUPER_ADMIN. */
  lemma AuthorizedIff(path: string, loggedIn: bool, role: Option<string>)
    ensures Authorized(path, loggedIn, role) <==>
            !StartsWith(path, AdminPrefix) || (loggedIn && role == Some(SuperAdmin))
    ensures StartsWith(path, AdminPrefix) && !loggedIn ==> !Authorized(path, loggedIn, role)
  {
  }

  /** The prefix test also gates paths that merely begin with the same
      letters, and admits public pages to anyone. */
  lemma PrefixExamples()
    ensures !Authorized("/administrator", true, Some("ADMIN"))
    ensures Authorized("/administrator", true, Some(SuperAdmin))
    ensures Authorized("/products", false, None)
    ensures !Authorized("/admin/users", false, Some(SuperAdmin))
  {
    assert StartsWith("/administrator", AdminPrefix);
    assert StartsWith("/admin/users", AdminPrefix);
    assert !StartsWith("/products", AdminPrefix) by {
      assert "/products"[1] == 'p' && AdminPrefix[1] == 'a';
      assert "/products"[..6][1] != AdminPrefix[1];
    }
  }

  /** The JWT the session is built from; `sub` is `""` when absent. */
  class JwtToken {
    var sub: string
    var role: Option<string>

    constructor (sub: string, role: Option<string>)
      ensures this.sub == sub && this.role == role
    {
      this.sub := sub;
      this.role := role;
    }

    /** `jwt({ token, user })`: on sign-in the user's role is copied in. */
    method OnJwt(user: Option<User>)
      modifies this
      ensures sub == old(sub)
      ensures role == if user.Some? then Some(user.value.role) else old(role)
    {
      if user.Some? {
        role := Some(user.value.role);
      }
    }
  }

  class SessionUser {
    var id: string
    var role: Option<string>

    constructor (id: string, role: Option<string>)
      ensures this.id == id && this.role == role
    {
      this.id := id;
      this.role := role;
    }
  }

  class Session {
    var user: SessionUser?

    constructor (user: SessionUser?)
      ensures this.user == user
    {
      this.user := user;
    }

    /** `session({ session, token })`: when the token has a subject and the
        session a user, the user gets the subject as id and the token's
        role; otherwise nothing changes. */
    method OnSession(token: JwtToken)
      modifies user
      ensures user == old(user)
      ensures user != null && token.sub != "" ==> user.id == token.sub && user.role == token.role
      ensures user != null && token.sub == "" ==> user.id == old(user.id) && user.role == old(user.role)
    {
      if token.sub != "" && user != null {
        user.id := token.sub;
        user.role := token.role;
      }
    }
  }

  /** Sign-in then page load: the role that reaches the session is the
      signed-in user's, so the admin gate admits them exactly when that
      role is SUPER_ADMIN. */
  method SignInThenVisit(token: JwtToken, session: Session, u: User, path: string) returns (ok: bool)
    requires session.user != null && token.sub != ""
    modifies token, session.user
    ensures session.user.role == Some(u.role)
    ensures ok <==> !StartsWith(path, AdminPrefix) || u.role == SuperAdmin
  {
    token.OnJwt(Some(u));
    session.OnSession(token);
    ok := Authorized(path, session.user != null, session.user.role);
  }
}
