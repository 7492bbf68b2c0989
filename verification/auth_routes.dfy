/** src/routes/auth.js: POST /auth/login, and the way the route files put
    authenticateToken and requireAdmin in front of their handlers. jwt.sign is the
    parameter `sign`; the login handler only reads the store. */
module AuthRoutes {
  import opened Wrappers
  import opened Table
  import opened Database
  import opened Request
  import opened Views
  import opened AuthMiddleware
  import MemberRoutes

  /** The JSON body of POST /auth/login. */
  datatype LoginBody = LoginBody(email: Option<string>, password: Option<string>)

  datatype LoginReply =
    | MissingCredentials                         // 400: email or password missing
    | InvalidCredentials                         // 401: unknown email or wrong password
    | LoggedIn(token: string, user: PublicMember) // 200

  /** POST /auth/login. An unknown email and a wrong password give the same answer;
      a successful login signs the member's token payload and returns the member
      without the password hash. */
  function Login(s: Store, b: LoginBody, matches: (string, string) -> bool, sign: SignRequest -> string): (r: LoginReply)
    ensures r.MissingCredentials? <==> !Given(b.email) || !Given(b.password)
    ensures r.InvalidCredentials? <==>
      && Given(b.email) && Given(b.password)
      && (MemberWithEmail(s, b.email.value).None?
          || !matches(b.password.value, MemberWithEmail(s, b.email.value).value.fields.password))
    ensures r.LoggedIn? ==>
      var m := MemberWithEmail(s, b.email.value).value;
      && Given(b.email) && Given(b.password)
      && m.fields.email == b.email.value
      && matches(b.password.value, m.fields.password)
      && r.token == sign(GenerateToken(m))
      && r.user == Strip(m)
  {
    if !Given(b.email) || !Given(b.password) then MissingCredentials
    else match AuthenticateUser(s, b.email.value, b.password.value, matches)
      case None => InvalidCredentials
      case Some(user) => LoggedIn(sign(GenerateToken(user)), Strip(user))
  }

  /** Which middleware a route puts in front of its handler: reads need a valid token,
      writes need a valid token of an administrator. */
  datatype Guard = TokenOnly | AdminOnly

  datatype GateOutcome =
    | Refused(status: int)    // 401 or 403, the handler does not run
    | Admitted(user: Principal)

  /** authenticateToken, followed by requireAdmin on the write routes. requireAdmin
      always sees the principal authenticateToken attached. */
  function Gate(header: Option<string>, verify: string -> Option<Principal>, guard: Guard): (r: GateOutcome)
    ensures r == Refused(401) <==> BearerToken(header).None?
    ensures r.Admitted? <==>
      && BearerToken(header).Some?
      && verify(BearerToken(header).value).Some?
      && (guard == TokenOnly || verify(BearerToken(header).value).value.accessLevel == "admin")
    ensures r.Admitted? ==> Some(r.user) == verify(BearerToken(header).value)
    ensures r.Refused? ==> r.status == 401 || r.status == 403
  {
    match AuthenticateToken(header, verify)
    case NoToken => Refused(401)
    case BadToken => Refused(403)
    case Verified(user) =>
      if guard == TokenOnly then Admitted(user)
      else match RequireAdmin(Some(user))
        case Unauthenticated => Refused(401)
        case Forbidden => Refused(403)
        case Proceed => Admitted(user)
  }

  // Properties

  /** Under the member invariant a login identifies the one member with that email. */
  lemma LoginIdentifiesMember(s: Store, b: LoginBody, matches: (string, string) -> bool, sign: SignRequest -> string, k: int)
    requires MemberRoutes.MembersConsistent(s)
    requires Login(s, b, matches, sign).LoggedIn?
    requires 0 <= k < |s.members.rows| && s.members.rows[k].fields.email == b.email.value
    ensures Login(s, b, matches, sign).user == Strip(s.members.rows[k])
  {
    var i :| 0 <= i < |s.members.rows| && MemberWithEmail(s, b.email.value).value == s.members.rows[i];
    MemberRoutes.EmailIdentifiesMember(s, i, k);
  }

  /** Login is complete under the member invariant: a stored member's email with a
      password its hash accepts logs that member in. */
  lemma StoredMemberCanLogIn(s: Store, k: int, password: string,
                             matches: (string, string) -> bool, sign: SignRequest -> string)
    requires MemberRoutes.MembersConsistent(s)
    requires 0 <= k < |s.members.rows|
    requires s.members.rows[k].fields.email != "" && password != ""
    requires matches(password, s.members.rows[k].fields.password)
    ensures var m := s.members.rows[k];
      var login := Login(s, LoginBody(Some(m.fields.email), Some(password)), matches, sign);
      && login.LoggedIn?
      && login.user == Strip(m)
      && login.token == sign(GenerateToken(m))
  {
    var email := s.members.rows[k].fields.email;
    var found := MemberWithEmail(s, email);
    assert found.Some?;
    var i :| 0 <= i < |s.members.rows| && found.value == s.members.rows[i];
    MemberRoutes.EmailIdentifiesMember(s, i, k);
  }

  /** A member created through POST /members can log in with the password it was
      created with, and login returns what creation returned, provided the password
      check accepts a password against its own hash. */
  lemma CreatedMemberCanLogIn(s: Store, b: MemberRoutes.MemberBody, hash: string -> string,
                              matches: (string, string) -> bool, sign: SignRequest -> string)
    requires MemberRoutes.MembersConsistent(s)
    requires forall p :: matches(p, hash(p))
    requires MemberRoutes.Create(s, b, hash).0.Created?
    ensures var (reply, s') := MemberRoutes.Create(s, b, hash);
      var login := Login(s', LoginBody(b.email, b.password), matches, sign);
      && login.LoggedIn?
      && login.user == reply.body
      && login.token == sign(GenerateToken(s'.members.rows[|s.members.rows|]))
  {
    var (reply, s') := MemberRoutes.Create(s, b, hash);
    MemberRoutes.CreateKeepsConsistent(s, b, hash);
    var n := |s.members.rows|;
    assert s'.members.rows[n].fields.email == b.email.value;
    var found := MemberWithEmail(s', b.email.value);
    assert found.Some?;
    var i :| 0 <= i < |s'.members.rows| && found.value == s'.members.rows[i];
    assert s'.members.rows[i].fields.email == b.email.value;
    MemberRoutes.EmailIdentifiesMember(s', i, n);
  }

  /** The token a login hands out opens the gate when presented as `Bearer <token>`:
      on read routes always, on write routes exactly when the member is an
      administrator, and the attached principal is the member's payload. The token
      verifier is assumed to give back what was signed. */
  lemma LoginTokenOpensGate(s: Store, b: LoginBody, matches: (string, string) -> bool,
                            sign: SignRequest -> string, verify: string -> Option<Principal>)
    requires Login(s, b, matches, sign).LoggedIn?
    requires var t := Login(s, b, matches, sign).token; t != "" && ' ' !in t
    requires forall q :: verify(sign(q)) == Some(q.payload)
    ensures var reply := Login(s, b, matches, sign);
      var m := MemberWithEmail(s, b.email.value).value;
      var header := Some("Bearer " + reply.token);
      && Gate(header, verify, TokenOnly) == Admitted(GenerateToken(m).payload)
      && Gate(header, verify, AdminOnly) ==
           (if m.fields.accessLevel == "admin" then Admitted(GenerateToken(m).payload) else Refused(403))
  {
    var reply := Login(s, b, matches, sign);
    BearerHeaderCarriesToken(reply.token);
  }
}
