/** src/middleware/auth.js: reading the bearer token, the administrator gate, the
    token payload, and the email/password check. jwt.verify is the parameter
    `verify`, bcrypt.compare the parameter `matches`; both are outside the model. */
module AuthMiddleware {
  import opened Wrappers
  import opened Table
  import opened Database

  /** The token payload: what generateToken signs and authenticateToken attaches as
      `req.user`. It has no password field. */
  datatype Principal = Principal(id: int, email: string, name: string, accessLevel: string)

  /** What generateToken hands to jwt.sign: the payload and its lifetime. */
  datatype SignRequest = SignRequest(payload: Principal, expiresIn: string)

  const TokenLifetime: string := "24h"

  /** generateToken: the member's id, email, name and access level, valid for 24 hours. */
  function GenerateToken(m: Row<Member>): (r: SignRequest)
    ensures r.payload.id == m.id && r.payload.email == m.fields.email
    ensures r.payload.name == m.fields.name && r.payload.accessLevel == m.fields.accessLevel
    ensures r.expiresIn == TokenLifetime
  {
    SignRequest(Principal(m.id, m.fields.email, m.fields.name, m.fields.accessLevel), TokenLifetime)
  }

  // `String.prototype.split` on a one-character separator

  /** The position of the first `c` in `s`. */
  function IndexOf(s: string, c: char): (i: nat)
    requires c in s
    ensures i < |s| && s[i] == c && c !in s[..i]
  {
    if s[0] == c then 0
    else
      var j := IndexOf(s[1..], c);
      assert s[..j + 1] == [s[0]] + s[1..][..j];
      j + 1
  }

  /** `s.split(sep)`: the maximal separator-free pieces between the separators. */
  function Split(s: string, sep: char): (parts: seq<string>)
    ensures |parts| >= 1
    ensures forall k :: 0 <= k < |parts| ==> sep !in parts[k]
    decreases |s|
  {
    if sep !in s then [s]
    else
      var i := IndexOf(s, sep);
      [s[..i]] + Split(s[i + 1..], sep)
  }

  /** `parts.join(sep)`, the inverse of Split. */
  function Join(parts: seq<string>, sep: char): string
    requires |parts| >= 1
  {
    if |parts| == 1 then parts[0] else parts[0] + [sep] + Join(parts[1..], sep)
  }

  /** Joining the pieces of a split gives the string back. */
  lemma {:induction false} JoinSplit(s: string, sep: char)
    ensures Join(Split(s, sep), sep) == s
    decreases |s|
  {
    if sep in s {
      var i := IndexOf(s, sep);
      var tail := Split(s[i + 1..], sep);
      var parts := [s[..i]] + tail;
      assert Split(s, sep) == parts;
      assert parts[1..] == tail;
      assert Join(parts, sep) == s[..i] + [sep] + Join(tail, sep);
      JoinSplit(s[i + 1..], sep);
      assert s == s[..i] + [sep] + s[i + 1..];
    }
  }

  /** Splitting a join of separator-free pieces gives the pieces back. */
  lemma {:induction false} SplitJoin(parts: seq<string>, sep: char)
    requires |parts| >= 1
    requires forall k :: 0 <= k < |parts| ==> sep !in parts[k]
    ensures Split(Join(parts, sep), sep) == parts
    decreases |parts|
  {
    if |parts| > 1 {
      var rest := Join(parts[1..], sep);
      assert Join(parts, sep) == parts[0] + [sep] + rest;
      SplitAtFirst(parts[0], rest, sep);
      SplitJoin(parts[1..], sep);
    }
  }

  /** Splitting `a`, the separator and `b`, where `a` has no separator, gives `a`
      followed by the pieces of `b`. */
  lemma SplitAtFirst(a: string, b: string, sep: char)
    requires sep !in a
    ensures Split(a + [sep] + b, sep) == [a] + Split(b, sep)
  {
    var s := a + [sep] + b;
    assert s[|a|] == sep;
    var i := IndexOf(s, sep);
    assert s[..|a|] == a;
    assert i == |a|;
    assert s[i + 1..] == b;
  }

  /** `authHeader && authHeader.split(' ')[1]`, read for truthiness: the second
      space-separated piece of the header, when the header is given and that piece
      exists and is non-empty. */
  function BearerToken(header: Option<string>): (r: Option<string>)
    ensures r.Some? ==> r.value != "" && ' ' !in r.value
    ensures r.Some? ==> header.Some? && exists scheme, rest :: Carries(header.value, scheme, r.value, rest)
    ensures forall scheme, token, rest ::
      (header.Some? && token != "" && ' ' !in token && Carries(header.value, scheme, token, rest)) ==> r == Some(token)
  {
    if header.None? then None
    else
      SplitCarriedAll(header.value);
      if header.value == "" then None
      else
        var parts := Split(header.value, ' ');
        if |parts| < 2 || parts[1] == "" then None
        else
          JoinSplit(header.value, ' ');
          var rest := if |parts| == 2 then "" else " " + Join(parts[2..], ' ');
          JoinTail(parts, ' ');
          assert Carries(header.value, parts[0], parts[1], rest);
          Some(parts[1])
  }

  /** `h` is a space-free scheme, one space, the token, and then nothing or a
      further space-led remainder. */
  predicate Carries(h: string, scheme: string, token: string, rest: string) {
    h == scheme + " " + token + rest && ' ' !in scheme && (rest == [] || rest[0] == ' ')
  }

  /** Unfolding a join of at least two pieces twice. */
  lemma JoinTail(parts: seq<string>, sep: char)
    requires |parts| >= 2
    ensures Join(parts, sep) == parts[0] + [sep] + parts[1] + (if |parts| == 2 then "" else [sep] + Join(parts[2..], sep))
  {
    assert parts[1..][1..] == parts[2..];
  }

  /** A header made of a space-free scheme, a space, a non-empty space-free token and
      a remainder that is empty or starts with a space splits with the token second. */
  lemma SplitCarried(h: string, scheme: string, token: string, rest: string)
    requires token != "" && ' ' !in token && Carries(h, scheme, token, rest)
    ensures |Split(h, ' ')| >= 2 && Split(h, ' ')[1] == token
  {
    if rest == [] {
      SplitJoin([scheme, token], ' ');
      assert Join([scheme, token], ' ') == h;
    } else {
      var tail := rest[1..];
      JoinSplit(tail, ' ');
      var parts := [scheme, token] + Split(tail, ' ');
      JoinTail(parts, ' ');
      assert parts[2..] == Split(tail, ' ');
      assert rest == " " + tail;
      assert Join(parts, ' ') == h;
      SplitJoin(parts, ' ');
    }
  }

  /** SplitCarried for every way of reading `h`. */
  lemma SplitCarriedAll(h: string)
    ensures forall scheme, token, rest ::
      (token != "" && ' ' !in token && Carries(h, scheme, token, rest)) ==> |Split(h, ' ')| >= 2 && Split(h, ' ')[1] == token
  {
    forall scheme, token, rest | token != "" && ' ' !in token && Carries(h, scheme, token, rest)
      ensures |Split(h, ' ')| >= 2 && Split(h, ' ')[1] == token
    {
      SplitCarried(h, scheme, token, rest);
    }
  }

  /** A header `Bearer <token>` carries that token, whenever the token is non-empty
      and has no spaces (a JSON Web Token never has). */
  lemma BearerHeaderCarriesToken(token: string)
    requires token != "" && ' ' !in token
    ensures BearerToken(Some("Bearer " + token)) == Some(token)
  {
    SplitJoin(["Bearer", token], ' ');
    assert Join(["Bearer", token], ' ') == "Bearer " + token;
  }

  datatype TokenOutcome =
    | NoToken              // 401: no token supplied
    | BadToken             // 403: the token does not verify
    | Verified(user: Principal)

  /** authenticateToken. */
  function AuthenticateToken(header: Option<string>, verify: string -> Option<Principal>): (r: TokenOutcome)
    ensures r.NoToken? <==> BearerToken(header).None?
    ensures r.BadToken? <==> BearerToken(header).Some? && verify(BearerToken(header).value).None?
    ensures r.Verified? ==> Some(r.user) == verify(BearerToken(header).value)
  {
    match BearerToken(header)
    case None => NoToken
    case Some(token) =>
      match verify(token)
      case None => BadToken
      case Some(user) => Verified(user)
  }

  datatype AdminOutcome =
    | Unauthenticated      // 401: no authenticated user
    | Forbidden            // 403: access level not allowed
    | Proceed

  /** requireAdmin: no principal, a non-admin principal and an admin principal have
      three different outcomes. */
  function RequireAdmin(user: Option<Principal>): (r: AdminOutcome)
    ensures r == Unauthenticated <==> user.None?
    ensures r == Forbidden <==> user.Some? && user.value.accessLevel != "admin"
    ensures r == Proceed <==> user.Some? && user.value.accessLevel == "admin"
  {
    if user.None? then Unauthenticated
    else if user.value.accessLevel != "admin" then Forbidden
    else Proceed
  }

  /** `getMembers().find(member => member.email === email)`. */
  function MemberWithEmail(s: Store, email: string): (r: Option<Row<Member>>)
    ensures r.None? <==> forall k :: 0 <= k < |s.members.rows| ==> s.members.rows[k].fields.email != email
    ensures r.Some? ==> exists i :: (0 <= i < |s.members.rows| && r.value == s.members.rows[i] &&
      r.value.fields.email == email && forall k :: 0 <= k < i ==> s.members.rows[k].fields.email != email)
  {
    var i := FirstWhere(s.members.rows, (m: Row<Member>) => m.fields.email == email);
    if i == -1 then None else Some(s.members.rows[i])
  }

  /** authenticateUser: the first member with exactly that email, provided the
      password matches its stored hash; null otherwise. */
  function AuthenticateUser(s: Store, email: string, password: string, matches: (string, string) -> bool): (r: Option<Row<Member>>)
    ensures r.None? <==> MemberWithEmail(s, email).None? || !matches(password, MemberWithEmail(s, email).value.fields.password)
    ensures r.Some? ==> r == MemberWithEmail(s, email) && r.value.fields.email == email
    ensures r.Some? ==> matches(password, r.value.fields.password)
  {
    match MemberWithEmail(s, email)
    case None => None
    case Some(m) => if matches(password, m.fields.password) then Some(m) else None
  }
}
