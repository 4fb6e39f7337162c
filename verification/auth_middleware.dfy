/**
 * `authenticateUser` and `adminOnly`. The user middleware checks the header's form outside its
 * try block; every failure inside the try block (a token that does not verify, a user that no
 * longer exists, an inactive user) is replaced by one 401 in the catch block.
 */
module AuthMiddleware {
  import opened Wrappers
  import opened Envelope
  import opened Text
  import opened Table
  import opened Principals
  import opened MongooseError
  import opened ErrorMiddleware

  /** What a token verifier does with a token: return its payload, or throw an error by name. */
  datatype Verification = Decoded(userId: Option<Id>) | Threw(errorName: string)

  const BearerPrefix := "Bearer "
  const TokenRequired := "Authorization token required"
  const InvalidOrExpired := "Invalid or expired token"

  /** A header of the form "Bearer " + rest splits on spaces into "Bearer" and the pieces of rest. */
  lemma BearerSplit(header: string)
    requires StartsWith(header, BearerPrefix)
    ensures |Split(header, ' ')| >= 2
    ensures Split(header, ' ')[1] == TakeUntil(header[|BearerPrefix|..], ' ')
  {
    var rest := header[|BearerPrefix|..];
    assert header == "Bearer" + [' '] + rest;
    SplitWord("Bearer", ' ', rest);
    SplitFirst(rest, ' ');
  }

  /** `authHeader.split(" ")[1]`: the text after "Bearer " up to the next space. */
  function BearerToken(header: string): (token: string)
    requires StartsWith(header, BearerPrefix)
    ensures token == TakeUntil(header[|BearerPrefix|..], ' ')
    ensures ' ' !in token
  {
    BearerSplit(header);
    Split(header, ' ')[1]
  }

  /** The header passes the form check that runs before the try block. */
  predicate WellFormedHeader(header: Option<string>) {
    Present(header) && StartsWith(header.value, BearerPrefix)
  }

  /** The try block: the user found for the token, or the reply thrown inside the block. */
  function TryUserToken(token: string, verify: string -> Verification, users: seq<Row<User>>): (r: Result<Row<User>, Thrown<()>>)
    ensures r.Ok? ==> r.value in users && r.value.rec.isActive
    ensures r.Ok? ==> verify(token) == Decoded(Some(r.value.id))
    ensures verify(token).Threw? ==> r == Err(Raw(Named(verify(token).errorName)))
  {
    match verify(token)
    case Threw(name) => Err(Raw(Named(name)))
    case Decoded(uid) =>
      var found := if uid.Some? then Get(users, uid.value) else None;
      if found.None? then Err(ApiThrown(Fail(401, "User no longer exists")))
      else if !found.value.rec.isActive then Err(ApiThrown(Fail(403, "Account is not active")))
      else Ok(found.value)
  }

  /** `authenticateUser` as a decision: the user to attach, or the reply it throws. */
  function AuthenticateUser(header: Option<string>, verify: string -> Verification, users: seq<Row<User>>): (r: Result<Row<User>, Reply<()>>)
    ensures !WellFormedHeader(header) ==> r == Err(Fail(401, TokenRequired))
    ensures WellFormedHeader(header) && r.Err? ==> r.error == Fail(401, InvalidOrExpired)
    ensures r.Err? ==> r.error.statusCode == 401
    ensures r.Ok? <==>
              WellFormedHeader(header) &&
              (var d := verify(BearerToken(header.value));
               d.Decoded? && d.userId.Some? && HasId(users, d.userId.value) &&
               Get(users, d.userId.value).value.rec.isActive)
    ensures r.Ok? ==> r.value in users && r.value.rec.isActive
  {
    if !WellFormedHeader(header) then Err(Fail(401, TokenRequired))
    else match TryUserToken(BearerToken(header.value), verify, users)
      case Ok(user) => Ok(user)
      case Err(_) => Err(Fail(401, InvalidOrExpired))
  }

  /** The 403 raised for an inactive account inside the try block is turned into a 401. */
  lemma InactiveUserGets401(header: Option<string>, verify: string -> Verification, users: seq<Row<User>>, id: Id)
    requires WellFormedHeader(header)
    requires verify(BearerToken(header.value)) == Decoded(Some(id))
    requires HasId(users, id) && !Get(users, id).value.rec.isActive
    ensures TryUserToken(BearerToken(header.value), verify, users) == Err(ApiThrown(Fail(403, "Account is not active")))
    ensures AuthenticateUser(header, verify, users) == Err(Fail(401, InvalidOrExpired))
  {
  }

  /** `authenticateUser` on a request: attaches the user and calls `next`, or throws. */
  method Authenticate(req: Request, header: Option<string>, verify: string -> Verification, users: seq<Row<User>>)
    returns (thrown: Option<Thrown<()>>)
    modifies req
    ensures req.admin == old(req.admin)
    ensures AuthenticateUser(header, verify, users).Ok? ==>
              thrown.None? && req.user == Some(AuthenticateUser(header, verify, users).value) && req.nextCalled
    ensures AuthenticateUser(header, verify, users).Err? ==>
              thrown == Some(ApiThrown(AuthenticateUser(header, verify, users).error)) &&
              req.user == old(req.user) && req.nextCalled == old(req.nextCalled)
  {
    match AuthenticateUser(header, verify, users)
    case Ok(user) =>
      req.user := Some(user);
      req.nextCalled := true;
      thrown := None;
    case Err(reply) =>
      thrown := Some(ApiThrown(reply));
  }

  /** `adminOnly`'s role test: only the exact role "admin" passes. */
  function AdminOnly(role: Option<string>): (r: Option<Reply<()>>)
    ensures r.None? <==> role == Some("admin")
    ensures r.Some? ==> r.value == Fail(403, "Admin access required")
  {
    if !Present(role) || role.value != "admin" then Some(Fail(403, "Admin access required")) else None
  }

  /**
   * `adminOnly` on a request. Without an attached user, reading `req.user.role` throws a
   * `TypeError`.
   */
  method RequireAdmin(req: Request) returns (thrown: Option<Thrown<()>>)
    modifies req
    ensures req.user == old(req.user) && req.admin == old(req.admin)
    ensures old(req.user).None? ==> thrown == Some(Raw(Named("TypeError"))) && req.nextCalled == old(req.nextCalled)
    ensures old(req.user).Some? && AdminOnly(old(req.user).value.rec.role).Some? ==>
              thrown == Some(ApiThrown(AdminOnly(old(req.user).value.rec.role).value)) &&
              req.nextCalled == old(req.nextCalled)
    ensures thrown.None? <==> old(req.user).Some? && old(req.user).value.rec.role == Some("admin")
    ensures thrown.None? ==> req.nextCalled
  {
    if req.user.None? {
      thrown := Some(Raw(Named("TypeError")));
    } else {
      match AdminOnly(req.user.value.rec.role)
      case Some(reply) =>
        thrown := Some(ApiThrown(reply));
      case None =>
        req.nextCalled := true;
        thrown := None;
    }
  }
}
