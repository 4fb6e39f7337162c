/**
 * `authenticateAdmin`. Unlike the user middleware it strips the first "Bearer " wherever it
 * occurs instead of checking the prefix, and its catch block translates only the token
 * library's two error names: its own replies (401 and 403) pass through unchanged, and any
 * other error is rethrown.
 */
module AdminAuthMiddleware {
  import opened Wrappers
  import opened Envelope
  import opened Text
  import opened Table
  import opened Principals
  import opened MongooseError
  import opened ErrorMiddleware
  import opened AuthMiddleware

  /** `req.header("Authorization")?.replace("Bearer ", "")`. */
  function AdminToken(header: Option<string>): (token: Option<string>)
    ensures token.None? <==> header.None?
  {
    match header
    case None => None
    case Some(h) => Some(RemoveFirst(h, BearerPrefix))
  }

  /** A header without "Bearer " is used as the token unchanged; "Bearer " + t yields t. */
  lemma AdminTokenForms(h: string, t: string)
    ensures !Contains(h, BearerPrefix) ==> AdminToken(Some(h)) == Some(h)
    ensures AdminToken(Some(BearerPrefix + t)) == Some(t)
  {
    if !Contains(h, BearerPrefix) {
      RemoveFirstAbsent(h, BearerPrefix);
    }
    RemoveFirstPrefix(BearerPrefix, t);
  }

  /** The catch block: the token library's errors become replies; everything else is rethrown. */
  function CatchAdminError(t: Thrown<()>): (r: Thrown<()>)
    ensures t.ApiThrown? ==> r == t
    ensures t.Raw? && t.error.name == "TokenExpiredError" ==> r == ApiThrown(Fail(401, "Token expired"))
    ensures t.Raw? && t.error.name == "JsonWebTokenError" ==> r == ApiThrown(Fail(401, "Invalid token"))
    ensures t.Raw? && t.error.name != "TokenExpiredError" && t.error.name != "JsonWebTokenError" ==> r == t
  {
    match t
    case ApiThrown(_) => t
    case Raw(e) =>
      if e.name == "TokenExpiredError" then ApiThrown(Fail(401, "Token expired"))
      else if e.name == "JsonWebTokenError" then ApiThrown(Fail(401, "Invalid token"))
      else t
  }

  /** The try block: the admin found for the header, or what the block throws. */
  function TryAdmin(header: Option<string>, verify: string -> Verification, admins: seq<Row<Admin>>): (r: Result<Row<Admin>, Thrown<()>>)
    ensures r.Ok? ==> r.value in admins && r.value.rec.status == "active"
  {
    var token := AdminToken(header);
    if !Present(token) then Err(ApiThrown(Fail(401, TokenRequired)))
    else match verify(token.value)
      case Threw(name) => Err(Raw(Named(name)))
      case Decoded(uid) =>
        if uid.None? then Err(ApiThrown(Fail(401, "Invalid token")))
        else match Get(admins, uid.value)
          case None => Err(ApiThrown(Fail(401, "Admin not found")))
          case Some(admin) =>
            if admin.rec.status != "active" then Err(ApiThrown(Fail(403, "Admin account is inactive")))
            else Ok(admin)
  }

  /** `authenticateAdmin` as a decision: the admin to attach, or what it throws. */
  function AuthenticateAdmin(header: Option<string>, verify: string -> Verification, admins: seq<Row<Admin>>): (r: Result<Row<Admin>, Thrown<()>>)
    ensures !Present(AdminToken(header)) ==> r == Err(ApiThrown(Fail(401, TokenRequired)))
    ensures r.Ok? <==>
              Present(AdminToken(header)) &&
              (var d := verify(AdminToken(header).value);
               d.Decoded? && d.userId.Some? && HasId(admins, d.userId.value) &&
               Get(admins, d.userId.value).value.rec.status == "active")
    ensures r.Ok? ==> r.value in admins && r.value.rec.status == "active"
    ensures Present(AdminToken(header)) && verify(AdminToken(header).value) == Threw("TokenExpiredError") ==>
              r == Err(ApiThrown(Fail(401, "Token expired")))
    ensures Present(AdminToken(header)) && verify(AdminToken(header).value) == Threw("JsonWebTokenError") ==>
              r == Err(ApiThrown(Fail(401, "Invalid token")))
    ensures Present(AdminToken(header)) && verify(AdminToken(header).value) == Decoded(None) ==>
              r == Err(ApiThrown(Fail(401, "Invalid token")))
  {
    match TryAdmin(header, verify, admins)
    case Ok(admin) => Ok(admin)
    case Err(t) => Err(CatchAdminError(t))
  }

  /** An unknown admin and an inactive admin keep their own status codes through the catch block. */
  lemma AdminOwnErrorsPassThrough(header: Option<string>, verify: string -> Verification, admins: seq<Row<Admin>>, id: Id)
    requires Present(AdminToken(header)) && verify(AdminToken(header).value) == Decoded(Some(id))
    ensures !HasId(admins, id) ==> AuthenticateAdmin(header, verify, admins) == Err(ApiThrown(Fail(401, "Admin not found")))
    ensures HasId(admins, id) && Get(admins, id).value.rec.status != "active" ==>
              AuthenticateAdmin(header, verify, admins) == Err(ApiThrown(Fail(403, "Admin account is inactive")))
  {
  }

  /** Any other token failure is rethrown unchanged, as the verifier raised it. */
  lemma OtherTokenErrorsRethrown(header: Option<string>, verify: string -> Verification, admins: seq<Row<Admin>>, name: string)
    requires Present(AdminToken(header)) && verify(AdminToken(header).value) == Threw(name)
    requires name != "TokenExpiredError" && name != "JsonWebTokenError"
    ensures AuthenticateAdmin(header, verify, admins) == Err(Raw(Named(name)))
  {
  }

  /** `authenticateAdmin` on a request: attaches the admin and calls `next`, or throws. */
  method AuthenticateAdminRequest(req: Request, header: Option<string>, verify: string -> Verification, admins: seq<Row<Admin>>)
    returns (thrown: Option<Thrown<()>>)
    modifies req
    ensures req.user == old(req.user)
    ensures AuthenticateAdmin(header, verify, admins).Ok? ==>
              thrown.None? && req.admin == Some(AuthenticateAdmin(header, verify, admins).value) && req.nextCalled
    ensures AuthenticateAdmin(header, verify, admins).Err? ==>
              thrown == Some(AuthenticateAdmin(header, verify, admins).error) &&
              req.admin == old(req.admin) && req.nextCalled == old(req.nextCalled)
  {
    match AuthenticateAdmin(header, verify, admins)
    case Ok(admin) =>
      req.admin := Some(admin);
      req.nextCalled := true;
      thrown := None;
    case Err(t) =>
      thrown := Some(t);
  }
}
