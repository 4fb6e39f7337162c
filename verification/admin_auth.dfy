/**
 * The admin account handlers. They mirror the user ones with these differences: registering
 * issues no OTP and always sets the role "admin"; login refuses any status other than
 * "active" (after the password check); verifying an OTP only spends it; resetting the password
 * leaves any outstanding OTP in place.
 */
module AdminAuth {
  import opened Wrappers
  import opened Envelope
  import opened Text
  import opened Table
  import opened Principals
  import opened MongooseError
  import opened AuthMiddleware
  import opened UserAuth

  datatype AdminRegisterBody = AdminRegisterBody(name: Option<string>, email: Option<string>, password: Option<string>)

  /** The status an admin document gets when none is given. */
  const DefaultAdminStatus := "active"

  function AdminWithOtp(a: Admin, otp: Otp): Admin {
    a.(otp := Val(otp.code), otpExpiry := Val(otp.expiresAt))
  }

  // ---------------------------------------------------------------------------
  // registerAdmin

  function RegisterAdminCheck(admins: seq<Row<Admin>>, body: AdminRegisterBody): (r: Result<Admin, Reply<AccountData>>)
    ensures !(Present(body.name) && Present(body.email) && Present(body.password)) ==>
              r == Err(Fail(400, "Name, email and password are required"))
    ensures Present(body.name) && Present(body.email) && Present(body.password) ==>
              (r.Err? <==> AdminByEmail(admins, body.email.value).Some?) &&
              (r.Err? ==> r.error == Fail(409, "Admin already exists with this email"))
    ensures r.Ok? ==> r.value.role == "admin" && r.value.email == body.email.value &&
                      r.value.name == body.name.value && r.value.password == body.password.value
    ensures r.Ok? ==> r.value.otp == Unset && r.value.otpExpiry == Unset && r.value.status == DefaultAdminStatus
  {
    if !(Present(body.name) && Present(body.email) && Present(body.password)) then
      Err(Fail(400, "Name, email and password are required"))
    else if AdminByEmail(admins, body.email.value).Some? then
      Err(Fail(409, "Admin already exists with this email"))
    else
      Ok(Admin(body.name.value, body.email.value, body.password.value, "admin", DefaultAdminStatus, Unset, Unset))
  }

  lemma RegisterAdminKeepsEmailsDistinct(admins: seq<Row<Admin>>, body: AdminRegisterBody, id: Id)
    requires AdminEmailsDistinct(admins) && RegisterAdminCheck(admins, body).Ok?
    ensures AdminEmailsDistinct(admins + [Row(id, RegisterAdminCheck(admins, body).value)])
  {
    var after := admins + [Row(id, RegisterAdminCheck(admins, body).value)];
    forall i, j | 0 <= i < j < |after|
      ensures after[i].rec.email != after[j].rec.email
    {
      if j == |admins| {
        assert after[i] == admins[i];
      } else {
        assert after[i] == admins[i] && after[j] == admins[j];
      }
    }
  }

  method RegisterAdmin(admins: Collection<Admin>, body: AdminRegisterBody) returns (reply: Reply<AccountData>)
    requires admins.Valid()
    modifies admins
    ensures admins.Valid()
    ensures RegisterAdminCheck(old(admins.rows), body).Err? ==>
              reply == RegisterAdminCheck(old(admins.rows), body).error && admins.rows == old(admins.rows)
    ensures RegisterAdminCheck(old(admins.rows), body).Ok? ==>
              Appended(old(admins.rows), admins.rows, RegisterAdminCheck(old(admins.rows), body).value) &&
              reply == Send(201, Session(Last(admins.rows).id), "Admin registered successfully")
  {
    match RegisterAdminCheck(admins.rows, body)
    case Err(e) =>
      reply := e;
    case Ok(admin) =>
      var row := admins.Insert(admin);
      reply := Send(201, Session(row.id), "Admin registered successfully");
  }

  // ---------------------------------------------------------------------------
  // loginAdmin

  function LoginAdmin(admins: seq<Row<Admin>>, body: LoginBody, matches: (string, string) -> bool): (r: Reply<AccountData>)
    ensures !(Present(body.email) && Present(body.password)) ==> r == Fail(400, "Email and password are required")
    ensures Present(body.email) && Present(body.password) &&
            (AdminByEmail(admins, body.email.value).None? ||
             !matches(admins[AdminByEmail(admins, body.email.value).value].rec.password, body.password.value)) ==>
              r == Fail(401, BadCredentials)
    ensures r.statusCode == 403 <==>
              Present(body.email) && Present(body.password) && AdminByEmail(admins, body.email.value).Some? &&
              (var a := admins[AdminByEmail(admins, body.email.value).value].rec;
               matches(a.password, body.password.value) && a.status != "active")
    ensures r.statusCode == 200 <==>
              Present(body.email) && Present(body.password) && AdminByEmail(admins, body.email.value).Some? &&
              (var a := admins[AdminByEmail(admins, body.email.value).value].rec;
               matches(a.password, body.password.value) && a.status == "active")
    ensures r.statusCode == 200 ==> r.data == Some(Session(admins[AdminByEmail(admins, body.email.value).value].id))
  {
    if !(Present(body.email) && Present(body.password)) then Fail(400, "Email and password are required")
    else match AdminByEmail(admins, body.email.value)
      case None => Fail(401, BadCredentials)
      case Some(i) =>
        if !matches(admins[i].rec.password, body.password.value) then Fail(401, BadCredentials)
        else if admins[i].rec.status != "active" then Fail(403, "Admin account is inactive")
        else Send(200, Session(admins[i].id), "Admin login successful")
  }

  /** A freshly registered admin logs in with the password it registered with. */
  lemma RegisterAdminThenLogin(admins: seq<Row<Admin>>, body: AdminRegisterBody, id: Id, matches: (string, string) -> bool)
    requires RegisterAdminCheck(admins, body).Ok?
    requires matches(body.password.value, body.password.value)
    ensures LoginAdmin(admins + [Row(id, RegisterAdminCheck(admins, body).value)], LoginBody(body.email, body.password), matches)
              == Send(200, Session(id), "Admin login successful")
  {
    FirstWhereAppendNew(admins, Row(id, RegisterAdminCheck(admins, body).value), AdminEmailIs(body.email.value));
  }

  // ---------------------------------------------------------------------------
  // forgotAdminPassword and resendAdminOtp

  function AdminReissueCheck(admins: seq<Row<Admin>>, email: Option<string>): (r: Result<nat, Reply<AccountData>>)
    ensures !Present(email) ==> r == Err(Fail(400, "Email is required"))
    ensures Present(email) && AdminByEmail(admins, email.value).None? ==> r == Err(Fail(404, "Admin not found"))
    ensures r.Ok? <==> Present(email) && AdminByEmail(admins, email.value).Some?
    ensures r.Ok? ==> r.value == AdminByEmail(admins, email.value).value
  {
    if !Present(email) then Err(Fail(400, "Email is required"))
    else match AdminByEmail(admins, email.value)
      case None => Err(Fail(404, "Admin not found"))
      case Some(i) => Ok(i)
  }

  /** Saves a new OTP on the admin for `email`, then reports `message` or the send failure. */
  method AdminReissueOtp(admins: Collection<Admin>, email: Option<string>, otp: Otp, mailSent: bool, message: string)
    returns (reply: Reply<AccountData>)
    requires admins.Valid()
    modifies admins
    ensures admins.Valid()
    ensures AdminReissueCheck(old(admins.rows), email).Err? ==>
              reply == AdminReissueCheck(old(admins.rows), email).error && admins.rows == old(admins.rows)
    ensures AdminReissueCheck(old(admins.rows), email).Ok? ==>
              var i := AdminReissueCheck(old(admins.rows), email).value;
              ReplacedAt(old(admins.rows), admins.rows, i, AdminWithOtp(old(admins.rows)[i].rec, otp)) &&
              reply == (if mailSent then Send(200, EmailOnly(email.value), message) else Fail(500, InternalError))
  {
    match AdminReissueCheck(admins.rows, email)
    case Err(e) =>
      reply := e;
    case Ok(i) =>
      admins.Replace(i, AdminWithOtp(admins.rows[i].rec, otp));
      if mailSent {
        reply := Send(200, EmailOnly(email.value), message);
      } else {
        reply := Fail(500, InternalError);
      }
  }

  method ForgotAdminPassword(admins: Collection<Admin>, email: Option<string>, otp: Otp, mailSent: bool)
    returns (reply: Reply<AccountData>)
    requires admins.Valid()
    modifies admins
    ensures admins.Valid()
    ensures AdminReissueCheck(old(admins.rows), email).Err? ==>
              reply == AdminReissueCheck(old(admins.rows), email).error && admins.rows == old(admins.rows)
    ensures AdminReissueCheck(old(admins.rows), email).Ok? ==>
              var i := AdminReissueCheck(old(admins.rows), email).value;
              ReplacedAt(old(admins.rows), admins.rows, i, AdminWithOtp(old(admins.rows)[i].rec, otp)) &&
              reply == (if mailSent then Send(200, EmailOnly(email.value), "OTP sent for password reset") else Fail(500, InternalError))
  {
    reply := AdminReissueOtp(admins, email, otp, mailSent, "OTP sent for password reset");
  }

  method ResendAdminOtp(admins: Collection<Admin>, email: Option<string>, otp: Otp, mailSent: bool)
    returns (reply: Reply<AccountData>)
    requires admins.Valid()
    modifies admins
    ensures admins.Valid()
    ensures AdminReissueCheck(old(admins.rows), email).Err? ==>
              reply == AdminReissueCheck(old(admins.rows), email).error && admins.rows == old(admins.rows)
    ensures AdminReissueCheck(old(admins.rows), email).Ok? ==>
              var i := AdminReissueCheck(old(admins.rows), email).value;
              ReplacedAt(old(admins.rows), admins.rows, i, AdminWithOtp(old(admins.rows)[i].rec, otp)) &&
              reply == (if mailSent then Send(200, EmailOnly(email.value), "OTP resent successfully") else Fail(500, InternalError))
  {
    reply := AdminReissueOtp(admins, email, otp, mailSent, "OTP resent successfully");
  }

  // ---------------------------------------------------------------------------
  // verifyAdminOtp

  function VerifyAdminOtpCheck(admins: seq<Row<Admin>>, body: OtpBody, now: int): (r: Result<nat, Reply<AccountData>>)
    ensures !(Present(body.email) && Present(body.otp)) ==> r == Err(Fail(400, "Email and OTP are required"))
    ensures Present(body.email) && Present(body.otp) && AdminByEmail(admins, body.email.value).None? ==>
              r == Err(Fail(404, "Admin not found"))
    ensures Present(body.email) && Present(body.otp) && AdminByEmail(admins, body.email.value).Some? &&
            OtpExpired(admins[AdminByEmail(admins, body.email.value).value].rec.otpExpiry, now) ==>
              r == Err(Fail(400, "OTP has expired"))
    ensures r.Ok? <==>
              Present(body.email) && Present(body.otp) && AdminByEmail(admins, body.email.value).Some? &&
              (var a := admins[AdminByEmail(admins, body.email.value).value].rec;
               !OtpExpired(a.otpExpiry, now) && a.otp == Val(body.otp.value))
    ensures r.Ok? ==> r.value == AdminByEmail(admins, body.email.value).value
  {
    if !(Present(body.email) && Present(body.otp)) then Err(Fail(400, "Email and OTP are required"))
    else match AdminByEmail(admins, body.email.value)
      case None => Err(Fail(404, "Admin not found"))
      case Some(i) =>
        if OtpExpired(admins[i].rec.otpExpiry, now) then Err(Fail(400, "OTP has expired"))
        else if OtpMismatch(admins[i].rec.otp, body.otp.value) then Err(Fail(400, "Invalid OTP"))
        else Ok(i)
  }

  /** Spends the OTP; nothing else about the admin changes. */
  function OtpSpent(a: Admin): Admin {
    a.(otp := Null, otpExpiry := Null)
  }

  method VerifyAdminOtp(admins: Collection<Admin>, body: OtpBody, now: int) returns (reply: Reply<AccountData>)
    requires admins.Valid()
    modifies admins
    ensures admins.Valid()
    ensures VerifyAdminOtpCheck(old(admins.rows), body, now).Err? ==>
              reply == VerifyAdminOtpCheck(old(admins.rows), body, now).error && admins.rows == old(admins.rows)
    ensures VerifyAdminOtpCheck(old(admins.rows), body, now).Ok? ==>
              var i := VerifyAdminOtpCheck(old(admins.rows), body, now).value;
              ReplacedAt(old(admins.rows), admins.rows, i, OtpSpent(old(admins.rows)[i].rec)) &&
              reply == Send(200, EmailOnly(body.email.value), "OTP verified successfully")
  {
    match VerifyAdminOtpCheck(admins.rows, body, now)
    case Err(e) =>
      reply := e;
    case Ok(i) =>
      admins.Replace(i, OtpSpent(admins.rows[i].rec));
      reply := Send(200, EmailOnly(body.email.value), "OTP verified successfully");
  }

  /**
   * An admin that never requested an OTP has no expiry (undefined is never smaller than the
   * clock), so any code it sends is refused as "Invalid OTP" rather than as expired.
   */
  lemma UnrequestedAdminOtpIsInvalid(admins: seq<Row<Admin>>, body: OtpBody, now: int)
    requires Present(body.email) && Present(body.otp) && AdminByEmail(admins, body.email.value).Some?
    requires admins[AdminByEmail(admins, body.email.value).value].rec.otp == Unset
    requires admins[AdminByEmail(admins, body.email.value).value].rec.otpExpiry == Unset
    ensures VerifyAdminOtpCheck(admins, body, now) == Err(Fail(400, "Invalid OTP"))
  {
  }

  // ---------------------------------------------------------------------------
  // resetAdminPassword

  function ResetAdminCheck(admins: seq<Row<Admin>>, body: ResetBody): (r: Result<nat, Reply<AccountData>>)
    ensures !(Present(body.email) && Present(body.newPassword)) ==>
              r == Err(Fail(400, "Email and new password are required"))
    ensures Present(body.email) && Present(body.newPassword) && AdminByEmail(admins, body.email.value).None? ==>
              r == Err(Fail(404, "Admin not found"))
    ensures r.Ok? <==> Present(body.email) && Present(body.newPassword) && AdminByEmail(admins, body.email.value).Some?
    ensures r.Ok? ==> r.value == AdminByEmail(admins, body.email.value).value
  {
    if !(Present(body.email) && Present(body.newPassword)) then Err(Fail(400, "Email and new password are required"))
    else match AdminByEmail(admins, body.email.value)
      case None => Err(Fail(404, "Admin not found"))
      case Some(i) => Ok(i)
  }

  method ResetAdminPassword(admins: Collection<Admin>, body: ResetBody) returns (reply: Reply<AccountData>)
    requires admins.Valid()
    modifies admins
    ensures admins.Valid()
    ensures ResetAdminCheck(old(admins.rows), body).Err? ==>
              reply == ResetAdminCheck(old(admins.rows), body).error && admins.rows == old(admins.rows)
    ensures ResetAdminCheck(old(admins.rows), body).Ok? ==>
              var i := ResetAdminCheck(old(admins.rows), body).value;
              ReplacedAt(old(admins.rows), admins.rows, i, old(admins.rows)[i].rec.(password := body.newPassword.value)) &&
              reply == Send(200, EmailOnly(body.email.value), "Password reset successfully")
  {
    match ResetAdminCheck(admins.rows, body)
    case Err(e) =>
      reply := e;
    case Ok(i) =>
      admins.Replace(i, admins.rows[i].rec.(password := body.newPassword.value));
      reply := Send(200, EmailOnly(body.email.value), "Password reset successfully");
  }

  /**
   * Resetting the password does not spend the OTP: a code that would have verified before the
   * reset still verifies after it.
   */
  lemma ResetLeavesOtpUsable(admins: seq<Row<Admin>>, reset: ResetBody, otpBody: OtpBody, now: int)
    requires ResetAdminCheck(admins, reset).Ok?
    requires otpBody.email == reset.email
    requires VerifyAdminOtpCheck(admins, otpBody, now).Ok?
    ensures var i := ResetAdminCheck(admins, reset).value;
            var after := admins[i := Row(admins[i].id, admins[i].rec.(password := reset.newPassword.value))];
            VerifyAdminOtpCheck(after, otpBody, now) == Ok(i)
  {
    var i := ResetAdminCheck(admins, reset).value;
    FirstWhereReplace(admins, i, Row(admins[i].id, admins[i].rec.(password := reset.newPassword.value)), AdminEmailIs(reset.email.value));
  }

  // ---------------------------------------------------------------------------
  // refreshAdminToken, getCurrentAdmin, logoutAdmin

  function RefreshAdminToken(admins: seq<Row<Admin>>, token: Option<string>, verify: string -> Verification): (r: Reply<AccountData>)
    ensures !Present(token) ==> r == Fail(401, "Refresh token required")
    ensures Present(token) && verify(token.value) == Threw("TokenExpiredError") ==> r == Fail(401, "Refresh token expired")
    ensures Present(token) && verify(token.value) == Threw("JsonWebTokenError") ==> r == Fail(401, "Invalid refresh token")
    ensures r.statusCode == 200 <==>
              Present(token) && verify(token.value).Decoded? && verify(token.value).userId.Some? &&
              HasId(admins, verify(token.value).userId.value)
    ensures r.statusCode == 200 ==> r.data == Some(Tokens(verify(token.value).userId.value))
    ensures r.statusCode != 200 && !(Present(token) && verify(token.value).Threw?) ==> r.statusCode == 401
  {
    if !Present(token) then Fail(401, "Refresh token required")
    else match verify(token.value)
      case Threw(name) =>
        if name == "TokenExpiredError" then Fail(401, "Refresh token expired")
        else if name == "JsonWebTokenError" then Fail(401, "Invalid refresh token")
        else HandleMongoErrors(Named(name))
      case Decoded(uid) =>
        if uid.None? || Get(admins, uid.value).None? then Fail(401, "Invalid refresh token")
        else Send(200, Tokens(uid.value), "Tokens refreshed successfully")
  }

  function GetCurrentAdmin(admins: seq<Row<Admin>>, id: Id): (r: Reply<AccountData>)
    ensures r.statusCode == 200 <==> HasId(admins, id)
    ensures r.statusCode != 200 ==> r == Fail(404, "Admin not found")
    ensures r.statusCode == 200 ==> r.data == Some(Session(id))
  {
    if Get(admins, id).None? then Fail(404, "Admin not found") else Send(200, Session(id), "Admin retrieved successfully")
  }

  function LogoutAdmin(): (r: Reply<AccountData>)
    ensures r.statusCode == 200 && r.data.None?
  {
    Reply(200, None, "Admin logout successful")
  }
}
