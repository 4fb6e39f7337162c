/**
 * The user account handlers. A user registers (an OTP is issued), verifies the OTP (the
 * account becomes verified and the OTP is spent), logs in (allowed only once verified) and may
 * reset the password. Tokens, password hashing, OTP generation and the e-mail transport are
 * parameters: `matches` stands for `comparePassword`, `verify` for the refresh-token check, an
 * `Otp` for what `generateOTP` produced and `mailSent` for whether `sendOtpEmail` succeeded.
 */
module UserAuth {
  import opened Wrappers
  import opened Envelope
  import opened Text
  import opened Table
  import opened Principals
  import opened MongooseError
  import opened AuthMiddleware

  datatype RegisterBody = RegisterBody(name: Option<string>, email: Option<string>, password: Option<string>, referralId: Option<string>)
  datatype OtpBody = OtpBody(email: Option<string>, otp: Option<string>)
  datatype LoginBody = LoginBody(email: Option<string>, password: Option<string>)
  datatype ResetBody = ResetBody(email: Option<string>, newPassword: Option<string>)

  const Registered201 := "User registered successfully. OTP sent to email."
  const BadCredentials := "Invalid email or password"

  /** `generateOTP` on a user: the fresh code and its expiry are stored on the record. */
  function WithOtp(u: User, otp: Otp): User {
    u.(otp := Val(otp.code), otpExpiry := Val(otp.expiresAt))
  }

  /** A verified account whose OTP is spent. */
  function Verified(u: User): User {
    u.(isVerified := true, otp := Null, otpExpiry := Null)
  }

  // ---------------------------------------------------------------------------
  // registerUser

  function RegisterCheck(users: seq<Row<User>>, body: RegisterBody, otp: Otp): (r: Result<User, Reply<AccountData>>)
    ensures !(Present(body.name) && Present(body.email) && Present(body.password)) ==>
              r == Err(Fail(400, "All fields are required"))
    ensures Present(body.name) && Present(body.email) && Present(body.password) ==>
              (r.Err? <==> UserByEmail(users, body.email.value).Some?) &&
              (r.Err? ==> r.error == Fail(409, "User already exists with this email"))
    ensures r.Ok? ==> r.value.name == body.name.value && r.value.email == body.email.value &&
                      r.value.password == body.password.value
    ensures r.Ok? ==> r.value.otp == Val(otp.code) && r.value.otpExpiry == Val(otp.expiresAt)
    ensures r.Ok? ==> !r.value.isVerified && r.value.isActive
    ensures r.Ok? ==> r.value.referralId == (if Present(body.referralId) then body.referralId else None)
  {
    if !(Present(body.name) && Present(body.email) && Present(body.password)) then
      Err(Fail(400, "All fields are required"))
    else if UserByEmail(users, body.email.value).Some? then
      Err(Fail(409, "User already exists with this email"))
    else
      var referral := if Present(body.referralId) then body.referralId else None;
      Ok(WithOtp(User(body.name.value, body.email.value, body.password.value, referral,
                      Unset, Unset, false, true, None), otp))
  }

  /** A registration that passes its checks keeps emails distinct. */
  lemma RegisterKeepsEmailsDistinct(users: seq<Row<User>>, body: RegisterBody, otp: Otp, id: Id)
    requires UserEmailsDistinct(users) && RegisterCheck(users, body, otp).Ok?
    ensures UserEmailsDistinct(users + [Row(id, RegisterCheck(users, body, otp).value)])
  {
    var after := users + [Row(id, RegisterCheck(users, body, otp).value)];
    forall i, j | 0 <= i < j < |after|
      ensures after[i].rec.email != after[j].rec.email
    {
      if j == |users| {
        assert after[i] == users[i];
      } else {
        assert after[i] == users[i] && after[j] == users[j];
      }
    }
  }

  method RegisterUser(users: Collection<User>, body: RegisterBody, otp: Otp, mailSent: bool) returns (reply: Reply<AccountData>)
    requires users.Valid()
    modifies users
    ensures users.Valid()
    ensures RegisterCheck(old(users.rows), body, otp).Err? ==>
              reply == RegisterCheck(old(users.rows), body, otp).error && users.rows == old(users.rows)
    ensures RegisterCheck(old(users.rows), body, otp).Ok? ==>
              Appended(old(users.rows), users.rows, RegisterCheck(old(users.rows), body, otp).value) &&
              reply == (if mailSent then Send(201, Registered(Last(users.rows).id, body.email.value), Registered201)
                        else Fail(500, InternalError))
  {
    match RegisterCheck(users.rows, body, otp)
    case Err(e) =>
      reply := e;
    case Ok(user) =>
      var row := users.Insert(user);
      // The account is saved before the e-mail goes out; a failed send is still a 500.
      if mailSent {
        reply := Send(201, Registered(row.id, body.email.value), Registered201);
      } else {
        reply := Fail(500, InternalError);
      }
  }

  // ---------------------------------------------------------------------------
  // verifyOtp

  /** verifyOtp's checks: the position of the account to verify, or the error reply. */
  function VerifyOtpCheck(users: seq<Row<User>>, body: OtpBody, now: int): (r: Result<nat, Reply<AccountData>>)
    ensures !(Present(body.email) && Present(body.otp)) ==> r == Err(Fail(400, "Email and OTP are required"))
    ensures Present(body.email) && Present(body.otp) && UserByEmail(users, body.email.value).None? ==>
              r == Err(Fail(404, "User not found"))
    ensures Present(body.email) && Present(body.otp) && UserByEmail(users, body.email.value).Some? &&
            OtpExpired(users[UserByEmail(users, body.email.value).value].rec.otpExpiry, now) ==>
              r == Err(Fail(400, "OTP has expired"))
    ensures r.Ok? <==>
              Present(body.email) && Present(body.otp) && UserByEmail(users, body.email.value).Some? &&
              (var u := users[UserByEmail(users, body.email.value).value].rec;
               !OtpExpired(u.otpExpiry, now) && u.otp == Val(body.otp.value))
    ensures r.Ok? ==> r.value == UserByEmail(users, body.email.value).value
  {
    if !(Present(body.email) && Present(body.otp)) then Err(Fail(400, "Email and OTP are required"))
    else match UserByEmail(users, body.email.value)
      case None => Err(Fail(404, "User not found"))
      case Some(i) =>
        if OtpExpired(users[i].rec.otpExpiry, now) then Err(Fail(400, "OTP has expired"))
        else if OtpMismatch(users[i].rec.otp, body.otp.value) then Err(Fail(400, "Invalid OTP"))
        else Ok(i)
  }

  method VerifyOtp(users: Collection<User>, body: OtpBody, now: int) returns (reply: Reply<AccountData>)
    requires users.Valid()
    modifies users
    ensures users.Valid()
    ensures VerifyOtpCheck(old(users.rows), body, now).Err? ==>
              reply == VerifyOtpCheck(old(users.rows), body, now).error && users.rows == old(users.rows)
    ensures VerifyOtpCheck(old(users.rows), body, now).Ok? ==>
              var i := VerifyOtpCheck(old(users.rows), body, now).value;
              ReplacedAt(old(users.rows), users.rows, i, Verified(old(users.rows)[i].rec)) &&
              reply == Send(200, Session(old(users.rows)[i].id), "OTP verified successfully")
  {
    match VerifyOtpCheck(users.rows, body, now)
    case Err(e) =>
      reply := e;
    case Ok(i) =>
      var id := users.rows[i].id;
      users.Replace(i, Verified(users.rows[i].rec));
      reply := Send(200, Session(id), "OTP verified successfully");
  }

  /**
   * A verified OTP is spent: once it succeeded, any further attempt for that email at a
   * positive time is answered "OTP has expired", whatever code is sent.
   */
  lemma OtpIsSingleUse(users: seq<Row<User>>, body: OtpBody, now: int, again: string, later: int)
    requires VerifyOtpCheck(users, body, now).Ok?
    requires again != "" && later > 0
    ensures var i := VerifyOtpCheck(users, body, now).value;
            var after := users[i := Row(users[i].id, Verified(users[i].rec))];
            VerifyOtpCheck(after, OtpBody(body.email, Some(again)), later) == Err(Fail(400, "OTP has expired"))
  {
    var i := VerifyOtpCheck(users, body, now).value;
    FirstWhereReplace(users, i, Row(users[i].id, Verified(users[i].rec)), UserEmailIs(body.email.value));
  }

  // ---------------------------------------------------------------------------
  // loginUser

  function LoginUser(users: seq<Row<User>>, body: LoginBody, matches: (string, string) -> bool): (r: Reply<AccountData>)
    ensures !(Present(body.email) && Present(body.password)) ==> r == Fail(400, "Email and password are required")
    ensures Present(body.email) && Present(body.password) &&
            (UserByEmail(users, body.email.value).None? ||
             !matches(users[UserByEmail(users, body.email.value).value].rec.password, body.password.value)) ==>
              r == Fail(401, BadCredentials)
    ensures r.statusCode == 403 <==>
              Present(body.email) && Present(body.password) && UserByEmail(users, body.email.value).Some? &&
              (var u := users[UserByEmail(users, body.email.value).value].rec;
               matches(u.password, body.password.value) && !u.isVerified)
    ensures r.statusCode == 200 <==>
              Present(body.email) && Present(body.password) && UserByEmail(users, body.email.value).Some? &&
              (var u := users[UserByEmail(users, body.email.value).value].rec;
               matches(u.password, body.password.value) && u.isVerified)
    ensures r.statusCode == 200 ==> r.data == Some(Session(users[UserByEmail(users, body.email.value).value].id))
  {
    if !(Present(body.email) && Present(body.password)) then Fail(400, "Email and password are required")
    else match UserByEmail(users, body.email.value)
      case None => Fail(401, BadCredentials)
      case Some(i) =>
        if !matches(users[i].rec.password, body.password.value) then Fail(401, BadCredentials)
        else if !users[i].rec.isVerified then Fail(403, "Please verify your email first")
        else Send(200, Session(users[i].id), "Login successful")
  }

  /**
   * The account life cycle: right after registering, logging in is refused with 403; the
   * issued OTP, sent before it expires, verifies the account; after that the same
   * credentials log in.
   */
  lemma RegisterVerifyLogin(users: seq<Row<User>>, body: RegisterBody, otp: Otp, id: Id,
                           now: int, matches: (string, string) -> bool)
    requires RegisterCheck(users, body, otp).Ok?
    requires otp.code != "" && now <= otp.expiresAt
    requires matches(body.password.value, body.password.value)
    ensures var s1 := users + [Row(id, RegisterCheck(users, body, otp).value)];
            var s2 := s1[|users| := Row(id, Verified(s1[|users|].rec))];
            LoginUser(s1, LoginBody(body.email, body.password), matches).statusCode == 403 &&
            VerifyOtpCheck(s1, OtpBody(body.email, Some(otp.code)), now) == Ok(|users|) &&
            LoginUser(s2, LoginBody(body.email, body.password), matches) == Send(200, Session(id), "Login successful")
  {
    var u := RegisterCheck(users, body, otp).value;
    var s1 := users + [Row(id, u)];
    var p := UserEmailIs(body.email.value);
    FirstWhereAppendNew(users, Row(id, u), p);
    assert UserByEmail(s1, body.email.value) == Some(|users|);
    FirstWhereReplace(s1, |users|, Row(id, Verified(u)), p);
  }

  // ---------------------------------------------------------------------------
  // resendOtp and forgotPassword: issue a new OTP to a known email

  function ReissueCheck(users: seq<Row<User>>, email: Option<string>): (r: Result<nat, Reply<AccountData>>)
    ensures !Present(email) ==> r == Err(Fail(400, "Email is required"))
    ensures Present(email) && UserByEmail(users, email.value).None? ==> r == Err(Fail(404, "User not found"))
    ensures r.Ok? <==> Present(email) && UserByEmail(users, email.value).Some?
    ensures r.Ok? ==> r.value == UserByEmail(users, email.value).value
  {
    if !Present(email) then Err(Fail(400, "Email is required"))
    else match UserByEmail(users, email.value)
      case None => Err(Fail(404, "User not found"))
      case Some(i) => Ok(i)
  }

  /** Stores a new OTP on the account for `email` and reports `message`, or the send failure. */
  method ReissueOtp(users: Collection<User>, email: Option<string>, otp: Otp, mailSent: bool, message: string)
    returns (reply: Reply<AccountData>)
    requires users.Valid()
    modifies users
    ensures users.Valid()
    ensures ReissueCheck(old(users.rows), email).Err? ==>
              reply == ReissueCheck(old(users.rows), email).error && users.rows == old(users.rows)
    ensures ReissueCheck(old(users.rows), email).Ok? ==>
              var i := ReissueCheck(old(users.rows), email).value;
              ReplacedAt(old(users.rows), users.rows, i, WithOtp(old(users.rows)[i].rec, otp)) &&
              reply == (if mailSent then Send(200, EmailOnly(email.value), message) else Fail(500, InternalError))
  {
    match ReissueCheck(users.rows, email)
    case Err(e) =>
      reply := e;
    case Ok(i) =>
      users.Replace(i, WithOtp(users.rows[i].rec, otp));
      if mailSent {
        reply := Send(200, EmailOnly(email.value), message);
      } else {
        reply := Fail(500, InternalError);
      }
  }

  method ResendOtp(users: Collection<User>, email: Option<string>, otp: Otp, mailSent: bool) returns (reply: Reply<AccountData>)
    requires users.Valid()
    modifies users
    ensures users.Valid()
    ensures ReissueCheck(old(users.rows), email).Err? ==>
              reply == ReissueCheck(old(users.rows), email).error && users.rows == old(users.rows)
    ensures ReissueCheck(old(users.rows), email).Ok? ==>
              var i := ReissueCheck(old(users.rows), email).value;
              ReplacedAt(old(users.rows), users.rows, i, WithOtp(old(users.rows)[i].rec, otp)) &&
              reply == (if mailSent then Send(200, EmailOnly(email.value), "OTP resent successfully") else Fail(500, InternalError))
  {
    reply := ReissueOtp(users, email, otp, mailSent, "OTP resent successfully");
  }

  method ForgotPassword(users: Collection<User>, email: Option<string>, otp: Otp, mailSent: bool) returns (reply: Reply<AccountData>)
    requires users.Valid()
    modifies users
    ensures users.Valid()
    ensures ReissueCheck(old(users.rows), email).Err? ==>
              reply == ReissueCheck(old(users.rows), email).error && users.rows == old(users.rows)
    ensures ReissueCheck(old(users.rows), email).Ok? ==>
              var i := ReissueCheck(old(users.rows), email).value;
              ReplacedAt(old(users.rows), users.rows, i, WithOtp(old(users.rows)[i].rec, otp)) &&
              reply == (if mailSent then Send(200, EmailOnly(email.value), "OTP sent for password reset") else Fail(500, InternalError))
  {
    reply := ReissueOtp(users, email, otp, mailSent, "OTP sent for password reset");
  }

  // ---------------------------------------------------------------------------
  // resetPassword

  /** resetPassword's checks: the account to update, or the error reply. No OTP is consulted. */
  function ResetCheck(users: seq<Row<User>>, body: ResetBody): (r: Result<nat, Reply<AccountData>>)
    ensures !(Present(body.email) && Present(body.newPassword)) ==>
              r == Err(Fail(400, "Email and new password are required"))
    ensures Present(body.email) && Present(body.newPassword) && UserByEmail(users, body.email.value).None? ==>
              r == Err(Fail(404, "User not found"))
    ensures r.Ok? <==> Present(body.email) && Present(body.newPassword) && UserByEmail(users, body.email.value).Some?
    ensures r.Ok? ==> r.value == UserByEmail(users, body.email.value).value
  {
    if !(Present(body.email) && Present(body.newPassword)) then Err(Fail(400, "Email and new password are required"))
    else match UserByEmail(users, body.email.value)
      case None => Err(Fail(404, "User not found"))
      case Some(i) => Ok(i)
  }

  /** The new password, with any outstanding OTP cleared. */
  function WithNewPassword(u: User, password: string): User {
    u.(password := password, otp := Null, otpExpiry := Null)
  }

  method ResetPassword(users: Collection<User>, body: ResetBody) returns (reply: Reply<AccountData>)
    requires users.Valid()
    modifies users
    ensures users.Valid()
    ensures ResetCheck(old(users.rows), body).Err? ==>
              reply == ResetCheck(old(users.rows), body).error && users.rows == old(users.rows)
    ensures ResetCheck(old(users.rows), body).Ok? ==>
              var i := ResetCheck(old(users.rows), body).value;
              ReplacedAt(old(users.rows), users.rows, i, WithNewPassword(old(users.rows)[i].rec, body.newPassword.value)) &&
              reply == Send(200, EmailOnly(body.email.value), "Password reset successfully")
  {
    match ResetCheck(users.rows, body)
    case Err(e) =>
      reply := e;
    case Ok(i) =>
      users.Replace(i, WithNewPassword(users.rows[i].rec, body.newPassword.value));
      reply := Send(200, EmailOnly(body.email.value), "Password reset successfully");
  }

  /** After a reset, a verified account logs in with the new password. */
  lemma ResetThenLogin(users: seq<Row<User>>, body: ResetBody, matches: (string, string) -> bool)
    requires ResetCheck(users, body).Ok?
    requires users[ResetCheck(users, body).value].rec.isVerified
    requires matches(body.newPassword.value, body.newPassword.value)
    ensures var i := ResetCheck(users, body).value;
            var after := users[i := Row(users[i].id, WithNewPassword(users[i].rec, body.newPassword.value))];
            LoginUser(after, LoginBody(body.email, body.newPassword), matches) == Send(200, Session(users[i].id), "Login successful")
  {
    var i := ResetCheck(users, body).value;
    FirstWhereReplace(users, i, Row(users[i].id, WithNewPassword(users[i].rec, body.newPassword.value)), UserEmailIs(body.email.value));
  }

  // ---------------------------------------------------------------------------
  // refreshToken, getCurrentUser, logoutUser

  /**
   * refreshToken. The token library's two error names become 401s; any other thrown error goes
   * to the database-error classification.
   */
  function RefreshToken(users: seq<Row<User>>, token: Option<string>, verify: string -> Verification): (r: Reply<AccountData>)
    ensures !Present(token) ==> r == Fail(401, "Refresh token required")
    ensures Present(token) && verify(token.value) == Threw("TokenExpiredError") ==> r == Fail(401, "Refresh token expired")
    ensures Present(token) && verify(token.value) == Threw("JsonWebTokenError") ==> r == Fail(401, "Invalid refresh token")
    ensures r.statusCode == 200 <==>
              Present(token) && verify(token.value).Decoded? && verify(token.value).userId.Some? &&
              HasId(users, verify(token.value).userId.value)
    ensures r.statusCode == 200 ==> r.data == Some(Tokens(verify(token.value).userId.value))
    ensures r.statusCode != 200 && !(Present(token) && verify(token.value).Threw?) ==> r.statusCode == 401
  {
    if !Present(token) then Fail(401, "Refresh token required")
    else match verify(token.value)
      case Threw(name) =>
        if name == "TokenExpiredError" then Fail(401, "Refresh token expired")
        else if name == "JsonWebTokenError" then Fail(401, "Invalid refresh token")
        else HandleMongoErrors(Named(name))
      case Decoded(uid) =>
        if uid.None? || Get(users, uid.value).None? then Fail(401, "Invalid refresh token")
        else Send(200, Tokens(uid.value), "Tokens refreshed successfully")
  }

  /** getCurrentUser: the account attached by the middleware, re-read from the store. */
  function GetCurrentUser(users: seq<Row<User>>, id: Id): (r: Reply<AccountData>)
    ensures r.statusCode == 200 <==> HasId(users, id)
    ensures r.statusCode != 200 ==> r == Fail(404, "User not found")
    ensures r.statusCode == 200 ==> r.data == Some(Session(id))
  {
    if Get(users, id).None? then Fail(404, "User not found") else Send(200, Session(id), "User retrieved successfully")
  }

  /** logoutUser: tokens are not tracked server-side, so logging out only answers 200. */
  function LogoutUser(): (r: Reply<AccountData>)
    ensures r.statusCode == 200 && r.data.None?
  {
    Reply(200, None, "Logout successful")
  }
}
