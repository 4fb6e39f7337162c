/**
 * The two kinds of account (user and admin), the request object the authentication
 * middlewares decorate, and the JavaScript notion of a field that may be undefined, null or
 * set.
 */
module Principals {
  import opened Wrappers
  import opened Table

  /** A stored field in JavaScript terms: never assigned (`undefined`), `null`, or a value. */
  datatype Field<T> = Unset | Null | Val(v: T)

  /** A one-time password as `generateOTP` produces it: the code and its expiry (ms since epoch). */
  datatype Otp = Otp(code: string, expiresAt: int)

  datatype User = User(
    name: string,
    email: string,
    password: string,
    referralId: Option<string>,
    otp: Field<string>,
    otpExpiry: Field<int>,
    isVerified: bool,
    isActive: bool,
    role: Option<string>)

  datatype Admin = Admin(
    name: string,
    email: string,
    password: string,
    role: string,
    status: string,
    otp: Field<string>,
    otpExpiry: Field<int>)

  /**
   * `record.otpExpiry < Date.now()`: an undefined expiry compares as NaN (never smaller), a
   * null one as 0.
   */
  predicate OtpExpired(expiry: Field<int>, now: int) {
    match expiry
    case Unset => false
    case Null => 0 < now
    case Val(t) => t < now
  }

  /** `record.otp !== otp` for a non-empty code sent in the body. */
  predicate OtpMismatch(stored: Field<string>, sent: string) {
    stored != Val(sent)
  }

  /** The payloads the account handlers send back; tokens are derived from the account id. */
  datatype AccountData =
    | Registered(id: Id, email: string)  // `{ userId, email }`
    | Session(id: Id)                    // the account without secrets, plus access and refresh tokens
    | Tokens(id: Id)                     // a fresh access and refresh token pair
    | EmailOnly(email: string)           // `{ email }`

  /** The query `{ email }` on users. */
  function UserEmailIs(email: string): Row<User> -> bool {
    (u: Row<User>) => u.rec.email == email
  }

  /** The query `{ email }` on admins. */
  function AdminEmailIs(email: string): Row<Admin> -> bool {
    (a: Row<Admin>) => a.rec.email == email
  }

  /** `User.findOne({ email })`. */
  function UserByEmail(users: seq<Row<User>>, email: string): (r: Option<nat>)
    ensures r.Some? ==> r.value < |users| && users[r.value].rec.email == email
    ensures r.Some? ==> forall k :: 0 <= k < r.value ==> users[k].rec.email != email
    ensures r.None? <==> forall k :: 0 <= k < |users| ==> users[k].rec.email != email
  {
    FirstWhere(users, UserEmailIs(email))
  }

  /** `Admin.findOne({ email })`. */
  function AdminByEmail(admins: seq<Row<Admin>>, email: string): (r: Option<nat>)
    ensures r.Some? ==> r.value < |admins| && admins[r.value].rec.email == email
    ensures r.Some? ==> forall k :: 0 <= k < r.value ==> admins[k].rec.email != email
    ensures r.None? <==> forall k :: 0 <= k < |admins| ==> admins[k].rec.email != email
  {
    FirstWhere(admins, AdminEmailIs(email))
  }

  /** No two users share an email. */
  predicate UserEmailsDistinct(users: seq<Row<User>>) {
    forall i, j :: 0 <= i < j < |users| ==> users[i].rec.email != users[j].rec.email
  }

  /** No two admins share an email. */
  predicate AdminEmailsDistinct(admins: seq<Row<Admin>>) {
    forall i, j :: 0 <= i < j < |admins| ==> admins[i].rec.email != admins[j].rec.email
  }

  /** The request object: what the authentication middlewares attach, and whether `next()` ran. */
  class Request {
    var user: Option<Row<User>>
    var admin: Option<Row<Admin>>
    var nextCalled: bool

    constructor()
      ensures user.None? && admin.None? && !nextCalled
    {
      user := None;
      admin := None;
      nextCalled := false;
    }
  }
}
