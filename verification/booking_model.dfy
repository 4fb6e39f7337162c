/**
 * The booking record (`BookingAppointment`) and what `save` checks of it: the `bookingFor`
 * and `status` enumerations, the required paths, and the cast of `appointmentDate` to a date.
 */
module BookingModel {
  import opened Wrappers
  import opened Table
  import opened MongooseError

  datatype Status = Pending | Confirmed | Completed | Cancelled

  /** What a booking is for; stored as "Doctor" or "HealthcareCenter". */
  datatype Kind = ForDoctor | ForHealthcareCenter

  function StatusName(s: Status): string {
    match s
    case Pending => "Pending"
    case Confirmed => "Confirmed"
    case Completed => "Completed"
    case Cancelled => "Cancelled"
  }

  /** The status a string names, if it names one (`["Pending", ...].includes(s)`). */
  function ParseStatus(s: string): (r: Option<Status>)
    ensures r.Some? ==> StatusName(r.value) == s
    ensures r.None? <==> forall st: Status :: StatusName(st) != s
    ensures forall st: Status :: s == StatusName(st) ==> r == Some(st)
  {
    if s == "Pending" then Some(Pending)
    else if s == "Confirmed" then Some(Confirmed)
    else if s == "Completed" then Some(Completed)
    else if s == "Cancelled" then Some(Cancelled)
    else None
  }

  function KindName(k: Kind): string {
    match k
    case ForDoctor => "Doctor"
    case ForHealthcareCenter => "HealthcareCenter"
  }

  function ParseKind(s: string): (r: Option<Kind>)
    ensures r.Some? ==> KindName(r.value) == s
    ensures r.None? <==> forall k: Kind :: KindName(k) != s
    ensures forall k: Kind :: s == KindName(k) ==> r == Some(k)
  {
    if s == "Doctor" then Some(ForDoctor)
    else if s == "HealthcareCenter" then Some(ForHealthcareCenter)
    else None
  }

  /**
   * A date sent as text, read by two different parsers. `instant` is what `new Date(text)`
   * denotes (ms since epoch; `None` is an Invalid Date), as the handlers compute it. `cast` is
   * what Mongoose's date cast makes of the same text when a document holding it is built
   * (`None` is a failed cast). The two agree on ordinary date texts; they differ on a digit
   * string too large to be a year, which the cast reads as milliseconds since the epoch.
   */
  datatype DateValue = DateValue(text: string, instant: Option<int>, cast: Option<int>)

  /** Both parsers read the text as the same instant. */
  predicate ParsersAgree(d: DateValue) {
    d.instant == d.cast
  }

  /** Truthiness of a date field of the request. */
  predicate DatePresent(d: Option<DateValue>) {
    d.Some? && d.value.text != ""
  }

  datatype Booking = Booking(
    user: Id,
    doctor: Option<Id>,             // default null
    healthcareCenter: Option<Id>,   // default null
    bookingFor: Kind,
    appointmentDate: int,
    reason: Option<string>,
    status: Status,
    createdAt: int)

  /** The document the handler builds before `save`, with the request's values as sent. */
  datatype Draft = Draft(
    user: Id,
    doctor: Option<Id>,
    healthcareCenter: Option<Id>,
    bookingFor: string,
    appointmentDate: DateValue,
    reason: Option<string>,
    status: Status)

  /** The message of a value that cannot be cast to a date. */
  function DateCastMessage(text: string, path: string): string {
    "Cast to date failed for value \"" + text + "\" (type string) at path \"" + path + "\""
  }

  /** The per-path messages of `save`: the date cast (made when the document is built) first. */
  function DraftErrors(d: Draft): (errs: seq<string>)
    ensures |errs| == 0 <==>
              d.appointmentDate.text != "" && d.appointmentDate.cast.Some? && ParseKind(d.bookingFor).Some?
  {
    (if d.appointmentDate.text == "" then [RequiredMessage("appointmentDate")]
     else if d.appointmentDate.cast.None? then [DateCastMessage(d.appointmentDate.text, "appointmentDate")]
     else []) +
    (if d.bookingFor == "" then [RequiredMessage("bookingFor")]
     else if ParseKind(d.bookingFor).None? then [EnumMessage(d.bookingFor, "bookingFor")]
     else [])
  }

  /**
   * `booking.save()` with `timestamps`: the stored booking, or the validation error. A date
   * that is not the empty text is stored as Mongoose's cast of it, when the cast succeeds; a `bookingFor` outside
   * the enumeration is reported with Mongoose's enum message.
   */
  function SaveBooking(d: Draft, now: int): (r: Result<Booking, ErrorObject>)
    ensures r.Ok? <==>
              d.appointmentDate.text != "" && d.appointmentDate.cast.Some? && ParseKind(d.bookingFor).Some?
    ensures r.Ok? ==>
              r.value.user == d.user && r.value.doctor == d.doctor &&
              r.value.healthcareCenter == d.healthcareCenter &&
              KindName(r.value.bookingFor) == d.bookingFor &&
              r.value.appointmentDate == d.appointmentDate.cast.value &&
              r.value.reason == d.reason && r.value.status == d.status && r.value.createdAt == now
    ensures r.Err? ==> IsValidation(r.error) && r.error.fieldMessages == DraftErrors(d)
    ensures r.Err? && d.bookingFor != "" && ParseKind(d.bookingFor).None? ==>
              EnumMessage(d.bookingFor, "bookingFor") in r.error.fieldMessages
  {
    var errs := DraftErrors(d);
    if |errs| > 0 then Err(ValidationError(errs))
    else Ok(Booking(d.user, d.doctor, d.healthcareCenter, ParseKind(d.bookingFor).value,
                    d.appointmentDate.cast.value, d.reason, d.status, now))
  }
}
