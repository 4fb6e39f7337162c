/**
 * The booking handlers. A user books a doctor or a healthcare centre for a future date; an
 * admin lists bookings, moves a booking to any status, cancels it unless it is completed or
 * already cancelled, lists one doctor's or one centre's appointments, and reads statistics.
 * The clock (`now`) and the local calendar (`dayStart`, `nextDay`) are parameters.
 */
module BookingController {
  import opened Wrappers
  import opened Envelope
  import opened Text
  import opened Table
  import opened Sorting
  import opened Principals
  import opened MongooseError
  import opened BookingModel
  import opened Doctors
  import opened HealthCares

  const BookingNotFound := "Booking not found"

  // ---------------------------------------------------------------------------
  // createBooking

  /** The request body; the requester's id comes from the authenticated user. */
  datatype CreateBody = CreateBody(
    doctor: Option<Id>,
    healthcareCenter: Option<Id>,
    bookingFor: Option<string>,
    appointmentDate: Option<DateValue>,
    reason: Option<string>)

  predicate FieldsGiven(b: CreateBody) {
    Present(b.bookingFor) && DatePresent(b.appointmentDate)
  }

  /** The target the booking type asks for is named. */
  predicate TargetGiven(b: CreateBody) {
    (b.bookingFor == Some("Doctor") ==> b.doctor.Some?) &&
    (b.bookingFor == Some("HealthcareCenter") ==> b.healthcareCenter.Some?)
  }

  /** The named target exists and is active. */
  predicate TargetBookable(doctors: seq<Row<Doctor>>, centers: seq<Row<HealthCare>>, b: CreateBody)
    requires TargetGiven(b)
  {
    (b.bookingFor == Some("Doctor") ==>
       Get(doctors, b.doctor.value).Some? && Get(doctors, b.doctor.value).value.rec.isActive) &&
    (b.bookingFor == Some("HealthcareCenter") ==>
       Get(centers, b.healthcareCenter.value).Some? && Get(centers, b.healthcareCenter.value).value.rec.isActive)
  }

  /** `new Date(appointmentDate) <= new Date()` is false; an Invalid Date compares false too. */
  predicate NotPast(b: CreateBody, now: int)
    requires FieldsGiven(b)
  {
    !(b.appointmentDate.value.instant.Some? && b.appointmentDate.value.instant.value <= now)
  }

  /** createBooking's own checks, in their order: the document to save, or the error reply. */
  function CreateBookingCheck(users: seq<Row<User>>, doctors: seq<Row<Doctor>>, centers: seq<Row<HealthCare>>,
                              userId: Id, b: CreateBody, now: int): (r: Result<Draft, Reply<Row<Booking>>>)
    ensures !FieldsGiven(b) ==> r == Err(Fail(400, "Booking type and appointment date are required"))
    ensures FieldsGiven(b) && b.bookingFor == Some("Doctor") && b.doctor.None? ==>
              r == Err(Fail(400, "Doctor is required for doctor booking"))
    ensures FieldsGiven(b) && b.bookingFor == Some("HealthcareCenter") && b.healthcareCenter.None? ==>
              r == Err(Fail(400, "Healthcare center is required for healthcare booking"))
    ensures FieldsGiven(b) && TargetGiven(b) && !HasId(users, userId) ==> r == Err(Fail(404, "User not found"))
    ensures FieldsGiven(b) && TargetGiven(b) && HasId(users, userId) && b.bookingFor == Some("Doctor") ==>
              (!HasId(doctors, b.doctor.value) ==> r == Err(Fail(404, "Doctor not found"))) &&
              (HasId(doctors, b.doctor.value) && !Get(doctors, b.doctor.value).value.rec.isActive ==>
                 r == Err(Fail(400, "Doctor is not active")))
    ensures FieldsGiven(b) && TargetGiven(b) && HasId(users, userId) && b.bookingFor == Some("HealthcareCenter") ==>
              (!HasId(centers, b.healthcareCenter.value) ==> r == Err(Fail(404, "Healthcare center not found"))) &&
              (HasId(centers, b.healthcareCenter.value) && !Get(centers, b.healthcareCenter.value).value.rec.isActive ==>
                 r == Err(Fail(400, "Healthcare center is not active")))
    ensures FieldsGiven(b) && TargetGiven(b) && HasId(users, userId) && TargetBookable(doctors, centers, b) ==>
              (!NotPast(b, now) ==> r == Err(Fail(400, "Appointment date must be in the future")))
    ensures r.Ok? <==>
              FieldsGiven(b) && TargetGiven(b) && HasId(users, userId) && TargetBookable(doctors, centers, b) &&
              NotPast(b, now)
    ensures r.Ok? ==>
              r.value.user == userId && r.value.status == Pending && r.value.bookingFor == b.bookingFor.value &&
              r.value.appointmentDate == b.appointmentDate.value && r.value.reason == b.reason
    ensures r.Ok? ==>
              (r.value.doctor.Some? <==> b.bookingFor == Some("Doctor")) &&
              (r.value.healthcareCenter.Some? <==> b.bookingFor == Some("HealthcareCenter")) &&
              (r.value.doctor.Some? ==> r.value.doctor == b.doctor) &&
              (r.value.healthcareCenter.Some? ==> r.value.healthcareCenter == b.healthcareCenter)
  {
    if !FieldsGiven(b) then Err(Fail(400, "Booking type and appointment date are required"))
    else if b.bookingFor == Some("Doctor") && b.doctor.None? then Err(Fail(400, "Doctor is required for doctor booking"))
    else if b.bookingFor == Some("HealthcareCenter") && b.healthcareCenter.None? then
      Err(Fail(400, "Healthcare center is required for healthcare booking"))
    else if !HasId(users, userId) then Err(Fail(404, "User not found"))
    else if b.bookingFor == Some("Doctor") && Get(doctors, b.doctor.value).None? then Err(Fail(404, "Doctor not found"))
    else if b.bookingFor == Some("Doctor") && !Get(doctors, b.doctor.value).value.rec.isActive then
      Err(Fail(400, "Doctor is not active"))
    else if b.bookingFor == Some("HealthcareCenter") && Get(centers, b.healthcareCenter.value).None? then
      Err(Fail(404, "Healthcare center not found"))
    else if b.bookingFor == Some("HealthcareCenter") && !Get(centers, b.healthcareCenter.value).value.rec.isActive then
      Err(Fail(400, "Healthcare center is not active"))
    else if !NotPast(b, now) then Err(Fail(400, "Appointment date must be in the future"))
    else
      Ok(Draft(userId,
               if b.bookingFor == Some("Doctor") then b.doctor else None,
               if b.bookingFor == Some("HealthcareCenter") then b.healthcareCenter else None,
               b.bookingFor.value, b.appointmentDate.value, b.reason, Pending))
  }

  /**
   * The booking createBooking stores, or its error reply: the checks, then `save`. A stored
   * booking is pending, belongs to the requester and names exactly the one target its type
   * asks for, an existing and active one. Its date is Mongoose's cast of the text, which lies
   * strictly in the future when the handler's `new Date` reads the text the same way. A type
   * outside the enumeration passes the checks and is refused by `save` with 400.
   */
  function BookingToStore(users: seq<Row<User>>, doctors: seq<Row<Doctor>>, centers: seq<Row<HealthCare>>,
                          userId: Id, b: CreateBody, now: int): (r: Result<Booking, Reply<Row<Booking>>>)
    ensures CreateBookingCheck(users, doctors, centers, userId, b, now).Err? ==>
              r == Err(CreateBookingCheck(users, doctors, centers, userId, b, now).error)
    ensures r.Ok? <==>
              CreateBookingCheck(users, doctors, centers, userId, b, now).Ok? &&
              b.appointmentDate.value.cast.Some? && ParseKind(b.bookingFor.value).Some?
    ensures CreateBookingCheck(users, doctors, centers, userId, b, now).Ok? && r.Err? ==>
              r.error.statusCode == 400 && r.error.data.None?
    ensures r.Ok? ==>
              r.value.user == userId && HasId(users, userId) && r.value.status == Pending &&
              r.value.appointmentDate == b.appointmentDate.value.cast.value &&
              Some(KindName(r.value.bookingFor)) == b.bookingFor
    ensures r.Ok? && ParsersAgree(b.appointmentDate.value) ==> r.value.appointmentDate > now
    ensures r.Ok? ==>
              (r.value.doctor.Some? <==> r.value.bookingFor == ForDoctor) &&
              (r.value.healthcareCenter.Some? <==> r.value.bookingFor == ForHealthcareCenter)
    ensures r.Ok? && r.value.bookingFor == ForDoctor ==>
              r.value.doctor == b.doctor && Get(doctors, b.doctor.value).Some? &&
              Get(doctors, b.doctor.value).value.rec.isActive
    ensures r.Ok? && r.value.bookingFor == ForHealthcareCenter ==>
              r.value.healthcareCenter == b.healthcareCenter && Get(centers, b.healthcareCenter.value).Some? &&
              Get(centers, b.healthcareCenter.value).value.rec.isActive
  {
    match CreateBookingCheck(users, doctors, centers, userId, b, now)
    case Err(e) => Err(e)
    case Ok(d) =>
      match SaveBooking(d, now)
      case Err(e) => Err(HandleMongoErrors(e))
      case Ok(booking) => Ok(booking)
  }

  /**
   * The future check compares `new Date(text)`, but the document stores Mongoose's cast. A
   * text that `new Date` cannot read and the cast reads as an early instant (a digit string
   * such as "300000", read as milliseconds since the epoch) passes the check and is stored
   * as a date in the past.
   */
  lemma PastDateThroughCast(users: seq<Row<User>>, doctors: seq<Row<Doctor>>, centers: seq<Row<HealthCare>>,
                            userId: Id, b: CreateBody, now: int)
    requires FieldsGiven(b) && TargetGiven(b) && HasId(users, userId) && TargetBookable(doctors, centers, b)
    requires ParseKind(b.bookingFor.value).Some?
    requires b.appointmentDate.value.instant.None? && b.appointmentDate.value.cast.Some?
    requires b.appointmentDate.value.cast.value <= now
    ensures BookingToStore(users, doctors, centers, userId, b, now).Ok?
    ensures BookingToStore(users, doctors, centers, userId, b, now).value.appointmentDate <= now
  {
  }

  method CreateBooking(bookings: Collection<Booking>, users: seq<Row<User>>, doctors: seq<Row<Doctor>>,
                       centers: seq<Row<HealthCare>>, userId: Id, b: CreateBody, now: int) returns (reply: Reply<Row<Booking>>)
    requires bookings.Valid()
    modifies bookings
    ensures bookings.Valid()
    ensures BookingToStore(users, doctors, centers, userId, b, now).Err? ==>
              reply == BookingToStore(users, doctors, centers, userId, b, now).error &&
              bookings.rows == old(bookings.rows)
    ensures BookingToStore(users, doctors, centers, userId, b, now).Ok? ==>
              Appended(old(bookings.rows), bookings.rows, BookingToStore(users, doctors, centers, userId, b, now).value) &&
              reply == Send(201, Last(bookings.rows), "Booking created successfully")
  {
    match BookingToStore(users, doctors, centers, userId, b, now)
    case Err(e) =>
      reply := e;
    case Ok(booking) =>
      var row := bookings.Insert(booking);
      reply := Send(201, row, "Booking created successfully");
  }

  // ---------------------------------------------------------------------------
  // updateBookingStatus: any valid status may follow any other.

  function UpdateStatusCheck(rows: seq<Row<Booking>>, id: Id, status: Option<string>): (r: Result<(nat, Status), Reply<Row<Booking>>>)
    ensures !Present(status) || ParseStatus(status.value).None? ==> r == Err(Fail(400, "Valid status is required"))
    ensures Present(status) && ParseStatus(status.value).Some? && !HasId(rows, id) ==> r == Err(Fail(404, BookingNotFound))
    ensures r.Ok? <==> Present(status) && ParseStatus(status.value).Some? && HasId(rows, id)
    ensures r.Ok? ==> r.value.0 < |rows| && rows[r.value.0].id == id && StatusName(r.value.1) == status.value
  {
    if !Present(status) || ParseStatus(status.value).None? then Err(Fail(400, "Valid status is required"))
    else match IndexOf(rows, id)
      case None => Err(Fail(404, BookingNotFound))
      case Some(i) => Ok((i, ParseStatus(status.value).value))
  }

  method UpdateBookingStatus(bookings: Collection<Booking>, id: Id, status: Option<string>) returns (reply: Reply<Row<Booking>>)
    requires bookings.Valid()
    modifies bookings
    ensures bookings.Valid()
    ensures UpdateStatusCheck(old(bookings.rows), id, status).Err? ==>
              reply == UpdateStatusCheck(old(bookings.rows), id, status).error && bookings.rows == old(bookings.rows)
    ensures UpdateStatusCheck(old(bookings.rows), id, status).Ok? ==>
              var (i, s) := UpdateStatusCheck(old(bookings.rows), id, status).value;
              ReplacedAt(old(bookings.rows), bookings.rows, i, old(bookings.rows)[i].rec.(status := s)) &&
              reply == Send(200, bookings.rows[i], "Booking status updated successfully")
  {
    match UpdateStatusCheck(bookings.rows, id, status)
    case Err(e) =>
      reply := e;
    case Ok((i, s)) =>
      bookings.Replace(i, bookings.rows[i].rec.(status := s));
      reply := Send(200, bookings.rows[i], "Booking status updated successfully");
  }

  // ---------------------------------------------------------------------------
  // cancelBooking: completed and cancelled bookings stay as they are.

  predicate Terminal(s: Status) {
    s == Completed || s == Cancelled
  }

  /** `Booking is already ${status.toLowerCase()}`. */
  function AlreadyMessage(s: Status): string {
    "Booking is already " + Lower(StatusName(s))
  }

  /** The two refusals read "Booking is already completed" and "Booking is already cancelled". */
  lemma AlreadyMessages()
    ensures AlreadyMessage(Completed) == "Booking is already completed"
    ensures AlreadyMessage(Cancelled) == "Booking is already cancelled"
  {
    assert Lower("Completed") == "completed" by {
      assert Lower("Completed")[0] == LowerChar('C');
    }
    assert Lower("Cancelled") == "cancelled" by {
      assert Lower("Cancelled")[0] == LowerChar('C');
    }
  }

  function CancelCheck(rows: seq<Row<Booking>>, id: Id): (r: Result<nat, Reply<Row<Booking>>>)
    ensures !HasId(rows, id) ==> r == Err(Fail(404, BookingNotFound))
    ensures HasId(rows, id) && Terminal(rows[IndexOf(rows, id).value].rec.status) ==>
              r == Err(Fail(400, AlreadyMessage(rows[IndexOf(rows, id).value].rec.status)))
    ensures r.Ok? <==> HasId(rows, id) && !Terminal(rows[IndexOf(rows, id).value].rec.status)
    ensures r.Ok? ==> r.value == IndexOf(rows, id).value
  {
    match IndexOf(rows, id)
    case None => Err(Fail(404, BookingNotFound))
    case Some(i) =>
      if Terminal(rows[i].rec.status) then Err(Fail(400, AlreadyMessage(rows[i].rec.status)))
      else Ok(i)
  }

  method CancelBooking(bookings: Collection<Booking>, id: Id) returns (reply: Reply<Row<Booking>>)
    requires bookings.Valid()
    modifies bookings
    ensures bookings.Valid()
    ensures CancelCheck(old(bookings.rows), id).Err? ==>
              reply == CancelCheck(old(bookings.rows), id).error && bookings.rows == old(bookings.rows)
    ensures CancelCheck(old(bookings.rows), id).Ok? ==>
              var i := CancelCheck(old(bookings.rows), id).value;
              ReplacedAt(old(bookings.rows), bookings.rows, i, old(bookings.rows)[i].rec.(status := Cancelled)) &&
              reply == Send(200, bookings.rows[i], "Booking cancelled successfully")
  {
    match CancelCheck(bookings.rows, id)
    case Err(e) =>
      reply := e;
    case Ok(i) =>
      bookings.Replace(i, bookings.rows[i].rec.(status := Cancelled));
      reply := Send(200, bookings.rows[i], "Booking cancelled successfully");
  }

  /**
   * Cancelling is final for cancelBooking but not for updateBookingStatus: once a booking is
   * cancelled, a second cancel is refused with "Booking is already cancelled", while a status
   * update may still move it back to any status.
   */
  lemma CancelIsFinalOnlyForCancel(rows: seq<Row<Booking>>, id: Id, back: Status)
    requires CancelCheck(rows, id).Ok?
    ensures var i := CancelCheck(rows, id).value;
            var after := rows[i := Row(id, rows[i].rec.(status := Cancelled))];
            CancelCheck(after, id) == Err(Fail(400, "Booking is already cancelled")) &&
            UpdateStatusCheck(after, id, Some(StatusName(back))) == Ok((i, back))
  {
    var i := CancelCheck(rows, id).value;
    var after := rows[i := Row(id, rows[i].rec.(status := Cancelled))];
    FirstWhereReplace(rows, i, Row(id, rows[i].rec.(status := Cancelled)), (row: Row<Booking>) => row.id == id);
    assert IndexOf(after, id) == Some(i);
    AlreadyMessages();
  }

  // ---------------------------------------------------------------------------
  // Listings

  /** `.sort({ createdAt: -1 })`. */
  function NewestFirst(b: Row<Booking>): seq<int> {
    [-b.rec.createdAt]
  }

  /** `.sort({ appointmentDate: 1 })`. */
  function EarliestFirst(b: Row<Booking>): seq<int> {
    [b.rec.appointmentDate]
  }

  /** The optional `status` and `bookingFor` query filters, each applied when truthy. */
  function QueryFilter(status: Option<string>, bookingFor: Option<string>): Row<Booking> -> bool {
    (b: Row<Booking>) =>
      (Present(status) ==> StatusName(b.rec.status) == status.value) &&
      (Present(bookingFor) ==> KindName(b.rec.bookingFor) == bookingFor.value)
  }

  /** getAllBookings. */
  function AllBookings(rows: seq<Row<Booking>>, status: Option<string>, bookingFor: Option<string>): (r: Reply<seq<Row<Booking>>>)
    ensures r.statusCode == 200 && r.data.Some?
    ensures SortedBy(r.data.value, NewestFirst)
    ensures forall b :: b in r.data.value <==>
              b in rows && (Present(status) ==> StatusName(b.rec.status) == status.value) &&
              (Present(bookingFor) ==> KindName(b.rec.bookingFor) == bookingFor.value)
    ensures CountsOf(r.data.value, rows, QueryFilter(status, bookingFor))
  {
    var found := Where(rows, QueryFilter(status, bookingFor));
    SortByMembers(found, NewestFirst);
    Send(200, SortBy(found, NewestFirst), "Bookings retrieved successfully")
  }

  /** getUserBookings: the same listing with only the status filter; it is not limited to the requester. */
  function UserBookings(rows: seq<Row<Booking>>, status: Option<string>): (r: Reply<seq<Row<Booking>>>)
    ensures r.statusCode == 200 && r.data.Some?
    ensures SortedBy(r.data.value, NewestFirst)
    ensures forall b :: b in r.data.value <==> b in rows && (Present(status) ==> StatusName(b.rec.status) == status.value)
    ensures CountsOf(r.data.value, rows, QueryFilter(status, None))
  {
    AllBookings(rows, status, None)
  }

  function BookingById(rows: seq<Row<Booking>>, id: Id): (r: Reply<Row<Booking>>)
    ensures r.statusCode == 404 <==> !HasId(rows, id)
    ensures r.statusCode == 404 ==> r == Fail(404, BookingNotFound)
    ensures r.statusCode != 404 ==> r.statusCode == 200 && r.data.Some? && r.data.value in rows && r.data.value.id == id
  {
    match Get(rows, id)
    case None => Fail(404, BookingNotFound)
    case Some(b) => Send(200, b, "Booking retrieved successfully")
  }

  /** The `[date, date + 1 day)` window of an appointments listing, when a date is given. */
  predicate InWindow(b: Booking, window: Option<(int, int)>) {
    window.Some? ==> window.value.0 <= b.appointmentDate < window.value.1
  }

  /** The window of the day `date` starts, when a date is given and can be read. */
  function Window(date: Option<DateValue>, nextDay: int -> int): Option<(int, int)> {
    if DatePresent(date) && date.value.instant.Some? then Some((date.value.instant.value, nextDay(date.value.instant.value)))
    else None
  }

  /** The filter of one target's appointments. */
  function AppointmentFilter(kind: Kind, target: Id, status: Option<string>, window: Option<(int, int)>): Row<Booking> -> bool {
    (b: Row<Booking>) =>
      (if kind == ForDoctor then b.rec.doctor else b.rec.healthcareCenter) == Some(target) &&
      b.rec.bookingFor == kind &&
      (Present(status) ==> StatusName(b.rec.status) == status.value) &&
      InWindow(b.rec, window)
  }

  /**
   * One target's appointments, earliest first. A `date` the database cannot cast is a cast
   * error on `appointmentDate`.
   */
  function Appointments(rows: seq<Row<Booking>>, kind: Kind, target: Id, date: Option<DateValue>,
                        status: Option<string>, nextDay: int -> int, message: string): (r: Reply<seq<Row<Booking>>>)
    ensures DatePresent(date) && date.value.instant.None? ==>
              r == HandleMongoErrors(CastError("appointmentDate")) && r.statusCode == 400
    ensures r.statusCode == 200 <==> !(DatePresent(date) && date.value.instant.None?)
    ensures r.statusCode == 200 ==>
              r.data.Some? && r.message == message && SortedBy(r.data.value, EarliestFirst) &&
              forall b :: b in r.data.value <==>
                b in rows && b.rec.bookingFor == kind &&
                (if kind == ForDoctor then b.rec.doctor else b.rec.healthcareCenter) == Some(target) &&
                (Present(status) ==> StatusName(b.rec.status) == status.value) &&
                (DatePresent(date) ==>
                   date.value.instant.value <= b.rec.appointmentDate < nextDay(date.value.instant.value))
    ensures r.statusCode == 200 ==>
              CountsOf(r.data.value, rows, AppointmentFilter(kind, target, status, Window(date, nextDay)))
  {
    if DatePresent(date) && date.value.instant.None? then HandleMongoErrors(CastError("appointmentDate"))
    else
      var window := Window(date, nextDay);
      var found := Where(rows, AppointmentFilter(kind, target, status, window));
      SortByMembers(found, EarliestFirst);
      Send(200, SortBy(found, EarliestFirst), message)
  }

  function DoctorAppointments(rows: seq<Row<Booking>>, doctorId: Id, date: Option<DateValue>,
                              status: Option<string>, nextDay: int -> int): (r: Reply<seq<Row<Booking>>>)
    ensures r == Appointments(rows, ForDoctor, doctorId, date, status, nextDay, "Doctor appointments retrieved successfully")
    ensures r.statusCode == 200 ==> forall b :: b in r.data.value ==> b.rec.doctor == Some(doctorId) && b.rec.bookingFor == ForDoctor
  {
    Appointments(rows, ForDoctor, doctorId, date, status, nextDay, "Doctor appointments retrieved successfully")
  }

  function CenterAppointments(rows: seq<Row<Booking>>, centerId: Id, date: Option<DateValue>,
                              status: Option<string>, nextDay: int -> int): (r: Reply<seq<Row<Booking>>>)
    ensures r == Appointments(rows, ForHealthcareCenter, centerId, date, status, nextDay,
                              "Healthcare center appointments retrieved successfully")
    ensures r.statusCode == 200 ==>
              forall b :: b in r.data.value ==> b.rec.healthcareCenter == Some(centerId) && b.rec.bookingFor == ForHealthcareCenter
  {
    Appointments(rows, ForHealthcareCenter, centerId, date, status, nextDay,
                 "Healthcare center appointments retrieved successfully")
  }

  // ---------------------------------------------------------------------------
  // getBookingStats

  datatype Stats = Stats(total: nat, today: nat, byStatus: map<Status, nat>)

  function StatusIs(s: Status): Row<Booking> -> bool {
    (b: Row<Booking>) => b.rec.status == s
  }

  function CountStatus(rows: seq<Row<Booking>>, s: Status): nat {
    Count(rows, StatusIs(s))
  }

  /** The bookings of a day window: `{ appointmentDate: { $gte: lo, $lt: hi } }`. */
  function Between(lo: int, hi: int): Row<Booking> -> bool {
    (b: Row<Booking>) => lo <= b.rec.appointmentDate < hi
  }

  /** The group of one status, present only when some booking has it. */
  function Group(rows: seq<Row<Booking>>, s: Status): seq<(Status, nat)> {
    if CountStatus(rows, s) > 0 then [(s, CountStatus(rows, s))] else []
  }

  /** `$group` by status with `$sum: 1`: one entry per status that occurs, with its count. */
  function StatusGroups(rows: seq<Row<Booking>>): (g: seq<(Status, nat)>)
    ensures forall j :: 0 <= j < |g| ==> g[j].1 == CountStatus(rows, g[j].0) && g[j].1 > 0
    ensures forall s :: CountStatus(rows, s) > 0 ==> exists j :: 0 <= j < |g| && g[j].0 == s
  {
    var g := Group(rows, Pending) + Group(rows, Confirmed) + Group(rows, Completed) + Group(rows, Cancelled);
    assert forall s :: CountStatus(rows, s) > 0 ==> (s, CountStatus(rows, s)) in g by {
      forall s | CountStatus(rows, s) > 0
        ensures (s, CountStatus(rows, s)) in g
      {
        assert (s, CountStatus(rows, s)) in Group(rows, s);
      }
    }
    g
  }

  /**
   * getBookingStats. The `reduce` over the groups fills `byStatus` with exactly the statuses
   * that occur and their counts; `today` counts the appointments of the local day of `now`.
   */
  method BookingStats(rows: seq<Row<Booking>>, now: int, dayStart: int -> int, nextDay: int -> int) returns (reply: Reply<Stats>)
    ensures reply.statusCode == 200 && reply.data.Some? && reply.message == "Booking statistics retrieved successfully"
    ensures reply.data.value.total == |rows|
    ensures reply.data.value.today == Count(rows, Between(dayStart(now), nextDay(dayStart(now))))
    ensures forall s :: s in reply.data.value.byStatus <==> CountStatus(rows, s) > 0
    ensures forall s :: s in reply.data.value.byStatus ==> reply.data.value.byStatus[s] == CountStatus(rows, s)
  {
    var groups := StatusGroups(rows);
    var total := |rows|;
    var today := dayStart(now);
    var tomorrow := nextDay(today);
    var todayCount := Count(rows, Between(today, tomorrow));
    var acc: map<Status, nat> := map[];
    var i := 0;
    while i < |groups|
      invariant 0 <= i <= |groups|
      invariant forall s :: s in acc ==> acc[s] == CountStatus(rows, s)
      invariant forall s :: s in acc <==> Listed(groups, i, s)
    {
      ListedNext(groups, i);
      acc := acc[groups[i].0 := groups[i].1];
      i := i + 1;
    }
    ListedAll(rows, groups);
    reply := Send(200, Stats(total, todayCount, acc), "Booking statistics retrieved successfully");
  }

  /** Some of the first `i` groups is the group of `s`. */
  predicate Listed(groups: seq<(Status, nat)>, i: nat, s: Status) {
    exists j :: 0 <= j < i && j < |groups| && groups[j].0 == s
  }

  lemma ListedNext(groups: seq<(Status, nat)>, i: nat)
    requires i < |groups|
    ensures forall s :: Listed(groups, i + 1, s) <==> Listed(groups, i, s) || groups[i].0 == s
  {
    forall s | Listed(groups, i + 1, s) && !Listed(groups, i, s)
      ensures groups[i].0 == s
    {
      var j :| 0 <= j < i + 1 && j < |groups| && groups[j].0 == s;
      assert j == i;
    }
  }

  lemma ListedAll(rows: seq<Row<Booking>>, groups: seq<(Status, nat)>)
    requires groups == StatusGroups(rows)
    ensures forall s :: Listed(groups, |groups|, s) <==> CountStatus(rows, s) > 0
  {
  }

  /** Every booking has exactly one of the four statuses. */
  lemma {:induction false} StatusCountsPartition(rows: seq<Row<Booking>>)
    ensures CountStatus(rows, Pending) + CountStatus(rows, Confirmed) +
            CountStatus(rows, Completed) + CountStatus(rows, Cancelled) == |rows|
  {
    if |rows| > 0 {
      StatusCountsPartition(rows[1..]);
    }
  }

  /** The sum of the counts a status map holds, a missing status counting 0. */
  function Tally(m: map<Status, nat>): nat {
    (if Pending in m then m[Pending] else 0) + (if Confirmed in m then m[Confirmed] else 0) +
    (if Completed in m then m[Completed] else 0) + (if Cancelled in m then m[Cancelled] else 0)
  }

  /** The `byStatus` counts of the statistics add up to `total`. */
  lemma ByStatusSumsToTotal(rows: seq<Row<Booking>>, byStatus: map<Status, nat>)
    requires forall s :: s in byStatus <==> CountStatus(rows, s) > 0
    requires forall s :: s in byStatus ==> byStatus[s] == CountStatus(rows, s)
    ensures Tally(byStatus) == |rows|
  {
    StatusCountsPartition(rows);
  }
}
