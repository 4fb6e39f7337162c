/**
 * Doctors. A doctor belongs to a doctor category, is looked up by email for uniqueness, and
 * is listed publicly only while active. An update copies every key of the request body onto
 * the stored doctor, one key at a time, and then saves it.
 */
module Doctors {
  import opened Wrappers
  import opened Envelope
  import opened Text
  import opened Table
  import opened Sorting
  import opened MongooseError
  import opened NamedCategories

  datatype Doctor = Doctor(
    name: string,
    category: Option<Id>,
    healthcareCenters: seq<string>,
    qualification: string,
    experience: int,
    specialties: seq<string>,
    services: seq<string>,
    contactNumber: int,
    email: string,
    availableDays: seq<string>,
    availableTime: string,
    location: string,
    isActive: bool)

  const DoctorNotFound := "Doctor not found"
  const CategoryNotFound := "Doctor category not found"
  const EmailTaken := "Doctor with this email already exists"
  const FieldsRequired := "All required fields must be filled"

  /** The query `{ email }`. */
  function EmailIs(email: string): Row<Doctor> -> bool {
    (d: Row<Doctor>) => d.rec.email == email
  }

  /** `findOne({ email })`. */
  function ByEmail(rows: seq<Row<Doctor>>, email: string): (r: Option<nat>)
    ensures r.Some? ==> r.value < |rows| && rows[r.value].rec.email == email
    ensures r.None? <==> forall k :: 0 <= k < |rows| ==> rows[k].rec.email != email
  {
    FirstWhere(rows, EmailIs(email))
  }

  predicate EmailsDistinct(rows: seq<Row<Doctor>>) {
    forall i, j :: 0 <= i < j < |rows| ==> rows[i].rec.email != rows[j].rec.email
  }

  /** The messages `save` reports for a doctor: each required string path left empty, in schema order. */
  function SaveErrors(d: Doctor): (errs: seq<string>)
    ensures |errs| == 0 <==>
              d.name != "" && d.qualification != "" && d.email != "" && d.availableTime != "" && d.location != ""
    ensures d.email == "" ==> RequiredMessage("email") in errs
  {
    (if d.name == "" then [RequiredMessage("name")] else []) +
    (if d.qualification == "" then [RequiredMessage("qualification")] else []) +
    (if d.email == "" then [RequiredMessage("email")] else []) +
    (if d.availableTime == "" then [RequiredMessage("availableTime")] else []) +
    (if d.location == "" then [RequiredMessage("location")] else [])
  }

  // ---------------------------------------------------------------------------
  // createDoctor

  datatype CreateBody = CreateBody(
    name: Option<string>,
    category: Option<Id>,
    healthcareCenters: Option<seq<string>>,
    qualification: Option<string>,
    experience: Option<int>,
    specialties: Option<seq<string>>,
    services: Option<seq<string>>,
    contactNumber: Option<int>,
    email: Option<string>,
    availableDays: Option<seq<string>>,
    availableTime: Option<string>,
    location: Option<string>,
    isActive: Option<bool>)

  /** The twelve truthiness checks; an array is truthy even when empty, a number when non-zero. */
  predicate RequiredPresent(b: CreateBody) {
    Present(b.name) && b.category.Some? && b.healthcareCenters.Some? && Present(b.qualification) &&
    NumPresent(b.experience) && b.specialties.Some? && b.services.Some? && NumPresent(b.contactNumber) &&
    Present(b.email) && b.availableDays.Some? && Present(b.availableTime) && Present(b.location)
  }

  function CreateDoctorCheck(doctors: seq<Row<Doctor>>, categories: seq<Row<Category>>, b: CreateBody): (r: Result<Doctor, Reply<Row<Doctor>>>)
    ensures !RequiredPresent(b) ==> r == Err(Fail(400, FieldsRequired))
    ensures RequiredPresent(b) && !HasId(categories, b.category.value) ==> r == Err(Fail(404, CategoryNotFound))
    ensures r.Ok? <==>
              RequiredPresent(b) && HasId(categories, b.category.value) && ByEmail(doctors, b.email.value).None?
    ensures RequiredPresent(b) && HasId(categories, b.category.value) && r.Err? ==> r.error == Fail(409, EmailTaken)
    ensures r.Ok? ==> r.value.isActive == (b.isActive == Some(true)) && r.value.email == b.email.value &&
                      r.value.category == b.category && r.value.experience != 0 && r.value.contactNumber != 0
    ensures r.Ok? ==> SaveErrors(r.value) == []
  {
    if !RequiredPresent(b) then Err(Fail(400, FieldsRequired))
    else if !HasId(categories, b.category.value) then Err(Fail(404, CategoryNotFound))
    else if ByEmail(doctors, b.email.value).Some? then Err(Fail(409, EmailTaken))
    else Ok(Doctor(b.name.value, b.category, b.healthcareCenters.value, b.qualification.value,
                   b.experience.value, b.specialties.value, b.services.value, b.contactNumber.value,
                   b.email.value, b.availableDays.value, b.availableTime.value, b.location.value,
                   b.isActive == Some(true)))
  }

  /** A create that passes its checks keeps emails distinct. */
  lemma CreateKeepsEmailsDistinct(doctors: seq<Row<Doctor>>, categories: seq<Row<Category>>, b: CreateBody, id: Id)
    requires EmailsDistinct(doctors) && CreateDoctorCheck(doctors, categories, b).Ok?
    ensures EmailsDistinct(doctors + [Row(id, CreateDoctorCheck(doctors, categories, b).value)])
  {
    var after := doctors + [Row(id, CreateDoctorCheck(doctors, categories, b).value)];
    forall i, j | 0 <= i < j < |after|
      ensures after[i].rec.email != after[j].rec.email
    {
      assert after[i] == doctors[i];
      if j < |doctors| {
        assert after[j] == doctors[j];
      }
    }
  }

  method CreateDoctor(doctors: Collection<Doctor>, categories: seq<Row<Category>>, b: CreateBody) returns (reply: Reply<Row<Doctor>>)
    requires doctors.Valid()
    modifies doctors
    ensures doctors.Valid()
    ensures CreateDoctorCheck(old(doctors.rows), categories, b).Err? ==>
              reply == CreateDoctorCheck(old(doctors.rows), categories, b).error && doctors.rows == old(doctors.rows)
    ensures CreateDoctorCheck(old(doctors.rows), categories, b).Ok? ==>
              Appended(old(doctors.rows), doctors.rows, CreateDoctorCheck(old(doctors.rows), categories, b).value) &&
              reply == Send(201, Last(doctors.rows), "Doctor created successfully")
  {
    match CreateDoctorCheck(doctors.rows, categories, b)
    case Err(e) =>
      reply := e;
    case Ok(d) =>
      var row := doctors.Insert(d);
      reply := Send(201, row, "Doctor created successfully");
  }

  // ---------------------------------------------------------------------------
  // updateDoctor

  /** One key of the update body with its value. */
  datatype Patch =
    | SetName(name: string)
    | SetCategory(category: Id)
    | SetHealthcareCenters(healthcareCenters: seq<string>)
    | SetQualification(qualification: string)
    | SetExperience(experience: int)
    | SetSpecialties(specialties: seq<string>)
    | SetServices(services: seq<string>)
    | SetContactNumber(contactNumber: int)
    | SetEmail(email: string)
    | SetAvailableDays(availableDays: seq<string>)
    | SetAvailableTime(availableTime: string)
    | SetLocation(location: string)
    | SetIsActive(isActive: bool)

  /** One step of the `forEach`. */
  function PatchOne(d: Doctor, p: Patch): Doctor {
    match p
    case SetName(v) => d.(name := v)
    case SetCategory(v) => d.(category := Some(v))
    case SetHealthcareCenters(v) => d.(healthcareCenters := v)
    case SetQualification(v) => d.(qualification := v)
    case SetExperience(v) => d.(experience := v)
    case SetSpecialties(v) => d.(specialties := v)
    case SetServices(v) => d.(services := v)
    case SetContactNumber(v) => d.(contactNumber := v)
    case SetEmail(v) => d.(email := v)
    case SetAvailableDays(v) => d.(availableDays := v)
    case SetAvailableTime(v) => d.(availableTime := v)
    case SetLocation(v) => d.(location := v)
    case SetIsActive(v) => d.(isActive := v)
  }

  /** The whole `forEach`, keys in body order. */
  function PatchAll(d: Doctor, ps: seq<Patch>): Doctor
    decreases |ps|
  {
    if |ps| == 0 then d else PatchOne(PatchAll(d, ps[..|ps| - 1]), ps[|ps| - 1])
  }

  /** `updateData.email`: the value of the body's last `email` key. */
  function LastEmail(ps: seq<Patch>): Option<string>
    decreases |ps|
  {
    if |ps| == 0 then None
    else if ps[|ps| - 1].SetEmail? then Some(ps[|ps| - 1].email)
    else LastEmail(ps[..|ps| - 1])
  }

  /** `updateData.category`. */
  function LastCategory(ps: seq<Patch>): Option<Id>
    decreases |ps|
  {
    if |ps| == 0 then None
    else if ps[|ps| - 1].SetCategory? then Some(ps[|ps| - 1].category)
    else LastCategory(ps[..|ps| - 1])
  }

  /** `updateData.isActive`. */
  function LastIsActive(ps: seq<Patch>): Option<bool>
    decreases |ps|
  {
    if |ps| == 0 then None
    else if ps[|ps| - 1].SetIsActive? then Some(ps[|ps| - 1].isActive)
    else LastIsActive(ps[..|ps| - 1])
  }

  /**
   * The values the handler checks are the values it stores: after the `forEach` the doctor's
   * email, category and active flag are those of the body when it has them, and unchanged
   * otherwise.
   */
  lemma {:induction false} PatchAllStoresLast(d: Doctor, ps: seq<Patch>)
    ensures PatchAll(d, ps).email == LastEmail(ps).GetOr(d.email)
    ensures PatchAll(d, ps).category == (if LastCategory(ps).Some? then LastCategory(ps) else d.category)
    ensures PatchAll(d, ps).isActive == LastIsActive(ps).GetOr(d.isActive)
    decreases |ps|
  {
    if |ps| > 0 {
      PatchAllStoresLast(d, ps[..|ps| - 1]);
    }
  }

  /** The `forEach` loop over the body's keys, assigning each onto the doctor. */
  method ApplyPatches(d: Doctor, ps: seq<Patch>) returns (r: Doctor)
    ensures r == PatchAll(d, ps)
  {
    r := d;
    var i := 0;
    while i < |ps|
      invariant 0 <= i <= |ps|
      invariant r == PatchAll(d, ps[..i])
    {
      assert ps[..i + 1][..i] == ps[..i];
      r := PatchOne(r, ps[i]);
      i := i + 1;
    }
    assert ps[..|ps|] == ps;
  }

  /** update's checks: the position of the doctor to change, or the error reply. */
  function UpdateDoctorCheck(doctors: seq<Row<Doctor>>, categories: seq<Row<Category>>, id: Id, ps: seq<Patch>): (r: Result<nat, Reply<Row<Doctor>>>)
    ensures !HasId(doctors, id) ==> r == Err(Fail(404, DoctorNotFound))
    ensures HasId(doctors, id) && LastCategory(ps).Some? && !HasId(categories, LastCategory(ps).value) ==>
              r == Err(Fail(404, CategoryNotFound))
    ensures r.Ok? <==>
              HasId(doctors, id) &&
              (LastCategory(ps).Some? ==> HasId(categories, LastCategory(ps).value)) &&
              !(Present(LastEmail(ps)) && LastEmail(ps).value != doctors[IndexOf(doctors, id).value].rec.email &&
                ByEmail(doctors, LastEmail(ps).value).Some?)
    ensures r.Ok? ==> r.value == IndexOf(doctors, id).value
  {
    match IndexOf(doctors, id)
    case None => Err(Fail(404, DoctorNotFound))
    case Some(i) =>
      if LastCategory(ps).Some? && !HasId(categories, LastCategory(ps).value) then Err(Fail(404, CategoryNotFound))
      else if Present(LastEmail(ps)) && LastEmail(ps).value != doctors[i].rec.email &&
              ByEmail(doctors, LastEmail(ps).value).Some? then Err(Fail(409, EmailTaken))
      else Ok(i)
  }

  /** An update that is saved keeps emails distinct. */
  lemma UpdateKeepsEmailsDistinct(doctors: seq<Row<Doctor>>, categories: seq<Row<Category>>, id: Id, ps: seq<Patch>)
    requires EmailsDistinct(doctors) && UpdateDoctorCheck(doctors, categories, id, ps).Ok?
    requires var i := UpdateDoctorCheck(doctors, categories, id, ps).value;
             SaveErrors(PatchAll(doctors[i].rec, ps)) == []
    ensures var i := UpdateDoctorCheck(doctors, categories, id, ps).value;
            EmailsDistinct(doctors[i := Row(id, PatchAll(doctors[i].rec, ps))])
  {
    var i := UpdateDoctorCheck(doctors, categories, id, ps).value;
    var d := PatchAll(doctors[i].rec, ps);
    PatchAllStoresLast(doctors[i].rec, ps);
    var after := doctors[i := Row(id, d)];
    forall a, b | 0 <= a < b < |after|
      ensures after[a].rec.email != after[b].rec.email
    {
      if a != i && b != i {
        assert after[a] == doctors[a] && after[b] == doctors[b];
      } else if d.email != doctors[i].rec.email {
        assert ByEmail(doctors, d.email).None?;
      }
    }
  }

  method UpdateDoctor(doctors: Collection<Doctor>, categories: seq<Row<Category>>, id: Id, ps: seq<Patch>) returns (reply: Reply<Row<Doctor>>)
    requires doctors.Valid()
    modifies doctors
    ensures doctors.Valid()
    ensures UpdateDoctorCheck(old(doctors.rows), categories, id, ps).Err? ==>
              reply == UpdateDoctorCheck(old(doctors.rows), categories, id, ps).error && doctors.rows == old(doctors.rows)
    ensures UpdateDoctorCheck(old(doctors.rows), categories, id, ps).Ok? ==>
              var i := UpdateDoctorCheck(old(doctors.rows), categories, id, ps).value;
              var d := PatchAll(old(doctors.rows)[i].rec, ps);
              if SaveErrors(d) == [] then
                ReplacedAt(old(doctors.rows), doctors.rows, i, d) &&
                reply == Send(200, doctors.rows[i], "Doctor updated successfully")
              else
                doctors.rows == old(doctors.rows) && reply == HandleMongoErrors(ValidationError(SaveErrors(d)))
  {
    match UpdateDoctorCheck(doctors.rows, categories, id, ps)
    case Err(e) =>
      reply := e;
    case Ok(i) =>
      var d := ApplyPatches(doctors.rows[i].rec, ps);
      var errs := SaveErrors(d);
      if errs != [] {
        reply := HandleMongoErrors(ValidationError(errs));
      } else {
        doctors.Replace(i, d);
        reply := Send(200, doctors.rows[i], "Doctor updated successfully");
      }
  }

  // ---------------------------------------------------------------------------
  // deleteDoctor

  method DeleteDoctor(doctors: Collection<Doctor>, id: Id) returns (reply: Reply<Row<Doctor>>)
    requires doctors.Valid()
    modifies doctors
    ensures doctors.Valid()
    ensures !HasId(old(doctors.rows), id) ==> reply == Fail(404, DoctorNotFound) && doctors.rows == old(doctors.rows)
    ensures HasId(old(doctors.rows), id) ==>
              var i := IndexOf(old(doctors.rows), id).value;
              doctors.rows == old(doctors.rows)[..i] + old(doctors.rows)[i + 1..] &&
              reply == Reply(200, None, "Doctor deleted successfully")
  {
    match IndexOf(doctors.rows, id)
    case None =>
      reply := Fail(404, DoctorNotFound);
    case Some(i) =>
      doctors.Delete(i);
      reply := Reply(200, None, "Doctor deleted successfully");
  }

  // ---------------------------------------------------------------------------
  // Listings, all ordered by name

  function NameOrder(d: Row<Doctor>): seq<int> {
    AscString(d.rec.name)
  }

  function AllDoctors(rows: seq<Row<Doctor>>): (r: Reply<seq<Row<Doctor>>>)
    ensures r.statusCode == 200 && r.data.Some?
    ensures SortedBy(r.data.value, NameOrder) && multiset(r.data.value) == multiset(rows)
  {
    Send(200, SortBy(rows, NameOrder), "Doctors retrieved successfully")
  }

  function DoctorById(rows: seq<Row<Doctor>>, id: Id): (r: Reply<Row<Doctor>>)
    ensures r.statusCode == 404 <==> !HasId(rows, id)
    ensures r.statusCode == 404 ==> r == Fail(404, DoctorNotFound)
    ensures r.statusCode != 404 ==> r.statusCode == 200 && r.data.Some? && r.data.value in rows && r.data.value.id == id
  {
    match Get(rows, id)
    case None => Fail(404, DoctorNotFound)
    case Some(d) => Send(200, d, "Doctor retrieved successfully")
  }

  /** Some specialty matches the pattern `q` case-insensitively. */
  predicate SpecialtyMatches(d: Doctor, q: string) {
    exists k :: 0 <= k < |d.specialties| && ContainsIgnoringCase(d.specialties[k], q)
  }

  /**
   * The search criteria: active, and each supplied criterion. The active and by-category
   * listings are this search with fewer criteria.
   */
  function SearchCriteria(query: Option<string>, category: Option<Id>, location: Option<string>): Row<Doctor> -> bool {
    (d: Row<Doctor>) =>
      d.rec.isActive &&
      (Present(query) ==>
         ContainsIgnoringCase(d.rec.name, query.value) ||
         ContainsIgnoringCase(d.rec.qualification, query.value) ||
         SpecialtyMatches(d.rec, query.value)) &&
      (category.Some? ==> d.rec.category == category) &&
      (Present(location) ==> ContainsIgnoringCase(d.rec.location, location.value))
  }

  function ActiveDoctors(rows: seq<Row<Doctor>>): (r: Reply<seq<Row<Doctor>>>)
    ensures r.statusCode == 200 && r.data.Some?
    ensures SortedBy(r.data.value, NameOrder)
    ensures forall d :: d in r.data.value <==> d in rows && d.rec.isActive
    ensures CountsOf(r.data.value, rows, SearchCriteria(None, None, None))
  {
    var found := Where(rows, SearchCriteria(None, None, None));
    SortByMembers(found, NameOrder);
    Send(200, SortBy(found, NameOrder), "Active doctors retrieved successfully")
  }

  function DoctorsByCategory(rows: seq<Row<Doctor>>, categoryId: Id): (r: Reply<seq<Row<Doctor>>>)
    ensures r.statusCode == 200 && r.data.Some?
    ensures SortedBy(r.data.value, NameOrder)
    ensures forall d :: d in r.data.value <==> d in rows && d.rec.category == Some(categoryId) && d.rec.isActive
    ensures CountsOf(r.data.value, rows, SearchCriteria(None, Some(categoryId), None))
  {
    var found := Where(rows, SearchCriteria(None, Some(categoryId), None));
    SortByMembers(found, NameOrder);
    Send(200, SortBy(found, NameOrder), "Doctors by category retrieved successfully")
  }

  function SearchDoctors(rows: seq<Row<Doctor>>, query: Option<string>, category: Option<Id>, location: Option<string>): (r: Reply<seq<Row<Doctor>>>)
    ensures r.statusCode == 200 && r.data.Some?
    ensures SortedBy(r.data.value, NameOrder)
    ensures forall d :: d in r.data.value <==>
              d in rows && d.rec.isActive &&
              (Present(query) ==>
                 ContainsIgnoringCase(d.rec.name, query.value) ||
                 ContainsIgnoringCase(d.rec.qualification, query.value) ||
                 SpecialtyMatches(d.rec, query.value)) &&
              (category.Some? ==> d.rec.category == category) &&
              (Present(location) ==> ContainsIgnoringCase(d.rec.location, location.value))
    ensures CountsOf(r.data.value, rows, SearchCriteria(query, category, location))
  {
    var found := Where(rows, SearchCriteria(query, category, location));
    SortByMembers(found, NameOrder);
    Send(200, SortBy(found, NameOrder), "Doctors search results")
  }
}
