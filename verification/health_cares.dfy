/**
 * Healthcare centres. A centre belongs to a health category, is looked up by email for
 * uniqueness, and is listed publicly only while active. An update copies every key of the
 * request body onto the stored centre, one key at a time, and then saves it.
 */
module HealthCares {
  import opened Wrappers
  import opened Envelope
  import opened Text
  import opened Table
  import opened Sorting
  import opened MongooseError
  import opened NamedCategories

  datatype HealthCare = HealthCare(
    name: string,
    category: Id,
    address: string,
    pincode: Option<int>,      // default null
    contactNumber: string,
    email: string,
    specialties: seq<string>,
    isActive: bool)

  /** The JSON value of `specialties`: a single string or an array. */
  datatype Specialties = One(s: string) | Many(list: seq<string>)

  /** `Array.isArray(v) ? v : [v]`. */
  function AsList(v: Specialties): (r: seq<string>)
    ensures v.One? ==> r == [v.s]
    ensures v.Many? ==> r == v.list
  {
    match v
    case One(s) => [s]
    case Many(list) => list
  }

  /** Truthiness of `specialties`: an array always, a string when non-empty. */
  predicate SpecialtiesPresent(v: Option<Specialties>) {
    v.Some? && (v.value.One? ==> v.value.s != "")
  }

  const CenterNotFound := "Healthcare center not found"
  const CategoryNotFound := "Health category not found"
  const EmailTaken := "Healthcare center with this email already exists"
  const FieldsRequired := "All required fields must be filled"

  /** The query `{ email }`. */
  function EmailIs(email: string): Row<HealthCare> -> bool {
    (h: Row<HealthCare>) => h.rec.email == email
  }

  /** `findOne({ email })`. */
  function ByEmail(rows: seq<Row<HealthCare>>, email: string): (r: Option<nat>)
    ensures r.Some? ==> r.value < |rows| && rows[r.value].rec.email == email
    ensures r.None? <==> forall k :: 0 <= k < |rows| ==> rows[k].rec.email != email
  {
    FirstWhere(rows, EmailIs(email))
  }

  predicate EmailsDistinct(rows: seq<Row<HealthCare>>) {
    forall i, j :: 0 <= i < j < |rows| ==> rows[i].rec.email != rows[j].rec.email
  }

  /** The messages `save` reports for a centre: each required string path left empty, in schema order. */
  function SaveErrors(h: HealthCare): (errs: seq<string>)
    ensures |errs| == 0 <==> h.name != "" && h.address != "" && h.contactNumber != "" && h.email != ""
    ensures h.email == "" ==> RequiredMessage("email") in errs
  {
    (if h.name == "" then [RequiredMessage("name")] else []) +
    (if h.address == "" then [RequiredMessage("address")] else []) +
    (if h.contactNumber == "" then [RequiredMessage("contactNumber")] else []) +
    (if h.email == "" then [RequiredMessage("email")] else [])
  }

  // ---------------------------------------------------------------------------
  // createHealthcareCenter

  datatype CreateBody = CreateBody(
    name: Option<string>,
    category: Option<Id>,
    address: Option<string>,
    pincode: Option<int>,
    contactNumber: Option<string>,
    email: Option<string>,
    specialties: Option<Specialties>,
    isActive: Option<bool>)

  predicate RequiredPresent(body: CreateBody) {
    Present(body.name) && body.category.Some? && Present(body.address) &&
    Present(body.contactNumber) && Present(body.email) && SpecialtiesPresent(body.specialties)
  }

  function CreateCenterCheck(centers: seq<Row<HealthCare>>, categories: seq<Row<Category>>, body: CreateBody): (r: Result<HealthCare, Reply<Row<HealthCare>>>)
    ensures !RequiredPresent(body) ==> r == Err(Fail(400, FieldsRequired))
    ensures RequiredPresent(body) && !HasId(categories, body.category.value) ==> r == Err(Fail(404, CategoryNotFound))
    ensures r.Ok? <==>
              RequiredPresent(body) && HasId(categories, body.category.value) &&
              ByEmail(centers, body.email.value).None?
    ensures RequiredPresent(body) && HasId(categories, body.category.value) && r.Err? ==> r.error == Fail(409, EmailTaken)
    ensures r.Ok? ==> r.value.specialties == AsList(body.specialties.value) &&
                      r.value.isActive == (body.isActive == Some(true)) &&
                      r.value.pincode == body.pincode && r.value.category == body.category.value &&
                      r.value.email == body.email.value
    ensures r.Ok? ==> SaveErrors(r.value) == []
  {
    if !RequiredPresent(body) then Err(Fail(400, FieldsRequired))
    else if !HasId(categories, body.category.value) then Err(Fail(404, CategoryNotFound))
    else if ByEmail(centers, body.email.value).Some? then Err(Fail(409, EmailTaken))
    else Ok(HealthCare(body.name.value, body.category.value, body.address.value, body.pincode,
                       body.contactNumber.value, body.email.value, AsList(body.specialties.value),
                       body.isActive == Some(true)))
  }

  /** A create that passes its checks keeps emails distinct. */
  lemma CreateKeepsEmailsDistinct(centers: seq<Row<HealthCare>>, categories: seq<Row<Category>>, body: CreateBody, id: Id)
    requires EmailsDistinct(centers) && CreateCenterCheck(centers, categories, body).Ok?
    ensures EmailsDistinct(centers + [Row(id, CreateCenterCheck(centers, categories, body).value)])
  {
    var after := centers + [Row(id, CreateCenterCheck(centers, categories, body).value)];
    forall i, j | 0 <= i < j < |after|
      ensures after[i].rec.email != after[j].rec.email
    {
      assert after[i] == centers[i];
      if j < |centers| {
        assert after[j] == centers[j];
      }
    }
  }

  method CreateCenter(centers: Collection<HealthCare>, categories: seq<Row<Category>>, body: CreateBody) returns (reply: Reply<Row<HealthCare>>)
    requires centers.Valid()
    modifies centers
    ensures centers.Valid()
    ensures CreateCenterCheck(old(centers.rows), categories, body).Err? ==>
              reply == CreateCenterCheck(old(centers.rows), categories, body).error && centers.rows == old(centers.rows)
    ensures CreateCenterCheck(old(centers.rows), categories, body).Ok? ==>
              Appended(old(centers.rows), centers.rows, CreateCenterCheck(old(centers.rows), categories, body).value) &&
              reply == Send(201, Last(centers.rows), "Healthcare center created successfully")
  {
    match CreateCenterCheck(centers.rows, categories, body)
    case Err(e) =>
      reply := e;
    case Ok(h) =>
      var row := centers.Insert(h);
      reply := Send(201, row, "Healthcare center created successfully");
  }

  // ---------------------------------------------------------------------------
  // updateHealthcareCenter

  /** One key of the update body with its value. */
  datatype Patch =
    | SetName(name: string)
    | SetCategory(category: Id)
    | SetAddress(address: string)
    | SetPincode(pincode: int)
    | SetContactNumber(contactNumber: string)
    | SetEmail(email: string)
    | SetSpecialties(specialties: Specialties)
    | SetIsActive(isActive: bool)

  /** One step of the `forEach`: a string `specialties` is stored as a one-element list. */
  function PatchOne(h: HealthCare, p: Patch): HealthCare {
    match p
    case SetName(v) => h.(name := v)
    case SetCategory(v) => h.(category := v)
    case SetAddress(v) => h.(address := v)
    case SetPincode(v) => h.(pincode := Some(v))
    case SetContactNumber(v) => h.(contactNumber := v)
    case SetEmail(v) => h.(email := v)
    case SetSpecialties(v) => h.(specialties := AsList(v))
    case SetIsActive(v) => h.(isActive := v)
  }

  /** The whole `forEach`, keys in body order. */
  function PatchAll(h: HealthCare, ps: seq<Patch>): HealthCare
    decreases |ps|
  {
    if |ps| == 0 then h else PatchOne(PatchAll(h, ps[..|ps| - 1]), ps[|ps| - 1])
  }

  /** `updateData.email`: the value of the body's last `email` key. */
  function LastEmail(ps: seq<Patch>): Option<string>
    decreases |ps|
  {
    if |ps| == 0 then None
    else if ps[|ps| - 1].SetEmail? then Some(ps[|ps| - 1].email)
    else LastEmail(ps[..|ps| - 1])
  }

  /** `updateData.category`. */
  function LastCategory(ps: seq<Patch>): Option<Id>
    decreases |ps|
  {
    if |ps| == 0 then None
    else if ps[|ps| - 1].SetCategory? then Some(ps[|ps| - 1].category)
    else LastCategory(ps[..|ps| - 1])
  }

  /** `updateData.specialties`. */
  function LastSpecialties(ps: seq<Patch>): Option<Specialties>
    decreases |ps|
  {
    if |ps| == 0 then None
    else if ps[|ps| - 1].SetSpecialties? then Some(ps[|ps| - 1].specialties)
    else LastSpecialties(ps[..|ps| - 1])
  }

  /**
   * The values the handler checks are the values it stores: after the `forEach` the centre's
   * email and category are those of the body when the body has them, and unchanged otherwise;
   * its specialties are the body's, a single string wrapped into a list.
   */
  lemma {:induction false} PatchAllStoresLast(h: HealthCare, ps: seq<Patch>)
    ensures PatchAll(h, ps).email == LastEmail(ps).GetOr(h.email)
    ensures PatchAll(h, ps).category == LastCategory(ps).GetOr(h.category)
    ensures PatchAll(h, ps).specialties ==
              (if LastSpecialties(ps).Some? then AsList(LastSpecialties(ps).value) else h.specialties)
    decreases |ps|
  {
    if |ps| > 0 {
      PatchAllStoresLast(h, ps[..|ps| - 1]);
    }
  }

  /** The `forEach` loop over the body's keys, assigning each onto the centre. */
  method ApplyPatches(h: HealthCare, ps: seq<Patch>) returns (r: HealthCare)
    ensures r == PatchAll(h, ps)
  {
    r := h;
    var i := 0;
    while i < |ps|
      invariant 0 <= i <= |ps|
      invariant r == PatchAll(h, ps[..i])
    {
      assert ps[..i + 1][..i] == ps[..i];
      r := PatchOne(r, ps[i]);
      i := i + 1;
    }
    assert ps[..|ps|] == ps;
  }

  /** update's checks: the position of the centre to change, or the error reply. */
  function UpdateCenterCheck(centers: seq<Row<HealthCare>>, categories: seq<Row<Category>>, id: Id, ps: seq<Patch>): (r: Result<nat, Reply<Row<HealthCare>>>)
    ensures !HasId(centers, id) ==> r == Err(Fail(404, CenterNotFound))
    ensures HasId(centers, id) && LastCategory(ps).Some? && !HasId(categories, LastCategory(ps).value) ==>
              r == Err(Fail(404, CategoryNotFound))
    ensures r.Ok? <==>
              HasId(centers, id) &&
              (LastCategory(ps).Some? ==> HasId(categories, LastCategory(ps).value)) &&
              !(Present(LastEmail(ps)) && LastEmail(ps).value != centers[IndexOf(centers, id).value].rec.email &&
                ByEmail(centers, LastEmail(ps).value).Some?)
    ensures r.Ok? ==> r.value == IndexOf(centers, id).value
  {
    match IndexOf(centers, id)
    case None => Err(Fail(404, CenterNotFound))
    case Some(i) =>
      if LastCategory(ps).Some? && !HasId(categories, LastCategory(ps).value) then Err(Fail(404, CategoryNotFound))
      else if Present(LastEmail(ps)) && LastEmail(ps).value != centers[i].rec.email &&
              ByEmail(centers, LastEmail(ps).value).Some? then Err(Fail(409, EmailTaken))
      else Ok(i)
  }

  /** An update that is saved keeps emails distinct. */
  lemma UpdateKeepsEmailsDistinct(centers: seq<Row<HealthCare>>, categories: seq<Row<Category>>, id: Id, ps: seq<Patch>)
    requires EmailsDistinct(centers) && UpdateCenterCheck(centers, categories, id, ps).Ok?
    requires var i := UpdateCenterCheck(centers, categories, id, ps).value;
             SaveErrors(PatchAll(centers[i].rec, ps)) == []
    ensures var i := UpdateCenterCheck(centers, categories, id, ps).value;
            EmailsDistinct(centers[i := Row(id, PatchAll(centers[i].rec, ps))])
  {
    var i := UpdateCenterCheck(centers, categories, id, ps).value;
    var h := PatchAll(centers[i].rec, ps);
    PatchAllStoresLast(centers[i].rec, ps);
    var after := centers[i := Row(id, h)];
    forall a, b | 0 <= a < b < |after|
      ensures after[a].rec.email != after[b].rec.email
    {
      if a != i && b != i {
        assert after[a] == centers[a] && after[b] == centers[b];
      } else if h.email != centers[i].rec.email {
        assert ByEmail(centers, h.email).None?;
      }
    }
  }

  method UpdateCenter(centers: Collection<HealthCare>, categories: seq<Row<Category>>, id: Id, ps: seq<Patch>) returns (reply: Reply<Row<HealthCare>>)
    requires centers.Valid()
    modifies centers
    ensures centers.Valid()
    ensures UpdateCenterCheck(old(centers.rows), categories, id, ps).Err? ==>
              reply == UpdateCenterCheck(old(centers.rows), categories, id, ps).error && centers.rows == old(centers.rows)
    ensures UpdateCenterCheck(old(centers.rows), categories, id, ps).Ok? ==>
              var i := UpdateCenterCheck(old(centers.rows), categories, id, ps).value;
              var h := PatchAll(old(centers.rows)[i].rec, ps);
              if SaveErrors(h) == [] then
                ReplacedAt(old(centers.rows), centers.rows, i, h) &&
                reply == Send(200, centers.rows[i], "Healthcare center updated successfully")
              else
                centers.rows == old(centers.rows) && reply == HandleMongoErrors(ValidationError(SaveErrors(h)))
  {
    match UpdateCenterCheck(centers.rows, categories, id, ps)
    case Err(e) =>
      reply := e;
    case Ok(i) =>
      var h := ApplyPatches(centers.rows[i].rec, ps);
      var errs := SaveErrors(h);
      if errs != [] {
        reply := HandleMongoErrors(ValidationError(errs));
      } else {
        centers.Replace(i, h);
        reply := Send(200, centers.rows[i], "Healthcare center updated successfully");
      }
  }

  /** Every centre's category exists among the health categories. */
  predicate CategoriesExist(centers: seq<Row<HealthCare>>, categories: seq<Row<Category>>) {
    forall k :: 0 <= k < |centers| ==> HasId(categories, centers[k].rec.category)
  }

  /** A created centre refers to an existing category. */
  lemma CreateKeepsCategoriesExist(centers: seq<Row<HealthCare>>, categories: seq<Row<Category>>, body: CreateBody, id: Id)
    requires CategoriesExist(centers, categories) && CreateCenterCheck(centers, categories, body).Ok?
    ensures CategoriesExist(centers + [Row(id, CreateCenterCheck(centers, categories, body).value)], categories)
  {
    var after := centers + [Row(id, CreateCenterCheck(centers, categories, body).value)];
    forall k | 0 <= k < |after|
      ensures HasId(categories, after[k].rec.category)
    {
      if k < |centers| {
        assert after[k] == centers[k];
      }
    }
  }

  /** An updated centre still refers to an existing category. */
  lemma UpdateKeepsCategoriesExist(centers: seq<Row<HealthCare>>, categories: seq<Row<Category>>, id: Id, ps: seq<Patch>)
    requires CategoriesExist(centers, categories) && UpdateCenterCheck(centers, categories, id, ps).Ok?
    ensures var i := UpdateCenterCheck(centers, categories, id, ps).value;
            CategoriesExist(centers[i := Row(id, PatchAll(centers[i].rec, ps))], categories)
  {
    var i := UpdateCenterCheck(centers, categories, id, ps).value;
    PatchAllStoresLast(centers[i].rec, ps);
    var after := centers[i := Row(id, PatchAll(centers[i].rec, ps))];
    forall k | 0 <= k < |after|
      ensures HasId(categories, after[k].rec.category)
    {
      if k != i {
        assert after[k] == centers[k];
      }
    }
  }

  // ---------------------------------------------------------------------------
  // deleteHealthcareCenter: bookings that reference the centre are not looked at.

  method DeleteCenter(centers: Collection<HealthCare>, id: Id) returns (reply: Reply<Row<HealthCare>>)
    requires centers.Valid()
    modifies centers
    ensures centers.Valid()
    ensures !HasId(old(centers.rows), id) ==> reply == Fail(404, CenterNotFound) && centers.rows == old(centers.rows)
    ensures HasId(old(centers.rows), id) ==>
              var i := IndexOf(old(centers.rows), id).value;
              centers.rows == old(centers.rows)[..i] + old(centers.rows)[i + 1..] &&
              reply == Reply(200, None, "Healthcare center deleted successfully")
  {
    match IndexOf(centers.rows, id)
    case None =>
      reply := Fail(404, CenterNotFound);
    case Some(i) =>
      centers.Delete(i);
      reply := Reply(200, None, "Healthcare center deleted successfully");
  }

  // ---------------------------------------------------------------------------
  // Listings, all ordered by name

  function NameOrder(h: Row<HealthCare>): seq<int> {
    AscString(h.rec.name)
  }

  function IsActive(h: Row<HealthCare>): bool {
    h.rec.isActive
  }

  function AllCenters(rows: seq<Row<HealthCare>>): (r: Reply<seq<Row<HealthCare>>>)
    ensures r.statusCode == 200 && r.data.Some?
    ensures SortedBy(r.data.value, NameOrder) && multiset(r.data.value) == multiset(rows)
  {
    Send(200, SortBy(rows, NameOrder), "Healthcare centers retrieved successfully")
  }

  function ActiveCenters(rows: seq<Row<HealthCare>>): (r: Reply<seq<Row<HealthCare>>>)
    ensures r.statusCode == 200 && r.data.Some?
    ensures SortedBy(r.data.value, NameOrder)
    ensures forall h :: h in r.data.value <==> h in rows && h.rec.isActive
    ensures CountsOf(r.data.value, rows, IsActive)
  {
    SortByMembers(Where(rows, IsActive), NameOrder);
    Send(200, SortBy(Where(rows, IsActive), NameOrder), "Active healthcare centers retrieved successfully")
  }

  function CenterById(rows: seq<Row<HealthCare>>, id: Id): (r: Reply<Row<HealthCare>>)
    ensures r.statusCode == 404 <==> !HasId(rows, id)
    ensures r.statusCode == 404 ==> r == Fail(404, CenterNotFound)
    ensures r.statusCode != 404 ==> r.statusCode == 200 && r.data.Some? && r.data.value in rows && r.data.value.id == id
  {
    match Get(rows, id)
    case None => Fail(404, CenterNotFound)
    case Some(h) => Send(200, h, "Healthcare center retrieved successfully")
  }

  function InCategory(categoryId: Id): Row<HealthCare> -> bool {
    (h: Row<HealthCare>) => h.rec.category == categoryId && h.rec.isActive
  }

  function CentersByCategory(rows: seq<Row<HealthCare>>, categoryId: Id): (r: Reply<seq<Row<HealthCare>>>)
    ensures r.statusCode == 200 && r.data.Some?
    ensures SortedBy(r.data.value, NameOrder)
    ensures forall h :: h in r.data.value <==> h in rows && h.rec.category == categoryId && h.rec.isActive
    ensures CountsOf(r.data.value, rows, InCategory(categoryId))
  {
    SortByMembers(Where(rows, InCategory(categoryId)), NameOrder);
    Send(200, SortBy(Where(rows, InCategory(categoryId)), NameOrder),
         "Healthcare centers by category retrieved successfully")
  }

  /** Some specialty matches the pattern `q` case-insensitively (`$in: [new RegExp(q, "i")]`). */
  predicate SpecialtyMatches(h: HealthCare, q: string) {
    exists k :: 0 <= k < |h.specialties| && ContainsIgnoringCase(h.specialties[k], q)
  }

  /** The search criteria: active, and each supplied criterion. */
  function SearchCriteria(query: Option<string>, category: Option<Id>, pincode: Option<int>): Row<HealthCare> -> bool {
    (h: Row<HealthCare>) =>
      h.rec.isActive &&
      (Present(query) ==>
         ContainsIgnoringCase(h.rec.name, query.value) || SpecialtyMatches(h.rec, query.value) ||
         ContainsIgnoringCase(h.rec.address, query.value)) &&
      (category.Some? ==> h.rec.category == category.value) &&
      (pincode.Some? ==> h.rec.pincode == pincode)
  }

  /**
   * searchHealthcareCenters. A `pincode` that `parseInt` cannot read is cast by the database
   * and rejected as a cast error on `pincode`.
   */
  function SearchCenters(rows: seq<Row<HealthCare>>, query: Option<string>, category: Option<Id>, pincode: Option<NumberText>): (r: Reply<seq<Row<HealthCare>>>)
    ensures pincode.Some? && pincode.value.text != "" && pincode.value.parsed.None? ==>
              r == HandleMongoErrors(CastError("pincode")) && r.statusCode == 400
    ensures r.statusCode == 200 <==> !(pincode.Some? && pincode.value.text != "" && pincode.value.parsed.None?)
    ensures r.statusCode == 200 ==> r.data.Some? && SortedBy(r.data.value, NameOrder)
    ensures r.statusCode == 200 ==>
              forall h :: h in r.data.value <==>
                h in rows && h.rec.isActive &&
                (Present(query) ==>
                   ContainsIgnoringCase(h.rec.name, query.value) || SpecialtyMatches(h.rec, query.value) ||
                   ContainsIgnoringCase(h.rec.address, query.value)) &&
                (category.Some? ==> h.rec.category == category.value) &&
                (pincode.Some? && pincode.value.text != "" ==> h.rec.pincode == pincode.value.parsed)
    ensures r.statusCode == 200 ==>
              CountsOf(r.data.value, rows,
                       SearchCriteria(query, category, if pincode.Some? && pincode.value.text != "" then pincode.value.parsed else None))
  {
    if pincode.Some? && pincode.value.text != "" && pincode.value.parsed.None? then
      HandleMongoErrors(CastError("pincode"))
    else
      var pin := if pincode.Some? && pincode.value.text != "" then pincode.value.parsed else None;
      var found := Where(rows, SearchCriteria(query, category, pin));
      SortByMembers(found, NameOrder);
      Send(200, SortBy(found, NameOrder), "Healthcare centers search results")
  }

  /** getHealthcareCentersByPincode. */
  function CentersByPincode(rows: seq<Row<HealthCare>>, pincode: NumberText): (r: Reply<seq<Row<HealthCare>>>)
    ensures pincode.parsed.None? ==> r == HandleMongoErrors(CastError("pincode")) && r.statusCode == 400
    ensures pincode.parsed.Some? ==>
              r.statusCode == 200 && r.data.Some? && SortedBy(r.data.value, NameOrder) &&
              forall h :: h in r.data.value <==> h in rows && h.rec.pincode == pincode.parsed && h.rec.isActive
    ensures pincode.parsed.Some? ==> CountsOf(r.data.value, rows, SearchCriteria(None, None, pincode.parsed))
  {
    if pincode.parsed.None? then HandleMongoErrors(CastError("pincode"))
    else
      var found := Where(rows, SearchCriteria(None, None, pincode.parsed));
      SortByMembers(found, NameOrder);
      Send(200, SortBy(found, NameOrder), "Healthcare centers by pincode retrieved successfully")
  }
}
