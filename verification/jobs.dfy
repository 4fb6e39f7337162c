/**
 * Jobs. A job belongs to a job category. Any number of identical jobs may be stored, since
 * create looks only at the category. An update copies every key of the request body onto
 * the stored job, one key at a time, and then saves it. None of the listings filters on the
 * active flag.
 */
module Jobs {
  import opened Wrappers
  import opened Envelope
  import opened Text
  import opened Table
  import opened Sorting
  import opened MongooseError
  import opened NamedCategories

  datatype Job = Job(
    title: string,
    category: Id,
    description: string,
    employmentType: string,   // one of EmploymentTypes once saved
    experienceRequired: int,
    salaryRange: string,
    location: string,
    vacancies: int,
    isActive: bool)

  const JobNotFound := "Job not found"
  const CategoryNotFound := "Job category not found"
  const FieldsRequired := "All required fields must be filled"

  /** The `employmentType` enumeration of the schema. */
  predicate KnownEmploymentType(t: string) {
    t == "Full-Time" || t == "Part-Time" || t == "Contract" || t == "Internship"
  }

  /** What `save` reports of a job: required strings left empty and an employment type outside the enum. */
  function SaveErrors(j: Job): (errs: seq<string>)
    ensures errs == [] <==>
              j.title != "" && j.description != "" && KnownEmploymentType(j.employmentType) &&
              j.salaryRange != "" && j.location != ""
    ensures j.employmentType != "" && !KnownEmploymentType(j.employmentType) ==>
              EnumMessage(j.employmentType, "employmentType") in errs
  {
    (if j.title == "" then [RequiredMessage("title")] else []) +
    (if j.description == "" then [RequiredMessage("description")] else []) +
    (if j.employmentType == "" then [RequiredMessage("employmentType")]
     else if !KnownEmploymentType(j.employmentType) then [EnumMessage(j.employmentType, "employmentType")] else []) +
    (if j.salaryRange == "" then [RequiredMessage("salaryRange")] else []) +
    (if j.location == "" then [RequiredMessage("location")] else [])
  }

  /** Every job's category exists among the job categories. */
  predicate CategoriesExist(jobs: seq<Row<Job>>, categories: seq<Row<Category>>) {
    forall k :: 0 <= k < |jobs| ==> HasId(categories, jobs[k].rec.category)
  }

  // ---------------------------------------------------------------------------
  // createJob

  datatype CreateBody = CreateBody(
    title: Option<string>,
    category: Option<Id>,
    description: Option<string>,
    employmentType: Option<string>,
    experienceRequired: Option<int>,
    salaryRange: Option<string>,
    location: Option<string>,
    vacancies: Option<int>)

  /** The eight truthiness checks: a zero experience or zero vacancies counts as missing. */
  predicate RequiredPresent(b: CreateBody) {
    Present(b.title) && b.category.Some? && Present(b.description) && Present(b.employmentType) &&
    NumPresent(b.experienceRequired) && Present(b.salaryRange) && Present(b.location) && NumPresent(b.vacancies)
  }

  /** create's checks, which do not look at the stored jobs: the job to save, or the error reply. */
  function CreateJobCheck(categories: seq<Row<Category>>, b: CreateBody): (r: Result<Job, Reply<Row<Job>>>)
    ensures !RequiredPresent(b) ==> r == Err(Fail(400, FieldsRequired))
    ensures RequiredPresent(b) ==>
              (r.Err? <==> !HasId(categories, b.category.value)) &&
              (r.Err? ==> r.error == Fail(404, CategoryNotFound))
    ensures r.Ok? ==>
              HasId(categories, r.value.category) && r.value.isActive &&
              r.value == Job(b.title.value, b.category.value, b.description.value, b.employmentType.value,
                             b.experienceRequired.value, b.salaryRange.value, b.location.value, b.vacancies.value, true)
  {
    if !RequiredPresent(b) then Err(Fail(400, FieldsRequired))
    else if !HasId(categories, b.category.value) then Err(Fail(404, CategoryNotFound))
    else Ok(Job(b.title.value, b.category.value, b.description.value, b.employmentType.value,
                b.experienceRequired.value, b.salaryRange.value, b.location.value, b.vacancies.value, true))
  }

  /** A created job refers to an existing category. */
  lemma CreateKeepsCategoriesExist(jobs: seq<Row<Job>>, categories: seq<Row<Category>>, b: CreateBody, id: Id)
    requires CategoriesExist(jobs, categories) && CreateJobCheck(categories, b).Ok?
    ensures CategoriesExist(jobs + [Row(id, CreateJobCheck(categories, b).value)], categories)
  {
    var after := jobs + [Row(id, CreateJobCheck(categories, b).value)];
    forall k | 0 <= k < |after|
      ensures HasId(categories, after[k].rec.category)
    {
      if k < |jobs| {
        assert after[k] == jobs[k];
      }
    }
  }

  method CreateJob(jobs: Collection<Job>, categories: seq<Row<Category>>, b: CreateBody) returns (reply: Reply<Row<Job>>)
    requires jobs.Valid()
    modifies jobs
    ensures jobs.Valid()
    ensures CreateJobCheck(categories, b).Err? ==> reply == CreateJobCheck(categories, b).error && jobs.rows == old(jobs.rows)
    ensures CreateJobCheck(categories, b).Ok? ==>
              var j := CreateJobCheck(categories, b).value;
              if SaveErrors(j) == [] then
                Appended(old(jobs.rows), jobs.rows, j) && reply == Send(201, Last(jobs.rows), "Job created successfully")
              else
                jobs.rows == old(jobs.rows) && reply == HandleMongoErrors(ValidationError(SaveErrors(j)))
  {
    match CreateJobCheck(categories, b)
    case Err(e) =>
      reply := e;
    case Ok(j) =>
      var errs := SaveErrors(j);
      if errs != [] {
        reply := HandleMongoErrors(ValidationError(errs));
      } else {
        var row := jobs.Insert(j);
        reply := Send(201, row, "Job created successfully");
      }
  }

  // ---------------------------------------------------------------------------
  // updateJob

  /** One key of the update body with its value. */
  datatype Patch =
    | SetTitle(title: string)
    | SetCategory(category: Id)
    | SetDescription(description: string)
    | SetEmploymentType(employmentType: string)
    | SetExperienceRequired(experienceRequired: int)
    | SetSalaryRange(salaryRange: string)
    | SetLocation(location: string)
    | SetVacancies(vacancies: int)
    | SetIsActive(isActive: bool)

  /** One step of the `forEach`. */
  function PatchOne(j: Job, p: Patch): Job {
    match p
    case SetTitle(v) => j.(title := v)
    case SetCategory(v) => j.(category := v)
    case SetDescription(v) => j.(description := v)
    case SetEmploymentType(v) => j.(employmentType := v)
    case SetExperienceRequired(v) => j.(experienceRequired := v)
    case SetSalaryRange(v) => j.(salaryRange := v)
    case SetLocation(v) => j.(location := v)
    case SetVacancies(v) => j.(vacancies := v)
    case SetIsActive(v) => j.(isActive := v)
  }

  /** The whole `forEach`, keys in body order. */
  function PatchAll(j: Job, ps: seq<Patch>): Job
    decreases |ps|
  {
    if |ps| == 0 then j else PatchOne(PatchAll(j, ps[..|ps| - 1]), ps[|ps| - 1])
  }

  /** `updateData.category`: the value of the body's last `category` key. */
  function LastCategory(ps: seq<Patch>): Option<Id>
    decreases |ps|
  {
    if |ps| == 0 then None
    else if ps[|ps| - 1].SetCategory? then Some(ps[|ps| - 1].category)
    else LastCategory(ps[..|ps| - 1])
  }

  /** The category the handler checks is the category it stores. */
  lemma {:induction false} PatchAllStoresLastCategory(j: Job, ps: seq<Patch>)
    ensures PatchAll(j, ps).category == LastCategory(ps).GetOr(j.category)
    decreases |ps|
  {
    if |ps| > 0 {
      PatchAllStoresLastCategory(j, ps[..|ps| - 1]);
    }
  }

  /** The `forEach` loop over the body's keys, assigning each onto the job. */
  method ApplyPatches(j: Job, ps: seq<Patch>) returns (r: Job)
    ensures r == PatchAll(j, ps)
  {
    r := j;
    var i := 0;
    while i < |ps|
      invariant 0 <= i <= |ps|
      invariant r == PatchAll(j, ps[..i])
    {
      assert ps[..i + 1][..i] == ps[..i];
      r := PatchOne(r, ps[i]);
      i := i + 1;
    }
    assert ps[..|ps|] == ps;
  }

  /** update's checks: the position of the job to change, or the error reply. */
  function UpdateJobCheck(jobs: seq<Row<Job>>, categories: seq<Row<Category>>, id: Id, ps: seq<Patch>): (r: Result<nat, Reply<Row<Job>>>)
    ensures !HasId(jobs, id) ==> r == Err(Fail(404, JobNotFound))
    ensures r.Ok? <==> HasId(jobs, id) && (LastCategory(ps).Some? ==> HasId(categories, LastCategory(ps).value))
    ensures HasId(jobs, id) && r.Err? ==> r.error == Fail(404, CategoryNotFound)
    ensures r.Ok? ==> r.value < |jobs| && jobs[r.value].id == id
  {
    match IndexOf(jobs, id)
    case None => Err(Fail(404, JobNotFound))
    case Some(i) =>
      if LastCategory(ps).Some? && !HasId(categories, LastCategory(ps).value) then Err(Fail(404, CategoryNotFound))
      else Ok(i)
  }

  /** An updated job still refers to an existing category. */
  lemma UpdateKeepsCategoriesExist(jobs: seq<Row<Job>>, categories: seq<Row<Category>>, id: Id, ps: seq<Patch>)
    requires CategoriesExist(jobs, categories) && UpdateJobCheck(jobs, categories, id, ps).Ok?
    ensures var i := UpdateJobCheck(jobs, categories, id, ps).value;
            CategoriesExist(jobs[i := Row(id, PatchAll(jobs[i].rec, ps))], categories)
  {
    var i := UpdateJobCheck(jobs, categories, id, ps).value;
    PatchAllStoresLastCategory(jobs[i].rec, ps);
    var after := jobs[i := Row(id, PatchAll(jobs[i].rec, ps))];
    forall k | 0 <= k < |after|
      ensures HasId(categories, after[k].rec.category)
    {
      if k != i {
        assert after[k] == jobs[k];
      }
    }
  }

  method UpdateJob(jobs: Collection<Job>, categories: seq<Row<Category>>, id: Id, ps: seq<Patch>) returns (reply: Reply<Row<Job>>)
    requires jobs.Valid()
    modifies jobs
    ensures jobs.Valid()
    ensures UpdateJobCheck(old(jobs.rows), categories, id, ps).Err? ==>
              reply == UpdateJobCheck(old(jobs.rows), categories, id, ps).error && jobs.rows == old(jobs.rows)
    ensures UpdateJobCheck(old(jobs.rows), categories, id, ps).Ok? ==>
              var i := UpdateJobCheck(old(jobs.rows), categories, id, ps).value;
              var j := PatchAll(old(jobs.rows)[i].rec, ps);
              if SaveErrors(j) == [] then
                ReplacedAt(old(jobs.rows), jobs.rows, i, j) && reply == Send(200, jobs.rows[i], "Job updated successfully")
              else
                jobs.rows == old(jobs.rows) && reply == HandleMongoErrors(ValidationError(SaveErrors(j)))
  {
    match UpdateJobCheck(jobs.rows, categories, id, ps)
    case Err(e) =>
      reply := e;
    case Ok(i) =>
      var j := ApplyPatches(jobs.rows[i].rec, ps);
      var errs := SaveErrors(j);
      if errs != [] {
        reply := HandleMongoErrors(ValidationError(errs));
      } else {
        jobs.Replace(i, j);
        reply := Send(200, jobs.rows[i], "Job updated successfully");
      }
  }

  // ---------------------------------------------------------------------------
  // deleteJob: applications to the job are left in place.

  method DeleteJob(jobs: Collection<Job>, id: Id) returns (reply: Reply<Row<Job>>)
    requires jobs.Valid()
    modifies jobs
    ensures jobs.Valid()
    ensures !HasId(old(jobs.rows), id) ==> reply == Fail(404, JobNotFound) && jobs.rows == old(jobs.rows)
    ensures HasId(old(jobs.rows), id) ==>
              var i := IndexOf(old(jobs.rows), id).value;
              jobs.rows == old(jobs.rows)[..i] + old(jobs.rows)[i + 1..] &&
              reply == Reply(200, None, "Job deleted successfully")
  {
    match IndexOf(jobs.rows, id)
    case None =>
      reply := Fail(404, JobNotFound);
    case Some(i) =>
      jobs.Delete(i);
      reply := Reply(200, None, "Job deleted successfully");
  }

  // ---------------------------------------------------------------------------
  // Listings, all ordered by title and none restricted to active jobs

  function TitleOrder(j: Row<Job>): seq<int> {
    AscString(j.rec.title)
  }

  function AllJobs(rows: seq<Row<Job>>): (r: Reply<seq<Row<Job>>>)
    ensures r.statusCode == 200 && r.data.Some?
    ensures SortedBy(r.data.value, TitleOrder) && multiset(r.data.value) == multiset(rows)
  {
    Send(200, SortBy(rows, TitleOrder), "Jobs retrieved successfully")
  }

  function JobById(rows: seq<Row<Job>>, id: Id): (r: Reply<Row<Job>>)
    ensures r.statusCode == 404 <==> !HasId(rows, id)
    ensures r.statusCode == 404 ==> r == Fail(404, JobNotFound)
    ensures r.statusCode != 404 ==> r.statusCode == 200 && r.data.Some? && r.data.value in rows && r.data.value.id == id
  {
    match Get(rows, id)
    case None => Fail(404, JobNotFound)
    case Some(j) => Send(200, j, "Job retrieved successfully")
  }

  function InCategory(categoryId: Id): Row<Job> -> bool {
    (j: Row<Job>) => j.rec.category == categoryId
  }

  function JobsByCategory(rows: seq<Row<Job>>, categoryId: Id): (r: Reply<seq<Row<Job>>>)
    ensures r.statusCode == 200 && r.data.Some?
    ensures SortedBy(r.data.value, TitleOrder)
    ensures forall j :: j in r.data.value <==> j in rows && j.rec.category == categoryId
    ensures CountsOf(r.data.value, rows, InCategory(categoryId))
  {
    SortByMembers(Where(rows, InCategory(categoryId)), TitleOrder);
    Send(200, SortBy(Where(rows, InCategory(categoryId)), TitleOrder), "Jobs by category retrieved successfully")
  }

  /**
   * searchJobs' criteria, each applied only when truthy: the text in the title or the
   * description, the category, the location as a substring, and the employment type; all
   * ignoring case except category and employment type.
   */
  predicate SearchMatches(j: Job, query: Option<string>, category: Option<Id>, location: Option<string>, employmentType: Option<string>) {
    (Present(query) ==> ContainsIgnoringCase(j.title, query.value) || ContainsIgnoringCase(j.description, query.value)) &&
    (category.Some? ==> j.category == category.value) &&
    (Present(location) ==> ContainsIgnoringCase(j.location, location.value)) &&
    (Present(employmentType) ==> j.employmentType == employmentType.value)
  }

  function SearchCriteria(query: Option<string>, category: Option<Id>, location: Option<string>, employmentType: Option<string>): Row<Job> -> bool {
    (j: Row<Job>) => SearchMatches(j.rec, query, category, location, employmentType)
  }

  function SearchJobs(rows: seq<Row<Job>>, query: Option<string>, category: Option<Id>, location: Option<string>, employmentType: Option<string>): (r: Reply<seq<Row<Job>>>)
    ensures r.statusCode == 200 && r.data.Some? && r.message == "Jobs search results"
    ensures SortedBy(r.data.value, TitleOrder)
    ensures forall j :: j in r.data.value <==> j in rows && SearchMatches(j.rec, query, category, location, employmentType)
    ensures CountsOf(r.data.value, rows, SearchCriteria(query, category, location, employmentType))
  {
    SortByMembers(Where(rows, SearchCriteria(query, category, location, employmentType)), TitleOrder);
    Send(200, SortBy(Where(rows, SearchCriteria(query, category, location, employmentType)), TitleOrder), "Jobs search results")
  }

  /** A search without criteria lists every job, inactive ones included, each as often as stored. */
  lemma SearchWithoutCriteriaListsAll(rows: seq<Row<Job>>)
    ensures multiset(SearchJobs(rows, None, None, None, None).data.value) == multiset(rows)
  {
    WhereAll(rows, SearchCriteria(None, None, None, None));
  }
}
