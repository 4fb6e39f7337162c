/**
 * Applications to jobs. An applicant applies with a contact email; the same email may apply
 * to a given job only once. The applicant is the authenticated user, whose id the route's
 * middleware supplies.
 */
module JobApplications {
  import opened Wrappers
  import opened Envelope
  import opened Text
  import opened Table
  import opened Sorting
  import opened Jobs

  datatype ApplicationStatus = Pending | Reviewed | Rejected | Shortlisted

  datatype Application = Application(
    job: Id,
    applicant: Id,
    firstName: string,
    lastName: string,
    resume: string,
    coverLetter: Option<string>,   // default null
    phone: string,
    email: string,
    location: string,
    status: ApplicationStatus,
    createdAt: int)

  datatype ApplyBody = ApplyBody(
    jobId: Option<Id>,
    firstName: Option<string>,
    lastName: Option<string>,
    resume: Option<string>,
    coverLetter: Option<string>,
    phone: Option<string>,
    email: Option<string>,
    location: Option<string>)

  const ApplicationNotFound := "Application not found"
  const AlreadyApplied := "You have already applied for this job"
  const FieldsRequired := "All required fields must be filled"

  predicate RequiredPresent(b: ApplyBody) {
    b.jobId.Some? && Present(b.firstName) && Present(b.lastName) && Present(b.resume) &&
    Present(b.phone) && Present(b.email) && Present(b.location)
  }

  /** The query `{ job, email }`. */
  function SamePair(job: Id, email: string): Row<Application> -> bool {
    (a: Row<Application>) => a.rec.job == job && a.rec.email == email
  }

  /** No two applications share their job and email. */
  predicate PairsDistinct(rows: seq<Row<Application>>) {
    forall i, j :: 0 <= i < j < |rows| ==> !(rows[i].rec.job == rows[j].rec.job && rows[i].rec.email == rows[j].rec.email)
  }

  /** applyForJob's checks: the application to store, or the error reply. */
  function ApplyCheck(apps: seq<Row<Application>>, jobs: seq<Row<Job>>, b: ApplyBody, user: Id, now: int): (r: Result<Application, Reply<Row<Application>>>)
    ensures !RequiredPresent(b) ==> r == Err(Fail(400, FieldsRequired))
    ensures RequiredPresent(b) && !HasId(jobs, b.jobId.value) ==> r == Err(Fail(404, JobNotFound))
    ensures RequiredPresent(b) && HasId(jobs, b.jobId.value) ==>
              (r.Err? <==> exists k :: 0 <= k < |apps| && apps[k].rec.job == b.jobId.value && apps[k].rec.email == b.email.value) &&
              (r.Err? ==> r.error == Fail(409, AlreadyApplied))
    ensures r.Ok? ==>
              r.value.job == b.jobId.value && HasId(jobs, r.value.job) && r.value.email == b.email.value &&
              r.value.applicant == user && r.value.status == Pending && r.value.createdAt == now &&
              r.value.coverLetter == (if Present(b.coverLetter) then b.coverLetter else None)
  {
    if !RequiredPresent(b) then Err(Fail(400, FieldsRequired))
    else if !HasId(jobs, b.jobId.value) then Err(Fail(404, JobNotFound))
    else if FirstWhere(apps, SamePair(b.jobId.value, b.email.value)).Some? then Err(Fail(409, AlreadyApplied))
    else Ok(Application(b.jobId.value, user, b.firstName.value, b.lastName.value, b.resume.value,
                        if Present(b.coverLetter) then b.coverLetter else None,
                        b.phone.value, b.email.value, b.location.value, Pending, now))
  }

  /** An accepted application keeps (job, email) pairs distinct. */
  lemma ApplyKeepsPairsDistinct(apps: seq<Row<Application>>, jobs: seq<Row<Job>>, b: ApplyBody, user: Id, now: int, id: Id)
    requires PairsDistinct(apps) && ApplyCheck(apps, jobs, b, user, now).Ok?
    ensures PairsDistinct(apps + [Row(id, ApplyCheck(apps, jobs, b, user, now).value)])
  {
    var after := apps + [Row(id, ApplyCheck(apps, jobs, b, user, now).value)];
    forall i, j | 0 <= i < j < |after|
      ensures !(after[i].rec.job == after[j].rec.job && after[i].rec.email == after[j].rec.email)
    {
      assert after[i] == apps[i];
      if j < |apps| {
        assert after[j] == apps[j];
      }
    }
  }

  /** Once an application is stored, the same body is refused with 409, by any user, at any time. */
  lemma ApplyingTwiceIsRefused(apps: seq<Row<Application>>, jobs: seq<Row<Job>>, b: ApplyBody, user: Id, now: int,
                               id: Id, user2: Id, later: int)
    requires ApplyCheck(apps, jobs, b, user, now).Ok?
    ensures ApplyCheck(apps + [Row(id, ApplyCheck(apps, jobs, b, user, now).value)], jobs, b, user2, later) ==
            Err(Fail(409, AlreadyApplied))
  {
    var after := apps + [Row(id, ApplyCheck(apps, jobs, b, user, now).value)];
    assert after[|apps|].rec.job == b.jobId.value && after[|apps|].rec.email == b.email.value;
  }

  method ApplyForJob(apps: Collection<Application>, jobs: seq<Row<Job>>, b: ApplyBody, user: Id, now: int) returns (reply: Reply<Row<Application>>)
    requires apps.Valid()
    modifies apps
    ensures apps.Valid()
    ensures ApplyCheck(old(apps.rows), jobs, b, user, now).Err? ==>
              reply == ApplyCheck(old(apps.rows), jobs, b, user, now).error && apps.rows == old(apps.rows)
    ensures ApplyCheck(old(apps.rows), jobs, b, user, now).Ok? ==>
              Appended(old(apps.rows), apps.rows, ApplyCheck(old(apps.rows), jobs, b, user, now).value) &&
              reply == Send(201, Last(apps.rows), "Application submitted successfully")
  {
    match ApplyCheck(apps.rows, jobs, b, user, now)
    case Err(e) =>
      reply := e;
    case Ok(a) =>
      var row := apps.Insert(a);
      reply := Send(201, row, "Application submitted successfully");
  }

  // ---------------------------------------------------------------------------
  // Listings and lookups, newest first

  function NewestFirst(a: Row<Application>): seq<int> {
    [-a.rec.createdAt]
  }

  function ForJob(jobId: Id): Row<Application> -> bool {
    (a: Row<Application>) => a.rec.job == jobId
  }

  /** getJobApplications: that job's applications only; an unknown job gives an empty list. */
  function JobApplicationsOf(rows: seq<Row<Application>>, jobId: Id): (r: Reply<seq<Row<Application>>>)
    ensures r.statusCode == 200 && r.data.Some? && r.message == "Applications retrieved successfully"
    ensures SortedBy(r.data.value, NewestFirst)
    ensures forall a :: a in r.data.value <==> a in rows && a.rec.job == jobId
    ensures CountsOf(r.data.value, rows, ForJob(jobId))
  {
    SortByMembers(Where(rows, ForJob(jobId)), NewestFirst);
    Send(200, SortBy(Where(rows, ForJob(jobId)), NewestFirst), "Applications retrieved successfully")
  }

  /** getUserApplications: every application of every user. */
  function AllApplications(rows: seq<Row<Application>>): (r: Reply<seq<Row<Application>>>)
    ensures r.statusCode == 200 && r.data.Some?
    ensures SortedBy(r.data.value, NewestFirst) && multiset(r.data.value) == multiset(rows)
  {
    Send(200, SortBy(rows, NewestFirst), "Applications retrieved successfully")
  }

  function ApplicationById(rows: seq<Row<Application>>, id: Id): (r: Reply<Row<Application>>)
    ensures r.statusCode == 404 <==> !HasId(rows, id)
    ensures r.statusCode == 404 ==> r == Fail(404, ApplicationNotFound)
    ensures r.statusCode != 404 ==> r.statusCode == 200 && r.data.Some? && r.data.value in rows && r.data.value.id == id
  {
    match Get(rows, id)
    case None => Fail(404, ApplicationNotFound)
    case Some(a) => Send(200, a, "Application retrieved successfully")
  }

  method DeleteApplication(apps: Collection<Application>, id: Id) returns (reply: Reply<Row<Application>>)
    requires apps.Valid()
    modifies apps
    ensures apps.Valid()
    ensures !HasId(old(apps.rows), id) ==> reply == Fail(404, ApplicationNotFound) && apps.rows == old(apps.rows)
    ensures HasId(old(apps.rows), id) ==>
              var i := IndexOf(old(apps.rows), id).value;
              apps.rows == old(apps.rows)[..i] + old(apps.rows)[i + 1..] && !HasId(apps.rows, id) &&
              reply == Reply(200, None, "Application deleted successfully")
  {
    match IndexOf(apps.rows, id)
    case None =>
      reply := Fail(404, ApplicationNotFound);
    case Some(i) =>
      DeleteRemovesId(apps.rows, i);
      apps.Delete(i);
      reply := Reply(200, None, "Application deleted successfully");
  }
}
