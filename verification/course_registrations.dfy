/**
 * Registrations of users for courses. The student is the authenticated user, whose id the
 * route's middleware supplies; a user registers for a course at most once. Registrations
 * carry no timestamps, so the listings' sort on `createdAt` leaves them in stored order.
 */
module CourseRegistrations {
  import opened Wrappers
  import opened Envelope
  import opened Text
  import opened Table
  import opened MongooseError
  import opened Principals
  import Courses

  datatype Registration = Registration(course: Id, student: Id, description: string)

  const RegistrationNotFound := "Registration not found"
  const AlreadyRegistered := "You are already registered for this course"

  /** No user is registered twice for the same course. */
  predicate PairsDistinct(rows: seq<Row<Registration>>) {
    forall i, j :: 0 <= i < j < |rows| ==>
      !(rows[i].rec.course == rows[j].rec.course && rows[i].rec.student == rows[j].rec.student)
  }

  /** The query `{ course, student }`. */
  function SamePair(course: Id, student: Id): Row<Registration> -> bool {
    (r: Row<Registration>) => r.rec.course == course && r.rec.student == student
  }

  /** What `save` reports: `description` is required. */
  function SaveErrors(r: Registration): (errs: seq<string>)
    ensures errs == [] <==> r.description != ""
  {
    if r.description == "" then [RequiredMessage("description")] else []
  }

  // ---------------------------------------------------------------------------
  // createCourseRegistration

  /** create's checks, in order: the body, the course, the user, the pair. */
  function RegisterCheck(regs: seq<Row<Registration>>, courses: seq<Row<Courses.Course>>, users: seq<Row<User>>,
                         course: Option<Id>, description: Option<string>, student: Id): (r: Result<Registration, Reply<Row<Registration>>>)
    ensures !(course.Some? && Present(description)) ==> r == Err(Fail(400, "Course and description are required"))
    ensures course.Some? && Present(description) && !HasId(courses, course.value) ==> r == Err(Fail(404, Courses.CourseNotFound))
    ensures course.Some? && Present(description) && HasId(courses, course.value) && !HasId(users, student) ==>
              r == Err(Fail(404, "User not found"))
    ensures course.Some? && Present(description) && HasId(courses, course.value) && HasId(users, student) ==>
              (r.Err? <==> exists k :: 0 <= k < |regs| && regs[k].rec.course == course.value && regs[k].rec.student == student) &&
              (r.Err? ==> r.error == Fail(409, AlreadyRegistered))
    ensures r.Ok? ==>
              r.value == Registration(course.value, student, description.value) &&
              HasId(courses, r.value.course) && HasId(users, r.value.student) && SaveErrors(r.value) == []
  {
    if !(course.Some? && Present(description)) then Err(Fail(400, "Course and description are required"))
    else if !HasId(courses, course.value) then Err(Fail(404, Courses.CourseNotFound))
    else if !HasId(users, student) then Err(Fail(404, "User not found"))
    else if FirstWhere(regs, SamePair(course.value, student)).Some? then Err(Fail(409, AlreadyRegistered))
    else Ok(Registration(course.value, student, description.value))
  }

  /** A stored registration keeps (course, student) pairs distinct. */
  lemma RegisterKeepsPairsDistinct(regs: seq<Row<Registration>>, courses: seq<Row<Courses.Course>>, users: seq<Row<User>>,
                                   course: Option<Id>, description: Option<string>, student: Id, id: Id)
    requires PairsDistinct(regs) && RegisterCheck(regs, courses, users, course, description, student).Ok?
    ensures PairsDistinct(regs + [Row(id, RegisterCheck(regs, courses, users, course, description, student).value)])
  {
    var after := regs + [Row(id, RegisterCheck(regs, courses, users, course, description, student).value)];
    forall i, j | 0 <= i < j < |after|
      ensures !(after[i].rec.course == after[j].rec.course && after[i].rec.student == after[j].rec.student)
    {
      assert after[i] == regs[i];
      if j < |regs| {
        assert after[j] == regs[j];
      }
    }
  }

  /** Once registered, the same user is refused for the same course, whatever the description. */
  lemma RegisteringTwiceIsRefused(regs: seq<Row<Registration>>, courses: seq<Row<Courses.Course>>, users: seq<Row<User>>,
                                  course: Option<Id>, description: Option<string>, student: Id, id: Id, description2: string)
    requires RegisterCheck(regs, courses, users, course, description, student).Ok? && description2 != ""
    ensures RegisterCheck(regs + [Row(id, RegisterCheck(regs, courses, users, course, description, student).value)],
                          courses, users, course, Some(description2), student) == Err(Fail(409, AlreadyRegistered))
  {
    var after := regs + [Row(id, RegisterCheck(regs, courses, users, course, description, student).value)];
    assert after[|regs|].rec.course == course.value && after[|regs|].rec.student == student;
  }

  method Register(regs: Collection<Registration>, courses: seq<Row<Courses.Course>>, users: seq<Row<User>>,
                  course: Option<Id>, description: Option<string>, student: Id) returns (reply: Reply<Row<Registration>>)
    requires regs.Valid()
    modifies regs
    ensures regs.Valid()
    ensures RegisterCheck(old(regs.rows), courses, users, course, description, student).Err? ==>
              reply == RegisterCheck(old(regs.rows), courses, users, course, description, student).error &&
              regs.rows == old(regs.rows)
    ensures RegisterCheck(old(regs.rows), courses, users, course, description, student).Ok? ==>
              Appended(old(regs.rows), regs.rows, RegisterCheck(old(regs.rows), courses, users, course, description, student).value) &&
              reply == Send(201, Last(regs.rows), "Course registration submitted successfully")
  {
    match RegisterCheck(regs.rows, courses, users, course, description, student)
    case Err(e) =>
      reply := e;
    case Ok(r) =>
      var row := regs.Insert(r);
      reply := Send(201, row, "Course registration submitted successfully");
  }

  // ---------------------------------------------------------------------------
  // Listings and lookup

  /** getAllCourseRegistrations' filter: the course and the student, each when given. */
  predicate RegistrationFilter(r: Registration, course: Option<Id>, student: Option<Id>) {
    (course.Some? ==> r.course == course.value) && (student.Some? ==> r.student == student.value)
  }

  function RegistrationQuery(course: Option<Id>, student: Option<Id>): Row<Registration> -> bool {
    (r: Row<Registration>) => RegistrationFilter(r.rec, course, student)
  }

  function AllRegistrations(rows: seq<Row<Registration>>, course: Option<Id>, student: Option<Id>): (r: Reply<seq<Row<Registration>>>)
    ensures r.statusCode == 200 && r.data.Some?
    ensures forall x :: x in r.data.value <==> x in rows && RegistrationFilter(x.rec, course, student)
    ensures CountsOf(r.data.value, rows, RegistrationQuery(course, student)) && Subsequence(r.data.value, rows)
  {
    Send(200, Where(rows, RegistrationQuery(course, student)), "Registrations retrieved successfully")
  }

  /** Any authenticated user may read any registration by id. */
  function RegistrationById(rows: seq<Row<Registration>>, id: Id): (r: Reply<Row<Registration>>)
    ensures r.statusCode == 404 <==> !HasId(rows, id)
    ensures r.statusCode == 404 ==> r == Fail(404, RegistrationNotFound)
    ensures r.statusCode != 404 ==> r.statusCode == 200 && r.data.Some? && r.data.value in rows && r.data.value.id == id
  {
    match Get(rows, id)
    case None => Fail(404, RegistrationNotFound)
    case Some(x) => Send(200, x, "Registration retrieved successfully")
  }

  function ByStudent(student: Id): Row<Registration> -> bool {
    (r: Row<Registration>) => r.rec.student == student
  }

  /** getUserCourseRegistrations: the requesting user's registrations. */
  function UserRegistrations(rows: seq<Row<Registration>>, student: Id): (r: Reply<seq<Row<Registration>>>)
    ensures r.statusCode == 200 && r.data.Some?
    ensures forall x :: x in r.data.value <==> x in rows && x.rec.student == student
    ensures CountsOf(r.data.value, rows, ByStudent(student)) && Subsequence(r.data.value, rows)
  {
    Send(200, Where(rows, ByStudent(student)), "Your course registrations retrieved successfully")
  }

  function ForCourse(course: Id): Row<Registration> -> bool {
    (r: Row<Registration>) => r.rec.course == course
  }

  /** getRegistrationsByCourseId: 404 for an unknown course, otherwise that course's registrations. */
  function RegistrationsOfCourse(rows: seq<Row<Registration>>, courses: seq<Row<Courses.Course>>, courseId: Id): (r: Reply<seq<Row<Registration>>>)
    ensures r.statusCode == 404 <==> !HasId(courses, courseId)
    ensures r.statusCode == 404 ==> r == Fail(404, Courses.CourseNotFound)
    ensures r.statusCode != 404 ==>
              r.statusCode == 200 && r.data.Some? &&
              forall x :: x in r.data.value <==> x in rows && x.rec.course == courseId
    ensures r.statusCode != 404 ==>
              CountsOf(r.data.value, rows, ForCourse(courseId)) && Subsequence(r.data.value, rows)
  {
    if !HasId(courses, courseId) then Fail(404, Courses.CourseNotFound)
    else Send(200, Where(rows, ForCourse(courseId)), "Course registrations retrieved successfully")
  }

  // ---------------------------------------------------------------------------
  // updateCourseRegistration

  /** The update assigns `description` when the key is defined, and nothing else. */
  function UpdatedRegistration(r: Registration, description: Option<string>): (u: Registration)
    ensures u.course == r.course && u.student == r.student
    ensures description.None? ==> u == r
  {
    if description.Some? then r.(description := description.value) else r
  }

  /** An update never changes a registration's course or student, so pairs stay distinct. */
  lemma UpdateKeepsPairsDistinct(rows: seq<Row<Registration>>, i: nat, description: Option<string>)
    requires PairsDistinct(rows) && i < |rows|
    ensures PairsDistinct(rows[i := Row(rows[i].id, UpdatedRegistration(rows[i].rec, description))])
  {
    var after := rows[i := Row(rows[i].id, UpdatedRegistration(rows[i].rec, description))];
    forall a, b | 0 <= a < b < |after|
      ensures !(after[a].rec.course == after[b].rec.course && after[a].rec.student == after[b].rec.student)
    {
      assert after[a].rec.course == rows[a].rec.course && after[a].rec.student == rows[a].rec.student;
      assert after[b].rec.course == rows[b].rec.course && after[b].rec.student == rows[b].rec.student;
    }
  }

  method UpdateRegistration(regs: Collection<Registration>, id: Id, description: Option<string>) returns (reply: Reply<Row<Registration>>)
    requires regs.Valid()
    modifies regs
    ensures regs.Valid()
    ensures !HasId(old(regs.rows), id) ==> reply == Fail(404, RegistrationNotFound) && regs.rows == old(regs.rows)
    ensures HasId(old(regs.rows), id) ==>
              var i := IndexOf(old(regs.rows), id).value;
              var u := UpdatedRegistration(old(regs.rows)[i].rec, description);
              if SaveErrors(u) == [] then
                ReplacedAt(old(regs.rows), regs.rows, i, u) && reply == Send(200, regs.rows[i], "Registration updated successfully")
              else
                regs.rows == old(regs.rows) && reply == HandleMongoErrors(ValidationError(SaveErrors(u)))
  {
    match IndexOf(regs.rows, id)
    case None =>
      reply := Fail(404, RegistrationNotFound);
    case Some(i) =>
      var u := regs.rows[i].rec;
      if description.Some? {
        u := u.(description := description.value);
      }
      var errs := SaveErrors(u);
      if errs != [] {
        reply := HandleMongoErrors(ValidationError(errs));
      } else {
        regs.Replace(i, u);
        reply := Send(200, regs.rows[i], "Registration updated successfully");
      }
  }

  // ---------------------------------------------------------------------------
  // deleteCourseRegistration

  method DeleteRegistration(regs: Collection<Registration>, id: Id) returns (reply: Reply<Row<Registration>>)
    requires regs.Valid()
    modifies regs
    ensures regs.Valid()
    ensures !HasId(old(regs.rows), id) ==> reply == Fail(404, RegistrationNotFound) && regs.rows == old(regs.rows)
    ensures HasId(old(regs.rows), id) ==>
              var i := IndexOf(old(regs.rows), id).value;
              regs.rows == old(regs.rows)[..i] + old(regs.rows)[i + 1..] && !HasId(regs.rows, id) &&
              reply == Reply(200, None, "Registration deleted successfully")
  {
    match IndexOf(regs.rows, id)
    case None =>
      reply := Fail(404, RegistrationNotFound);
    case Some(i) =>
      DeleteRemovesId(regs.rows, i);
      regs.Delete(i);
      reply := Reply(200, None, "Registration deleted successfully");
  }
}
