/**
 * Courses. A course belongs to a course category; titles are unique ignoring case. Create
 * demands six truthy fields, so a free course (price 0) or a zero duration is refused. Update
 * assigns every field whose key is defined, and a course can be switched between active and
 * inactive. Courses carry no timestamps, so the listing's sort on `createdAt` leaves them in
 * stored order.
 */
module Courses {
  import opened Wrappers
  import opened Envelope
  import opened Text
  import opened Table
  import opened MongooseError
  import CC = CourseCategories

  datatype Course = Course(
    title: string,
    category: Id,
    description: string,
    instructor: string,
    duration: int,
    price: int,
    isActive: bool)

  /** The body of create and update; `None` is an absent key. */
  datatype CourseBody = CourseBody(
    title: Option<string>,
    category: Option<Id>,
    description: Option<string>,
    instructor: Option<string>,
    duration: Option<int>,
    price: Option<int>,
    isActive: Option<bool>)

  const CourseNotFound := "Course not found"
  const TitleTaken := "Course with this title already exists"

  /** The six truthiness checks of create. */
  predicate RequiredPresent(b: CourseBody) {
    Present(b.title) && b.category.Some? && Present(b.description) && Present(b.instructor) &&
    NumPresent(b.duration) && NumPresent(b.price)
  }

  /** The query `{ title: /^title$/i }`. */
  function TitleLike(title: string): Row<Course> -> bool {
    (c: Row<Course>) => EqualIgnoringCase(c.rec.title, title)
  }

  /** The query `{ title: /^title$/i, _id: { $ne: id } }`. */
  function OtherTitleLike(title: string, id: Id): Row<Course> -> bool {
    (c: Row<Course>) => EqualIgnoringCase(c.rec.title, title) && c.id != id
  }

  /** No two courses have titles that differ only in case. */
  predicate TitlesDistinctIgnoringCase(rows: seq<Row<Course>>) {
    forall i, j :: 0 <= i < j < |rows| ==> !EqualIgnoringCase(rows[i].rec.title, rows[j].rec.title)
  }

  /** What `save` reports: the required strings left empty (numbers are present once assigned). */
  function SaveErrors(c: Course): (errs: seq<string>)
    ensures errs == [] <==> c.title != "" && c.description != "" && c.instructor != ""
  {
    (if c.title == "" then [RequiredMessage("title")] else []) +
    (if c.description == "" then [RequiredMessage("description")] else []) +
    (if c.instructor == "" then [RequiredMessage("instructor")] else [])
  }

  // ---------------------------------------------------------------------------
  // createCourse

  function CreateCourseCheck(courses: seq<Row<Course>>, categories: seq<Row<CC.Category>>, b: CourseBody): (r: Result<Course, Reply<Row<Course>>>)
    ensures !RequiredPresent(b) ==> r == Err(Fail(400, "All fields are required"))
    ensures b.price == Some(0) || b.duration == Some(0) ==> r == Err(Fail(400, "All fields are required"))
    ensures RequiredPresent(b) && !HasId(categories, b.category.value) ==> r == Err(Fail(404, CC.NotFound))
    ensures RequiredPresent(b) && HasId(categories, b.category.value) ==>
              (r.Err? <==> exists k :: 0 <= k < |courses| && EqualIgnoringCase(courses[k].rec.title, b.title.value)) &&
              (r.Err? ==> r.error == Fail(409, TitleTaken))
    ensures r.Ok? ==>
              HasId(categories, r.value.category) && SaveErrors(r.value) == [] &&
              r.value.isActive == (b.isActive == Some(true)) &&
              r.value == Course(b.title.value, b.category.value, b.description.value, b.instructor.value,
                                b.duration.value, b.price.value, r.value.isActive)
  {
    if !RequiredPresent(b) then Err(Fail(400, "All fields are required"))
    else if !HasId(categories, b.category.value) then Err(Fail(404, CC.NotFound))
    else if FirstWhere(courses, TitleLike(b.title.value)).Some? then Err(Fail(409, TitleTaken))
    else Ok(Course(b.title.value, b.category.value, b.description.value, b.instructor.value,
                   b.duration.value, b.price.value, b.isActive == Some(true)))
  }

  /** A created course keeps titles distinct ignoring case. */
  lemma CreateKeepsTitlesDistinct(courses: seq<Row<Course>>, categories: seq<Row<CC.Category>>, b: CourseBody, id: Id)
    requires TitlesDistinctIgnoringCase(courses) && CreateCourseCheck(courses, categories, b).Ok?
    ensures TitlesDistinctIgnoringCase(courses + [Row(id, CreateCourseCheck(courses, categories, b).value)])
  {
    var after := courses + [Row(id, CreateCourseCheck(courses, categories, b).value)];
    forall i, j | 0 <= i < j < |after|
      ensures !EqualIgnoringCase(after[i].rec.title, after[j].rec.title)
    {
      assert after[i] == courses[i];
      if j < |courses| {
        assert after[j] == courses[j];
      }
    }
  }

  method CreateCourse(courses: Collection<Course>, categories: seq<Row<CC.Category>>, b: CourseBody) returns (reply: Reply<Row<Course>>)
    requires courses.Valid()
    modifies courses
    ensures courses.Valid()
    ensures CreateCourseCheck(old(courses.rows), categories, b).Err? ==>
              reply == CreateCourseCheck(old(courses.rows), categories, b).error && courses.rows == old(courses.rows)
    ensures CreateCourseCheck(old(courses.rows), categories, b).Ok? ==>
              Appended(old(courses.rows), courses.rows, CreateCourseCheck(old(courses.rows), categories, b).value) &&
              reply == Send(201, Last(courses.rows), "Course created successfully")
  {
    match CreateCourseCheck(courses.rows, categories, b)
    case Err(e) =>
      reply := e;
    case Ok(c) =>
      var row := courses.Insert(c);
      reply := Send(201, row, "Course created successfully");
  }

  // ---------------------------------------------------------------------------
  // getAllCourses and getCourseById

  /** `filter.isActive = (isActive === "true")` when given, and the category when truthy. */
  predicate CourseFilter(c: Course, isActive: Option<string>, category: Option<Id>) {
    (isActive.Some? ==> c.isActive == (isActive.value == "true")) &&
    (category.Some? ==> c.category == category.value)
  }

  function CourseQuery(isActive: Option<string>, category: Option<Id>): Row<Course> -> bool {
    (c: Row<Course>) => CourseFilter(c.rec, isActive, category)
  }

  function AllCourses(rows: seq<Row<Course>>, isActive: Option<string>, category: Option<Id>): (r: Reply<seq<Row<Course>>>)
    ensures r.statusCode == 200 && r.data.Some? && r.message == "Courses retrieved successfully"
    ensures forall c :: c in r.data.value <==> c in rows && CourseFilter(c.rec, isActive, category)
    ensures isActive.Some? && isActive.value != "true" ==> forall c :: c in r.data.value ==> !c.rec.isActive
    ensures CountsOf(r.data.value, rows, CourseQuery(isActive, category)) && Subsequence(r.data.value, rows)
  {
    Send(200, Where(rows, CourseQuery(isActive, category)), "Courses retrieved successfully")
  }

  function CourseById(rows: seq<Row<Course>>, id: Id): (r: Reply<Row<Course>>)
    ensures r.statusCode == 404 <==> !HasId(rows, id)
    ensures r.statusCode == 404 ==> r == Fail(404, CourseNotFound)
    ensures r.statusCode != 404 ==> r.statusCode == 200 && r.data.Some? && r.data.value in rows && r.data.value.id == id
  {
    match Get(rows, id)
    case None => Fail(404, CourseNotFound)
    case Some(c) => Send(200, c, "Course retrieved successfully")
  }

  // ---------------------------------------------------------------------------
  // updateCourse

  /** A title is supplied, truthy, and differs from the stored one. */
  predicate Retitled(c: Course, b: CourseBody) {
    Present(b.title) && b.title.value != c.title
  }

  function UpdateCourseCheck(courses: seq<Row<Course>>, categories: seq<Row<CC.Category>>, id: Id, b: CourseBody): (r: Result<nat, Reply<Row<Course>>>)
    ensures !HasId(courses, id) ==> r == Err(Fail(404, CourseNotFound))
    ensures HasId(courses, id) && b.category.Some? && !HasId(categories, b.category.value) ==> r == Err(Fail(404, CC.NotFound))
    ensures r.Ok? ==> r.value < |courses| && courses[r.value].id == id &&
                      (b.category.Some? ==> HasId(categories, b.category.value))
    ensures r.Ok? && Retitled(courses[r.value].rec, b) ==>
              forall k :: 0 <= k < |courses| && courses[k].id != id ==> !EqualIgnoringCase(courses[k].rec.title, b.title.value)
    ensures HasId(courses, id) && (b.category.Some? ==> HasId(categories, b.category.value)) && r.Err? ==>
              r.error == Fail(409, TitleTaken) && Retitled(courses[IndexOf(courses, id).value].rec, b) &&
              exists k :: 0 <= k < |courses| && courses[k].id != id && EqualIgnoringCase(courses[k].rec.title, b.title.value)
  {
    match IndexOf(courses, id)
    case None => Err(Fail(404, CourseNotFound))
    case Some(i) =>
      if b.category.Some? && !HasId(categories, b.category.value) then Err(Fail(404, CC.NotFound))
      else if Retitled(courses[i].rec, b) && FirstWhere(courses, OtherTitleLike(b.title.value, id)).Some? then
        Err(Fail(409, TitleTaken))
      else Ok(i)
  }

  /** The assignments of update: every field whose key is defined, empty strings and zeros included. */
  function UpdatedCourse(c: Course, b: CourseBody): (r: Course)
    ensures b == CourseBody(None, None, None, None, None, None, None) ==> r == c
    ensures r.title != c.title ==> b.title == Some(r.title)
    ensures r.category != c.category ==> b.category == Some(r.category)
    ensures r.price != c.price ==> b.price == Some(r.price)
    ensures r.isActive != c.isActive ==> b.isActive == Some(r.isActive)
  {
    c.(title := if b.title.Some? then b.title.value else c.title,
       category := if b.category.Some? then b.category.value else c.category,
       description := if b.description.Some? then b.description.value else c.description,
       instructor := if b.instructor.Some? then b.instructor.value else c.instructor,
       duration := if b.duration.Some? then b.duration.value else c.duration,
       price := if b.price.Some? then b.price.value else c.price,
       isActive := if b.isActive.Some? then b.isActive.value else c.isActive)
  }

  /** The in-place assignments to the fetched document, one field at a time. */
  method AssignFields(c0: Course, b: CourseBody) returns (c: Course)
    ensures c == UpdatedCourse(c0, b)
  {
    c := c0;
    if b.title.Some? { c := c.(title := b.title.value); }
    if b.category.Some? { c := c.(category := b.category.value); }
    if b.description.Some? { c := c.(description := b.description.value); }
    if b.instructor.Some? { c := c.(instructor := b.instructor.value); }
    if b.duration.Some? { c := c.(duration := b.duration.value); }
    if b.price.Some? { c := c.(price := b.price.value); }
    if b.isActive.Some? { c := c.(isActive := b.isActive.value); }
  }

  /** With unique ids, a saved update keeps titles distinct ignoring case. */
  lemma UpdateKeepsTitlesDistinct(courses: seq<Row<Course>>, categories: seq<Row<CC.Category>>, id: Id, b: CourseBody)
    requires UniqueIds(courses) && TitlesDistinctIgnoringCase(courses) && UpdateCourseCheck(courses, categories, id, b).Ok?
    requires var i := UpdateCourseCheck(courses, categories, id, b).value;
             SaveErrors(UpdatedCourse(courses[i].rec, b)) == []
    ensures var i := UpdateCourseCheck(courses, categories, id, b).value;
            TitlesDistinctIgnoringCase(courses[i := Row(id, UpdatedCourse(courses[i].rec, b))])
  {
    var i := UpdateCourseCheck(courses, categories, id, b).value;
    var after := courses[i := Row(id, UpdatedCourse(courses[i].rec, b))];
    forall x, y | 0 <= x < y < |after|
      ensures !EqualIgnoringCase(after[x].rec.title, after[y].rec.title)
    {
      if x != i && y != i {
        assert after[x] == courses[x] && after[y] == courses[y];
      } else if x == i {
        assert courses[y].id != id;
      } else {
        assert courses[x].id != id;
      }
    }
  }

  method UpdateCourse(courses: Collection<Course>, categories: seq<Row<CC.Category>>, id: Id, b: CourseBody) returns (reply: Reply<Row<Course>>)
    requires courses.Valid()
    modifies courses
    ensures courses.Valid()
    ensures UpdateCourseCheck(old(courses.rows), categories, id, b).Err? ==>
              reply == UpdateCourseCheck(old(courses.rows), categories, id, b).error && courses.rows == old(courses.rows)
    ensures UpdateCourseCheck(old(courses.rows), categories, id, b).Ok? ==>
              var i := UpdateCourseCheck(old(courses.rows), categories, id, b).value;
              var c := UpdatedCourse(old(courses.rows)[i].rec, b);
              if SaveErrors(c) == [] then
                ReplacedAt(old(courses.rows), courses.rows, i, c) && reply == Send(200, courses.rows[i], "Course updated successfully")
              else
                courses.rows == old(courses.rows) && reply == HandleMongoErrors(ValidationError(SaveErrors(c)))
  {
    match UpdateCourseCheck(courses.rows, categories, id, b)
    case Err(e) =>
      reply := e;
    case Ok(i) =>
      var c := AssignFields(courses.rows[i].rec, b);
      var errs := SaveErrors(c);
      if errs != [] {
        reply := HandleMongoErrors(ValidationError(errs));
      } else {
        courses.Replace(i, c);
        reply := Send(200, courses.rows[i], "Course updated successfully");
      }
  }

  // ---------------------------------------------------------------------------
  // deleteCourse: registrations for the course are left in place.

  method DeleteCourse(courses: Collection<Course>, id: Id) returns (reply: Reply<Row<Course>>)
    requires courses.Valid()
    modifies courses
    ensures courses.Valid()
    ensures !HasId(old(courses.rows), id) ==> reply == Fail(404, CourseNotFound) && courses.rows == old(courses.rows)
    ensures HasId(old(courses.rows), id) ==>
              var i := IndexOf(old(courses.rows), id).value;
              courses.rows == old(courses.rows)[..i] + old(courses.rows)[i + 1..] && !HasId(courses.rows, id) &&
              reply == Reply(200, None, "Course deleted successfully")
  {
    match IndexOf(courses.rows, id)
    case None =>
      reply := Fail(404, CourseNotFound);
    case Some(i) =>
      DeleteRemovesId(courses.rows, i);
      courses.Delete(i);
      reply := Reply(200, None, "Course deleted successfully");
  }

  // ---------------------------------------------------------------------------
  // toggleCourseStatus

  /** Flips the active flag and nothing else; two toggles give back the stored course. */
  method ToggleCourse(courses: Collection<Course>, id: Id) returns (reply: Reply<Row<Course>>)
    requires courses.Valid()
    modifies courses
    ensures courses.Valid()
    ensures !HasId(old(courses.rows), id) ==> reply == Fail(404, CourseNotFound) && courses.rows == old(courses.rows)
    ensures HasId(old(courses.rows), id) ==>
              var i := IndexOf(old(courses.rows), id).value;
              var c := old(courses.rows)[i].rec;
              ReplacedAt(old(courses.rows), courses.rows, i, c.(isActive := !c.isActive)) &&
              reply == Send(200, courses.rows[i], CC.StatusMessage("Course", !c.isActive))
  {
    match IndexOf(courses.rows, id)
    case None =>
      reply := Fail(404, CourseNotFound);
    case Some(i) =>
      var c := courses.rows[i].rec;
      c := c.(isActive := !c.isActive);
      courses.Replace(i, c);
      reply := Send(200, courses.rows[i], CC.StatusMessage("Course", c.isActive));
  }

  /** Toggling twice leaves the collection as it was, and the two replies say opposite things. */
  method ToggleTwice(courses: Collection<Course>, id: Id) returns (first: Reply<Row<Course>>, second: Reply<Row<Course>>)
    requires courses.Valid() && HasId(courses.rows, id)
    modifies courses
    ensures courses.Valid() && courses.rows == old(courses.rows)
    ensures first.message != second.message
  {
    first := ToggleCourse(courses, id);
    assert IndexOf(courses.rows, id) == IndexOf(old(courses.rows), id);
    second := ToggleCourse(courses, id);
  }
}
