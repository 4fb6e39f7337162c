/**
 * Course categories. Unlike the other category controllers, names are compared ignoring
 * case (`new RegExp("^" + name + "$", "i")`), update assigns every field that is defined
 * (so an empty name reaches `save` and is refused there), and a category can be switched
 * between active and inactive.
 */
module CourseCategories {
  import opened Wrappers
  import opened Envelope
  import opened Text
  import opened Table
  import opened Sorting
  import opened MongooseError
  import NC = NamedCategories

  type Category = NC.Category
  type CategoryBody = NC.CategoryBody

  const NameRequired := "Category name is required"
  const NotFound := "Category not found"

  /** The query `{ name: /^name$/i }`. */
  function NameLike(name: string): Row<Category> -> bool {
    (c: Row<Category>) => EqualIgnoringCase(c.rec.name, name)
  }

  /** The query `{ name: /^name$/i, _id: { $ne: id } }`. */
  function OtherNameLike(name: string, id: Id): Row<Category> -> bool {
    (c: Row<Category>) => EqualIgnoringCase(c.rec.name, name) && c.id != id
  }

  /** No two categories have names that differ only in case. */
  predicate NamesDistinctIgnoringCase(rows: seq<Row<Category>>) {
    forall i, j :: 0 <= i < j < |rows| ==> !EqualIgnoringCase(rows[i].rec.name, rows[j].rec.name)
  }

  /** What `save` reports: the one required path is `name`. */
  function SaveErrors(c: Category): (errs: seq<string>)
    ensures errs == [] <==> c.name != ""
  {
    if c.name == "" then [RequiredMessage("name")] else []
  }

  // ---------------------------------------------------------------------------
  // createCourseCategory

  function CreateCourseCategoryCheck(rows: seq<Row<Category>>, body: CategoryBody): (r: Result<Category, Reply<Row<Category>>>)
    ensures !Present(body.name) ==> r == Err(Fail(400, NameRequired))
    ensures Present(body.name) ==>
              (r.Err? <==> exists k :: 0 <= k < |rows| && EqualIgnoringCase(rows[k].rec.name, body.name.value)) &&
              (r.Err? ==> r.error == Fail(409, "Category already exists"))
    ensures r.Ok? ==>
              r.value.name == body.name.value && r.value.description == body.description &&
              r.value.isActive == (body.isActive == Some(true)) && SaveErrors(r.value) == []
  {
    if !Present(body.name) then Err(Fail(400, NameRequired))
    else if FirstWhere(rows, NameLike(body.name.value)).Some? then Err(Fail(409, "Category already exists"))
    else Ok(NC.Category(body.name.value, body.description, body.isActive == Some(true)))
  }

  /** A created category keeps names distinct ignoring case. */
  lemma CreateKeepsNamesDistinct(rows: seq<Row<Category>>, body: CategoryBody, id: Id)
    requires NamesDistinctIgnoringCase(rows) && CreateCourseCategoryCheck(rows, body).Ok?
    ensures NamesDistinctIgnoringCase(rows + [Row(id, CreateCourseCategoryCheck(rows, body).value)])
  {
    var after := rows + [Row(id, CreateCourseCategoryCheck(rows, body).value)];
    forall i, j | 0 <= i < j < |after|
      ensures !EqualIgnoringCase(after[i].rec.name, after[j].rec.name)
    {
      assert after[i] == rows[i];
      if j < |rows| {
        assert after[j] == rows[j];
      }
    }
  }

  method CreateCourseCategory(cats: Collection<Category>, body: CategoryBody) returns (reply: Reply<Row<Category>>)
    requires cats.Valid()
    modifies cats
    ensures cats.Valid()
    ensures CreateCourseCategoryCheck(old(cats.rows), body).Err? ==>
              reply == CreateCourseCategoryCheck(old(cats.rows), body).error && cats.rows == old(cats.rows)
    ensures CreateCourseCategoryCheck(old(cats.rows), body).Ok? ==>
              Appended(old(cats.rows), cats.rows, CreateCourseCategoryCheck(old(cats.rows), body).value) &&
              reply == Send(201, Last(cats.rows), "Category created successfully")
  {
    match CreateCourseCategoryCheck(cats.rows, body)
    case Err(e) =>
      reply := e;
    case Ok(c) =>
      var row := cats.Insert(c);
      reply := Send(201, row, "Category created successfully");
  }

  // ---------------------------------------------------------------------------
  // Listings and lookup, ordered by name

  function NameOrder(c: Row<Category>): seq<int> {
    AscString(c.rec.name)
  }

  /** `filter.isActive = (isActive === "true")` when the parameter is given. */
  function ActiveFilter(isActive: Option<string>): Row<Category> -> bool {
    (c: Row<Category>) => isActive.Some? ==> c.rec.isActive == (isActive.value == "true")
  }

  function AllCourseCategories(rows: seq<Row<Category>>, isActive: Option<string>): (r: Reply<seq<Row<Category>>>)
    ensures r.statusCode == 200 && r.data.Some?
    ensures SortedBy(r.data.value, NameOrder)
    ensures isActive.None? ==> multiset(r.data.value) == multiset(rows)
    ensures forall c :: c in r.data.value <==> c in rows && (isActive.Some? ==> c.rec.isActive == (isActive.value == "true"))
    ensures CountsOf(r.data.value, rows, ActiveFilter(isActive))
  {
    var found := Where(rows, ActiveFilter(isActive));
    SortByMembers(found, NameOrder);
    if isActive.None? then
      WhereAll(rows, ActiveFilter(isActive));
      Send(200, SortBy(found, NameOrder), "Categories retrieved successfully")
    else Send(200, SortBy(found, NameOrder), "Categories retrieved successfully")
  }

  function IsActive(c: Row<Category>): bool {
    c.rec.isActive
  }

  function ActiveCourseCategories(rows: seq<Row<Category>>): (r: Reply<seq<Row<Category>>>)
    ensures r.statusCode == 200 && r.data.Some?
    ensures SortedBy(r.data.value, NameOrder)
    ensures forall c :: c in r.data.value <==> c in rows && c.rec.isActive
    ensures CountsOf(r.data.value, rows, IsActive)
  {
    SortByMembers(Where(rows, IsActive), NameOrder);
    Send(200, SortBy(Where(rows, IsActive), NameOrder), "Active categories retrieved successfully")
  }

  function CourseCategoryById(rows: seq<Row<Category>>, id: Id): (r: Reply<Row<Category>>)
    ensures r.statusCode == 404 <==> !HasId(rows, id)
    ensures r.statusCode == 404 ==> r == Fail(404, NotFound)
    ensures r.statusCode != 404 ==> r.statusCode == 200 && r.data.Some? && r.data.value in rows && r.data.value.id == id
  {
    match Get(rows, id)
    case None => Fail(404, NotFound)
    case Some(c) => Send(200, c, "Category retrieved successfully")
  }

  // ---------------------------------------------------------------------------
  // updateCourseCategory

  /** A name is supplied, truthy, and differs from the stored one. */
  predicate Renamed(c: Category, body: CategoryBody) {
    Present(body.name) && body.name.value != c.name
  }

  function UpdateCourseCategoryCheck(rows: seq<Row<Category>>, id: Id, body: CategoryBody): (r: Result<nat, Reply<Row<Category>>>)
    ensures !HasId(rows, id) ==> r == Err(Fail(404, NotFound))
    ensures r.Ok? ==> r.value < |rows| && rows[r.value].id == id
    ensures r.Ok? && Renamed(rows[r.value].rec, body) ==>
              forall k :: 0 <= k < |rows| && rows[k].id != id ==> !EqualIgnoringCase(rows[k].rec.name, body.name.value)
    ensures HasId(rows, id) && r.Err? ==>
              r.error == Fail(409, "Category name already exists") && Renamed(rows[IndexOf(rows, id).value].rec, body) &&
              exists k :: 0 <= k < |rows| && rows[k].id != id && EqualIgnoringCase(rows[k].rec.name, body.name.value)
  {
    match IndexOf(rows, id)
    case None => Err(Fail(404, NotFound))
    case Some(i) =>
      if Renamed(rows[i].rec, body) && FirstWhere(rows, OtherNameLike(body.name.value, id)).Some? then
        Err(Fail(409, "Category name already exists"))
      else Ok(i)
  }

  /** The assignments of update: every field whose key is defined, an empty name included. */
  function UpdatedCategory(c: Category, body: CategoryBody): (r: Category)
    ensures body.name.None? && body.description.None? && body.isActive.None? ==> r == c
    ensures r.name != c.name ==> body.name == Some(r.name)
    ensures r.isActive != c.isActive ==> body.isActive == Some(r.isActive)
  {
    c.(name := if body.name.Some? then body.name.value else c.name,
       description := if body.description.Some? then body.description else c.description,
       isActive := if body.isActive.Some? then body.isActive.value else c.isActive)
  }

  /** With unique ids, a saved update keeps names distinct ignoring case. */
  lemma UpdateKeepsNamesDistinct(rows: seq<Row<Category>>, id: Id, body: CategoryBody)
    requires UniqueIds(rows) && NamesDistinctIgnoringCase(rows) && UpdateCourseCategoryCheck(rows, id, body).Ok?
    requires var i := UpdateCourseCategoryCheck(rows, id, body).value;
             SaveErrors(UpdatedCategory(rows[i].rec, body)) == []
    ensures var i := UpdateCourseCategoryCheck(rows, id, body).value;
            NamesDistinctIgnoringCase(rows[i := Row(id, UpdatedCategory(rows[i].rec, body))])
  {
    var i := UpdateCourseCategoryCheck(rows, id, body).value;
    var after := rows[i := Row(id, UpdatedCategory(rows[i].rec, body))];
    forall a, b | 0 <= a < b < |after|
      ensures !EqualIgnoringCase(after[a].rec.name, after[b].rec.name)
    {
      if a != i && b != i {
        assert after[a] == rows[a] && after[b] == rows[b];
      } else if a == i {
        assert rows[b].id != id;
      } else {
        assert rows[a].id != id;
      }
    }
  }

  method UpdateCourseCategory(cats: Collection<Category>, id: Id, body: CategoryBody) returns (reply: Reply<Row<Category>>)
    requires cats.Valid()
    modifies cats
    ensures cats.Valid()
    ensures UpdateCourseCategoryCheck(old(cats.rows), id, body).Err? ==>
              reply == UpdateCourseCategoryCheck(old(cats.rows), id, body).error && cats.rows == old(cats.rows)
    ensures UpdateCourseCategoryCheck(old(cats.rows), id, body).Ok? ==>
              var i := UpdateCourseCategoryCheck(old(cats.rows), id, body).value;
              var c := UpdatedCategory(old(cats.rows)[i].rec, body);
              if SaveErrors(c) == [] then
                ReplacedAt(old(cats.rows), cats.rows, i, c) && reply == Send(200, cats.rows[i], "Category updated successfully")
              else
                cats.rows == old(cats.rows) && reply == HandleMongoErrors(ValidationError(SaveErrors(c)))
  {
    match UpdateCourseCategoryCheck(cats.rows, id, body)
    case Err(e) =>
      reply := e;
    case Ok(i) =>
      var c := cats.rows[i].rec;
      if body.name.Some? { c := c.(name := body.name.value); }
      if body.description.Some? { c := c.(description := body.description); }
      if body.isActive.Some? { c := c.(isActive := body.isActive.value); }
      var errs := SaveErrors(c);
      if errs != [] {
        reply := HandleMongoErrors(ValidationError(errs));
      } else {
        cats.Replace(i, c);
        reply := Send(200, cats.rows[i], "Category updated successfully");
      }
  }

  // ---------------------------------------------------------------------------
  // deleteCourseCategory: courses in the category are left in place.

  method DeleteCourseCategory(cats: Collection<Category>, id: Id) returns (reply: Reply<Row<Category>>)
    requires cats.Valid()
    modifies cats
    ensures cats.Valid()
    ensures !HasId(old(cats.rows), id) ==> reply == Fail(404, NotFound) && cats.rows == old(cats.rows)
    ensures HasId(old(cats.rows), id) ==>
              var i := IndexOf(old(cats.rows), id).value;
              cats.rows == old(cats.rows)[..i] + old(cats.rows)[i + 1..] && !HasId(cats.rows, id) &&
              reply == Reply(200, None, "Category deleted successfully")
  {
    match IndexOf(cats.rows, id)
    case None =>
      reply := Fail(404, NotFound);
    case Some(i) =>
      DeleteRemovesId(cats.rows, i);
      cats.Delete(i);
      reply := Reply(200, None, "Category deleted successfully");
  }

  // ---------------------------------------------------------------------------
  // toggleCategoryStatus

  /** `${noun} ${active ? "activated" : "deactivated"} successfully`. */
  function StatusMessage(noun: string, active: bool): string {
    noun + (if active then " activated" else " deactivated") + " successfully"
  }

  /** Flips the active flag and nothing else. */
  method ToggleCourseCategory(cats: Collection<Category>, id: Id) returns (reply: Reply<Row<Category>>)
    requires cats.Valid()
    modifies cats
    ensures cats.Valid()
    ensures !HasId(old(cats.rows), id) ==> reply == Fail(404, NotFound) && cats.rows == old(cats.rows)
    ensures HasId(old(cats.rows), id) ==>
              var i := IndexOf(old(cats.rows), id).value;
              var c := old(cats.rows)[i].rec;
              ReplacedAt(old(cats.rows), cats.rows, i, c.(isActive := !c.isActive)) &&
              reply == Send(200, cats.rows[i], StatusMessage("Category", !c.isActive))
  {
    match IndexOf(cats.rows, id)
    case None =>
      reply := Fail(404, NotFound);
    case Some(i) =>
      var c := cats.rows[i].rec;
      c := c.(isActive := !c.isActive);
      cats.Replace(i, c);
      reply := Send(200, cats.rows[i], StatusMessage("Category", c.isActive));
  }
}
