/**
 * The three category controllers that share one shape: doctor categories, job categories and
 * health categories. A category has a name, an optional description and an active flag; names
 * are unique by exact comparison. The controllers differ only in their messages and in what an
 * empty description becomes on create, which `Wording` carries. The health-category delete,
 * which is guarded by the centres using the category, is in `HealthCategories`.
 */
module NamedCategories {
  import opened Wrappers
  import opened Envelope
  import opened Text
  import opened Table
  import opened Sorting

  datatype Category = Category(name: string, description: Option<string>, isActive: bool)

  /** The request body `{ name, description, isActive }`; `None` is an absent key. */
  datatype CategoryBody = CategoryBody(name: Option<string>, description: Option<string>, isActive: Option<bool>)

  /** The messages of one controller, and whether create turns a falsy description into "". */
  datatype Wording = Wording(
    duplicateOnCreate: string,
    duplicateOnUpdate: string,
    notFound: string,
    created: string,
    found: string,
    listed: string,
    activeListed: string,
    updated: string,
    deleted: string,
    fillDescription: bool)

  const NameRequired := "Category name is required"

  const DoctorCategoryWording := Wording(
    "Category already exists", "Category name already exists", "Doctor category not found",
    "Doctor category created successfully", "Doctor category retrieved successfully",
    "Doctor categories retrieved successfully", "Active doctor categories retrieved successfully",
    "Doctor category updated successfully", "Doctor category deleted successfully", false)

  const JobCategoryWording := Wording(
    "Category already exists", "Category name already exists", "Job category not found",
    "Job category created successfully", "Job category retrieved successfully",
    "Job categories retrieved successfully", "Active job categories retrieved successfully",
    "Job category updated successfully", "Job category deleted successfully", false)

  const HealthCategoryWording := Wording(
    "Health category already exists", "Health category name already exists", "Health category not found",
    "Health category created successfully", "Health category retrieved successfully",
    "Health categories retrieved successfully", "Active health categories retrieved successfully",
    "Health category updated successfully", "Health category deleted successfully", true)

  /** The query `{ name }`. */
  function NameIs(name: string): Row<Category> -> bool {
    (c: Row<Category>) => c.rec.name == name
  }

  /** `findOne({ name })`. */
  function ByName(rows: seq<Row<Category>>, name: string): (r: Option<nat>)
    ensures r.Some? ==> r.value < |rows| && rows[r.value].rec.name == name
    ensures r.None? <==> forall k :: 0 <= k < |rows| ==> rows[k].rec.name != name
  {
    FirstWhere(rows, NameIs(name))
  }

  /** No two categories share a name. */
  predicate NamesDistinct(rows: seq<Row<Category>>) {
    forall i, j :: 0 <= i < j < |rows| ==> rows[i].rec.name != rows[j].rec.name
  }

  /** `.sort({ name: 1 })`. */
  function NameOrder(c: Row<Category>): seq<int> {
    AscString(c.rec.name)
  }

  // ---------------------------------------------------------------------------
  // create

  function CreateCategoryCheck(rows: seq<Row<Category>>, body: CategoryBody, w: Wording): (r: Result<Category, Reply<Row<Category>>>)
    ensures !Present(body.name) ==> r == Err(Fail(400, NameRequired))
    ensures Present(body.name) ==>
              (r.Err? <==> ByName(rows, body.name.value).Some?) &&
              (r.Err? ==> r.error == Fail(409, w.duplicateOnCreate))
    ensures r.Ok? ==> r.value.name == body.name.value && r.value.isActive == (body.isActive == Some(true))
    ensures r.Ok? && w.fillDescription ==>
              r.value.description == (if Present(body.description) then body.description else Some(""))
    ensures r.Ok? && !w.fillDescription ==> r.value.description == body.description
  {
    if !Present(body.name) then Err(Fail(400, NameRequired))
    else if ByName(rows, body.name.value).Some? then Err(Fail(409, w.duplicateOnCreate))
    else
      var description := if w.fillDescription && !Present(body.description) then Some("") else body.description;
      Ok(Category(body.name.value, description, body.isActive == Some(true)))
  }

  /** A create that passes its checks keeps names distinct. */
  lemma CreateKeepsNamesDistinct(rows: seq<Row<Category>>, body: CategoryBody, w: Wording, id: Id)
    requires NamesDistinct(rows) && CreateCategoryCheck(rows, body, w).Ok?
    ensures NamesDistinct(rows + [Row(id, CreateCategoryCheck(rows, body, w).value)])
  {
    var after := rows + [Row(id, CreateCategoryCheck(rows, body, w).value)];
    forall i, j | 0 <= i < j < |after|
      ensures after[i].rec.name != after[j].rec.name
    {
      assert after[i] == rows[i];
      if j < |rows| {
        assert after[j] == rows[j];
      }
    }
  }

  method CreateCategory(cats: Collection<Category>, body: CategoryBody, w: Wording) returns (reply: Reply<Row<Category>>)
    requires cats.Valid()
    modifies cats
    ensures cats.Valid()
    ensures CreateCategoryCheck(old(cats.rows), body, w).Err? ==>
              reply == CreateCategoryCheck(old(cats.rows), body, w).error && cats.rows == old(cats.rows)
    ensures CreateCategoryCheck(old(cats.rows), body, w).Ok? ==>
              Appended(old(cats.rows), cats.rows, CreateCategoryCheck(old(cats.rows), body, w).value) &&
              reply == Send(201, Last(cats.rows), w.created)
  {
    match CreateCategoryCheck(cats.rows, body, w)
    case Err(e) =>
      reply := e;
    case Ok(c) =>
      var row := cats.Insert(c);
      reply := Send(201, row, w.created);
  }

  // ---------------------------------------------------------------------------
  // read

  function AllCategories(rows: seq<Row<Category>>, w: Wording): (r: Reply<seq<Row<Category>>>)
    ensures r.statusCode == 200 && r.message == w.listed && r.data.Some?
    ensures SortedBy(r.data.value, NameOrder) && multiset(r.data.value) == multiset(rows)
  {
    Send(200, SortBy(rows, NameOrder), w.listed)
  }

  function IsActive(c: Row<Category>): bool {
    c.rec.isActive
  }

  function ActiveCategories(rows: seq<Row<Category>>, w: Wording): (r: Reply<seq<Row<Category>>>)
    ensures r.statusCode == 200 && r.message == w.activeListed && r.data.Some?
    ensures SortedBy(r.data.value, NameOrder)
    ensures forall c :: c in r.data.value <==> c in rows && c.rec.isActive
    ensures CountsOf(r.data.value, rows, IsActive)
  {
    SortByMembers(Where(rows, IsActive), NameOrder);
    Send(200, SortBy(Where(rows, IsActive), NameOrder), w.activeListed)
  }

  function CategoryById(rows: seq<Row<Category>>, id: Id, w: Wording): (r: Reply<Row<Category>>)
    ensures r.statusCode == 404 <==> !HasId(rows, id)
    ensures r.statusCode == 404 ==> r == Fail(404, w.notFound)
    ensures r.statusCode != 404 ==> r.statusCode == 200 && r.data.Some? && r.data.value in rows && r.data.value.id == id
  {
    match Get(rows, id)
    case None => Fail(404, w.notFound)
    case Some(c) => Send(200, c, w.found)
  }

  // ---------------------------------------------------------------------------
  // update

  /** update's checks: the position of the category to change, or the error reply. */
  function UpdateCategoryCheck(rows: seq<Row<Category>>, id: Id, body: CategoryBody, w: Wording): (r: Result<nat, Reply<Row<Category>>>)
    ensures !HasId(rows, id) ==> r == Err(Fail(404, w.notFound))
    ensures r.Ok? ==> r.value < |rows| && rows[r.value].id == id
    ensures r.Ok? <==>
              HasId(rows, id) &&
              !(Present(body.name) && body.name.value != rows[IndexOf(rows, id).value].rec.name &&
                ByName(rows, body.name.value).Some?)
    ensures HasId(rows, id) && r.Err? ==> r.error == Fail(409, w.duplicateOnUpdate)
  {
    match IndexOf(rows, id)
    case None => Err(Fail(404, w.notFound))
    case Some(i) =>
      if Present(body.name) && body.name.value != rows[i].rec.name && ByName(rows, body.name.value).Some? then
        Err(Fail(409, w.duplicateOnUpdate))
      else Ok(i)
  }

  /** The assignments of update: `name` when truthy, the other two when defined. */
  function Patched(c: Category, body: CategoryBody): Category {
    c.(name := if Present(body.name) then body.name.value else c.name,
       description := if body.description.Some? then body.description else c.description,
       isActive := if body.isActive.Some? then body.isActive.value else c.isActive)
  }

  /** An update that passes its checks keeps names distinct. */
  lemma UpdateKeepsNamesDistinct(rows: seq<Row<Category>>, id: Id, body: CategoryBody, w: Wording)
    requires NamesDistinct(rows) && UpdateCategoryCheck(rows, id, body, w).Ok?
    ensures var i := UpdateCategoryCheck(rows, id, body, w).value;
            NamesDistinct(rows[i := Row(id, Patched(rows[i].rec, body))])
  {
    var i := UpdateCategoryCheck(rows, id, body, w).value;
    var after := rows[i := Row(id, Patched(rows[i].rec, body))];
    forall a, b | 0 <= a < b < |after|
      ensures after[a].rec.name != after[b].rec.name
    {
      if a != i && b != i {
        assert after[a] == rows[a] && after[b] == rows[b];
      } else if Present(body.name) && body.name.value != rows[i].rec.name {
        assert ByName(rows, body.name.value).None?;
      }
    }
  }

  method UpdateCategory(cats: Collection<Category>, id: Id, body: CategoryBody, w: Wording) returns (reply: Reply<Row<Category>>)
    requires cats.Valid()
    modifies cats
    ensures cats.Valid()
    ensures UpdateCategoryCheck(old(cats.rows), id, body, w).Err? ==>
              reply == UpdateCategoryCheck(old(cats.rows), id, body, w).error && cats.rows == old(cats.rows)
    ensures UpdateCategoryCheck(old(cats.rows), id, body, w).Ok? ==>
              var i := UpdateCategoryCheck(old(cats.rows), id, body, w).value;
              ReplacedAt(old(cats.rows), cats.rows, i, Patched(old(cats.rows)[i].rec, body)) &&
              reply == Send(200, cats.rows[i], w.updated)
  {
    match UpdateCategoryCheck(cats.rows, id, body, w)
    case Err(e) =>
      reply := e;
    case Ok(i) =>
      cats.Replace(i, Patched(cats.rows[i].rec, body));
      reply := Send(200, cats.rows[i], w.updated);
  }

  // ---------------------------------------------------------------------------
  // delete

  /** `findByIdAndDelete`: 404 when absent, otherwise the category is removed. */
  method DeleteCategory(cats: Collection<Category>, id: Id, w: Wording) returns (reply: Reply<Row<Category>>)
    requires cats.Valid()
    modifies cats
    ensures cats.Valid()
    ensures !HasId(old(cats.rows), id) ==> reply == Fail(404, w.notFound) && cats.rows == old(cats.rows)
    ensures HasId(old(cats.rows), id) ==>
              var i := IndexOf(old(cats.rows), id).value;
              cats.rows == old(cats.rows)[..i] + old(cats.rows)[i + 1..] && reply == Reply(200, None, w.deleted)
  {
    match IndexOf(cats.rows, id)
    case None =>
      reply := Fail(404, w.notFound);
    case Some(i) =>
      cats.Delete(i);
      reply := Reply(200, None, w.deleted);
  }
}
