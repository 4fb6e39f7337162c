/**
 * Health categories. Create, read and update are the shared category operations of
 * `NamedCategories` under `HealthCategoryWording`; delete is refused while any healthcare
 * centre refers to the category, and that refusal comes before the existence check.
 */
module HealthCategories {
  import opened Wrappers
  import opened Envelope
  import opened Table
  import opened NamedCategories
  import opened HealthCares

  const InUse := "Cannot delete category. Healthcare centers are using this category."

  /** The query `{ category: id }` on healthcare centres. */
  function UsesCategory(id: Id): Row<HealthCare> -> bool {
    (h: Row<HealthCare>) => h.rec.category == id
  }

  /** deleteHealthCategory's checks: the position of the category to remove, or the error reply. */
  function DeleteCategoryCheck(categories: seq<Row<Category>>, centers: seq<Row<HealthCare>>, id: Id): (r: Result<nat, Reply<Row<Category>>>)
    ensures (exists k :: 0 <= k < |centers| && centers[k].rec.category == id) ==> r == Err(Fail(400, InUse))
    ensures r.Ok? <==>
              (forall k :: 0 <= k < |centers| ==> centers[k].rec.category != id) && HasId(categories, id)
    ensures (forall k :: 0 <= k < |centers| ==> centers[k].rec.category != id) && !HasId(categories, id) ==>
              r == Err(Fail(404, HealthCategoryWording.notFound))
    ensures r.Ok? ==> r.value < |categories| && categories[r.value].id == id
  {
    if Count(centers, UsesCategory(id)) > 0 then Err(Fail(400, InUse))
    else match IndexOf(categories, id)
      case None => Err(Fail(404, HealthCategoryWording.notFound))
      case Some(i) => Ok(i)
  }

  /** A permitted delete keeps every centre's category in existence. */
  lemma DeleteKeepsCategoriesExist(categories: seq<Row<Category>>, centers: seq<Row<HealthCare>>, id: Id)
    requires CategoriesExist(centers, categories) && DeleteCategoryCheck(categories, centers, id).Ok?
    ensures var i := DeleteCategoryCheck(categories, centers, id).value;
            CategoriesExist(centers, categories[..i] + categories[i + 1..])
  {
    var i := DeleteCategoryCheck(categories, centers, id).value;
    var after := categories[..i] + categories[i + 1..];
    forall k | 0 <= k < |centers|
      ensures HasId(after, centers[k].rec.category)
    {
      var c := centers[k].rec.category;
      var j :| 0 <= j < |categories| && categories[j].id == c;
      assert j != i;
      if j < i {
        assert after[j] == categories[j];
      } else {
        assert after[j - 1] == categories[j];
      }
    }
  }

  method DeleteHealthCategory(categories: Collection<Category>, centers: seq<Row<HealthCare>>, id: Id) returns (reply: Reply<Row<Category>>)
    requires categories.Valid()
    modifies categories
    ensures categories.Valid()
    ensures DeleteCategoryCheck(old(categories.rows), centers, id).Err? ==>
              reply == DeleteCategoryCheck(old(categories.rows), centers, id).error &&
              categories.rows == old(categories.rows)
    ensures DeleteCategoryCheck(old(categories.rows), centers, id).Ok? ==>
              var i := DeleteCategoryCheck(old(categories.rows), centers, id).value;
              categories.rows == old(categories.rows)[..i] + old(categories.rows)[i + 1..] &&
              reply == Reply(200, None, HealthCategoryWording.deleted)
  {
    match DeleteCategoryCheck(categories.rows, centers, id)
    case Err(e) =>
      reply := e;
    case Ok(i) =>
      categories.Delete(i);
      reply := Reply(200, None, HealthCategoryWording.deleted);
  }
}
