/**
 * An in-memory stand-in for one MongoDB collection: the documents in insertion ("natural")
 * order, each under an id the collection never reuses. Queries (`find`, `findOne`,
 * `countDocuments`) are functions over the rows; `save`, in-place update and delete are
 * methods of the collection object.
 */
module Table {
  import opened Wrappers

  /** A document id (`_id`). Ids are never malformed here: see README, Left out. */
  type Id = nat

  datatype Row<R> = Row(id: Id, rec: R)

  predicate UniqueIds<R>(rows: seq<Row<R>>) {
    forall i, j :: 0 <= i < j < |rows| ==> rows[i].id != rows[j].id
  }

  predicate HasId<R>(rows: seq<Row<R>>, id: Id) {
    exists i :: 0 <= i < |rows| && rows[i].id == id
  }

  /** `findOne(query)`: the position of the first document satisfying `p`, if any. */
  function FirstWhere<R>(rows: seq<Row<R>>, p: Row<R> -> bool): (r: Option<nat>)
    ensures r.Some? ==> r.value < |rows| && p(rows[r.value])
    ensures r.Some? ==> forall k :: 0 <= k < r.value ==> !p(rows[k])
    ensures r.None? <==> forall k :: 0 <= k < |rows| ==> !p(rows[k])
  {
    if |rows| == 0 then None
    else if p(rows[0]) then Some(0)
    else match FirstWhere(rows[1..], p)
      case None => None
      case Some(k) => Some(k + 1)
  }

  /** `findById(id)`: the position of the document with that id, if any. */
  function IndexOf<R>(rows: seq<Row<R>>, id: Id): (r: Option<nat>)
    ensures r.Some? ==> r.value < |rows| && rows[r.value].id == id
    ensures r.None? <==> !HasId(rows, id)
  {
    FirstWhere(rows, (row: Row<R>) => row.id == id)
  }

  /** `findById(id)` returning the document itself. */
  function Get<R>(rows: seq<Row<R>>, id: Id): (r: Option<Row<R>>)
    ensures r.Some? ==> r.value.id == id && r.value in rows
    ensures r.None? <==> !HasId(rows, id)
  {
    match IndexOf(rows, id)
    case Some(i) => Some(rows[i])
    case None => None
  }

  /** `a` is `b` with some elements left out; the ones kept stay in their order in `b`. */
  ghost predicate Subsequence<T>(a: seq<T>, b: seq<T>)
    decreases |b|
  {
    if |a| == 0 then true
    else if |b| == 0 then false
    else (a[0] == b[0] && Subsequence(a[1..], b[1..])) || Subsequence(a, b[1..])
  }

  /** `r` holds each document satisfying `p` exactly as often as `rows` does, and no other. */
  ghost predicate CountsOf<R(!new)>(r: seq<Row<R>>, rows: seq<Row<R>>, p: Row<R> -> bool) {
    forall x :: multiset(r)[x] == if p(x) then multiset(rows)[x] else 0
  }

  /** `find(query)` without a sort: the matching documents in natural order. */
  function Where<R(!new)>(rows: seq<Row<R>>, p: Row<R> -> bool): (r: seq<Row<R>>)
    ensures |r| <= |rows|
    ensures forall x :: x in r <==> x in rows && p(x)
    ensures CountsOf(r, rows, p) && Subsequence(r, rows)
  {
    if |rows| == 0 then []
    else
      assert rows == [rows[0]] + rows[1..];
      if p(rows[0]) then
        var rest := Where(rows[1..], p);
        assert ([rows[0]] + rest)[1..] == rest;
        [rows[0]] + rest
      else Where(rows[1..], p)
  }

  /** A subsequence holds each element at most as often as the sequence it is taken from. */
  lemma {:induction false} SubsequenceCounts<T>(a: seq<T>, b: seq<T>)
    ensures Subsequence(a, b) ==> multiset(a) <= multiset(b)
    decreases |b|
  {
    if |a| > 0 && |b| > 0 {
      assert a == [a[0]] + a[1..];
      assert b == [b[0]] + b[1..];
      SubsequenceCounts(a[1..], b[1..]);
      SubsequenceCounts(a, b[1..]);
    }
  }

  /**
   * The matching documents in natural order, each as often as stored, are one sequence only:
   * the result of `Where`.
   */
  lemma {:induction false} FilterIsWhere<R(!new)>(r: seq<Row<R>>, rows: seq<Row<R>>, p: Row<R> -> bool)
    requires CountsOf(r, rows, p) && Subsequence(r, rows)
    ensures r == Where(rows, p)
    decreases |rows|
  {
    if |rows| > 0 {
      var h := rows[0];
      assert rows == [h] + rows[1..];
      if p(h) {
        SubsequenceCounts(r, rows[1..]);
        assert multiset(r)[h] == multiset(rows[1..])[h] + 1;
        assert r[0] == h && Subsequence(r[1..], rows[1..]);
        assert r == [h] + r[1..];
        FilterIsWhere(r[1..], rows[1..], p);
      } else {
        if |r| > 0 {
          assert r[0] in multiset(r);
        }
        FilterIsWhere(r, rows[1..], p);
      }
    }
  }

  /** `countDocuments(query)`. */
  function Count<R>(rows: seq<Row<R>>, p: Row<R> -> bool): (n: nat)
    ensures n <= |rows|
    ensures n == 0 <==> forall k :: 0 <= k < |rows| ==> !p(rows[k])
  {
    if |rows| == 0 then 0
    else (if p(rows[0]) then 1 else 0) + Count(rows[1..], p)
  }

  /** Counting splits over concatenation; used for the statistics loop. */
  lemma {:induction false} CountAppend<R>(a: seq<Row<R>>, b: seq<Row<R>>, p: Row<R> -> bool)
    ensures Count(a + b, p) == Count(a, p) + Count(b, p)
  {
    if |a| > 0 {
      assert (a + b)[1..] == a[1..] + b;
      CountAppend(a[1..], b, p);
    } else {
      assert a + b == b;
    }
  }

  /** `countDocuments(query)` counts exactly the documents `find(query)` returns. */
  lemma {:induction false} WhereCount<R(!new)>(rows: seq<Row<R>>, p: Row<R> -> bool)
    ensures |Where(rows, p)| == Count(rows, p)
  {
    if |rows| > 0 {
      WhereCount(rows[1..], p);
    }
  }

  /** Two queries that match the same documents count the same. */
  lemma {:induction false} CountSame<R>(rows: seq<Row<R>>, p: Row<R> -> bool, q: Row<R> -> bool)
    requires forall k :: 0 <= k < |rows| ==> p(rows[k]) == q(rows[k])
    ensures Count(rows, p) == Count(rows, q)
  {
    if |rows| > 0 {
      CountSame(rows[1..], p, q);
    }
  }

  /** A filter keeps every document it is given when every one matches. */
  lemma {:induction false} WhereAll<R(!new)>(rows: seq<Row<R>>, p: Row<R> -> bool)
    requires forall k :: 0 <= k < |rows| ==> p(rows[k])
    ensures Where(rows, p) == rows
  {
    if |rows| > 0 {
      WhereAll(rows[1..], p);
    }
  }

  /** Two filters applied one after the other are the filter on the conjunction. */
  lemma {:induction false} WhereWhere<R(!new)>(rows: seq<Row<R>>, p: Row<R> -> bool, q: Row<R> -> bool)
    ensures Where(Where(rows, p), q) == Where(rows, (x: Row<R>) => p(x) && q(x))
  {
    if |rows| > 0 {
      WhereWhere(rows[1..], p, q);
      if p(rows[0]) {
        assert Where(rows, p)[1..] == Where(rows[1..], p);
      }
    }
  }

  /** The most recently inserted document. */
  function Last<T>(s: seq<T>): T
    requires |s| > 0
  {
    s[|s| - 1]
  }

  /** `after` is `before` with one document holding `rec` appended under an id `before` does not use. */
  ghost predicate Appended<R>(before: seq<Row<R>>, after: seq<Row<R>>, rec: R) {
    |after| == |before| + 1 && after == before + [Row(Last(after).id, rec)] && !HasId(before, Last(after).id)
  }

  /** `after` is `before` with the document at `i` holding `rec` instead, under the same id. */
  ghost predicate ReplacedAt<R>(before: seq<Row<R>>, after: seq<Row<R>>, i: nat, rec: R) {
    i < |before| && after == before[i := Row(before[i].id, rec)]
  }

  /** A document appended after the first match does not change which document matches first. */
  lemma FirstWhereAppendKeeps<R>(rows: seq<Row<R>>, x: Row<R>, p: Row<R> -> bool)
    requires FirstWhere(rows, p).Some?
    ensures FirstWhere(rows + [x], p) == FirstWhere(rows, p)
  {
    assert forall k :: 0 <= k < |rows| ==> (rows + [x])[k] == rows[k];
  }

  /** A matching document appended when none matched before is the first match afterwards. */
  lemma FirstWhereAppendNew<R>(rows: seq<Row<R>>, x: Row<R>, p: Row<R> -> bool)
    requires FirstWhere(rows, p).None? && p(x)
    ensures FirstWhere(rows + [x], p) == Some(|rows|)
  {
    assert forall k :: 0 <= k < |rows| ==> (rows + [x])[k] == rows[k];
    assert (rows + [x])[|rows|] == x;
  }

  /** Replacing the first match by a document that still matches keeps it the first match. */
  lemma FirstWhereReplace<R>(rows: seq<Row<R>>, i: nat, x: Row<R>, p: Row<R> -> bool)
    requires FirstWhere(rows, p) == Some(i) && p(x)
    ensures FirstWhere(rows[i := x], p) == Some(i)
  {
    var after := rows[i := x];
    forall k | 0 <= k < i
      ensures !p(after[k])
    {
      assert after[k] == rows[k];
    }
    FirstWhereAt(after, p, i);
  }

  /** A match with no match before it is the first match. */
  lemma {:induction false} FirstWhereAt<R>(rows: seq<Row<R>>, p: Row<R> -> bool, i: nat)
    requires i < |rows| && p(rows[i])
    requires forall k :: 0 <= k < i ==> !p(rows[k])
    ensures FirstWhere(rows, p) == Some(i)
  {
    if i > 0 {
      assert !p(rows[0]);
      FirstWhereAt(rows[1..], p, i - 1);
    }
  }

  /** With unique ids, removing the document that has `id` leaves no document with that id. */
  lemma DeleteRemovesId<R>(rows: seq<Row<R>>, i: nat)
    requires UniqueIds(rows) && i < |rows|
    ensures !HasId(rows[..i] + rows[i + 1..], rows[i].id)
    ensures |rows[..i] + rows[i + 1..]| == |rows| - 1
  {
    var after := rows[..i] + rows[i + 1..];
    forall k | 0 <= k < |after|
      ensures after[k].id != rows[i].id
    {
      if k < i {
        assert after[k] == rows[k];
      } else {
        assert after[k] == rows[k + 1];
      }
    }
  }

  /**
   * One collection. `Valid` says every id is below `nextId` and no two documents share an
   * id, so an insert can always draw a fresh one.
   */
  class Collection<R> {
    var rows: seq<Row<R>>
    var nextId: Id

    ghost predicate Valid()
      reads this
    {
      UniqueIds(rows) && forall i :: 0 <= i < |rows| ==> rows[i].id < nextId
    }

    constructor()
      ensures Valid() && rows == []
    {
      rows := [];
      nextId := 0;
    }

    /** `new Model(rec).save()` / `Model.create(rec)`: appends the record under a fresh id. */
    method Insert(rec: R) returns (row: Row<R>)
      requires Valid()
      modifies this
      ensures Valid()
      ensures rows == old(rows) + [row] && row.rec == rec
      ensures !HasId(old(rows), row.id)
    {
      row := Row(nextId, rec);
      rows := rows + [row];
      nextId := nextId + 1;
    }

    /** `doc.save()` after in-place assignments: the document at `i` gets `rec`, keeping its id. */
    method Replace(i: nat, rec: R)
      requires Valid() && i < |rows|
      modifies this
      ensures Valid()
      ensures rows == old(rows)[i := Row(old(rows)[i].id, rec)]
      ensures nextId == old(nextId)
    {
      rows := rows[i := Row(rows[i].id, rec)];
    }

    /** `findByIdAndDelete` / `deleteOne`: removes the document at `i`. */
    method Delete(i: nat)
      requires Valid() && i < |rows|
      modifies this
      ensures Valid()
      ensures rows == old(rows)[..i] + old(rows)[i + 1..]
      ensures nextId == old(nextId)
    {
      rows := rows[..i] + rows[i + 1..];
    }
  }
}
