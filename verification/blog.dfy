/**
 * The blog controller: create and update (with the slug derived from the title and the
 * first-publish timestamp), the three paged listings, the read access rule for unpublished
 * posts, and delete. `slugify` is a function of the title passed in; `now` is the clock.
 */
module Blogs {
  import opened Wrappers
  import opened Envelope
  import opened Text
  import opened Table
  import opened Sorting
  import opened Paging
  import opened MongooseError
  import opened Principals

  datatype Blog = Blog(
    title: string,
    slug: string,
    content: string,
    kind: string,                // the `type` path: "Guide" or "News" once saved
    tags: seq<string>,
    image: string,
    publishedAt: Option<int>,    // `null` is None
    isPublished: bool)

  /** The body of create and update; `None` is an absent key. */
  datatype BlogBody = BlogBody(
    title: Option<string>,
    content: Option<string>,
    kind: Option<string>,
    tags: Option<seq<string>>,
    image: Option<string>,
    isPublished: Option<bool>)

  const NotFound := "Blog not found"
  const SimilarTitle := "Blog with similar title already exists"
  const FieldsRequired := "All required fields must be filled"
  const NotPublished := "Access denied. Blog is not published"

  /** The enumeration of the schema's `type` path. */
  predicate KnownType(t: string) {
    t == "Guide" || t == "News"
  }

  /** What `save` reports of a blog: the required paths left empty and a `type` outside the enum. */
  function SaveErrors(b: Blog): (errs: seq<string>)
    ensures errs == [] <==>
              b.title != "" && b.slug != "" && b.content != "" && KnownType(b.kind) && b.image != ""
  {
    (if b.title == "" then [RequiredMessage("title")] else []) +
    (if b.slug == "" then [RequiredMessage("slug")] else []) +
    (if b.content == "" then [RequiredMessage("content")] else []) +
    (if b.kind == "" then [RequiredMessage("type")]
     else if !KnownType(b.kind) then [EnumMessage(b.kind, "type")] else []) +
    (if b.image == "" then [RequiredMessage("image")] else [])
  }

  /** The query `{ slug }`. */
  function SlugIs(slug: string): Row<Blog> -> bool {
    (b: Row<Blog>) => b.rec.slug == slug
  }

  /** No two blogs share a slug. */
  predicate SlugsDistinct(rows: seq<Row<Blog>>) {
    forall i, j :: 0 <= i < j < |rows| ==> rows[i].rec.slug != rows[j].rec.slug
  }

  /** A published blog carries its publication date. */
  predicate Stamped(b: Blog) {
    b.isPublished ==> b.publishedAt.Some?
  }

  predicate AllStamped(rows: seq<Row<Blog>>) {
    forall k :: 0 <= k < |rows| ==> Stamped(rows[k].rec)
  }

  // ---------------------------------------------------------------------------
  // createBlog

  function CreateBlogCheck(rows: seq<Row<Blog>>, body: BlogBody, slugify: string -> string, now: int): (r: Result<Blog, Reply<Row<Blog>>>)
    ensures !(Present(body.title) && Present(body.content) && Present(body.kind) && Present(body.image)) ==>
              r == Err(Fail(400, FieldsRequired))
    ensures Present(body.title) && Present(body.content) && Present(body.kind) && Present(body.image) ==>
              (r.Err? <==> exists k :: 0 <= k < |rows| && rows[k].rec.slug == slugify(body.title.value)) &&
              (r.Err? ==> r.error == Fail(409, SimilarTitle))
    ensures r.Ok? ==>
              r.value.title == body.title.value && r.value.slug == slugify(body.title.value) &&
              r.value.content == body.content.value && r.value.kind == body.kind.value &&
              r.value.image == body.image.value &&
              r.value.tags == (if body.tags.Some? then body.tags.value else []) &&
              r.value.isPublished == (body.isPublished == Some(true)) &&
              (r.value.publishedAt.Some? <==> r.value.isPublished) &&
              (r.value.publishedAt.Some? ==> r.value.publishedAt.value == now)
  {
    if !(Present(body.title) && Present(body.content) && Present(body.kind) && Present(body.image)) then
      Err(Fail(400, FieldsRequired))
    else
      var slug := slugify(body.title.value);
      if FirstWhere(rows, SlugIs(slug)).Some? then Err(Fail(409, SimilarTitle))
      else
        var published := body.isPublished == Some(true);
        Ok(Blog(body.title.value, slug, body.content.value, body.kind.value,
                if body.tags.Some? then body.tags.value else [], body.image.value,
                if published then Some(now) else None, published))
  }

  /** A created blog's slug is new, so slugs stay distinct. */
  lemma CreateKeepsSlugsDistinct(rows: seq<Row<Blog>>, body: BlogBody, slugify: string -> string, now: int, id: Id)
    requires SlugsDistinct(rows) && CreateBlogCheck(rows, body, slugify, now).Ok?
    ensures SlugsDistinct(rows + [Row(id, CreateBlogCheck(rows, body, slugify, now).value)])
  {
    var after := rows + [Row(id, CreateBlogCheck(rows, body, slugify, now).value)];
    forall i, j | 0 <= i < j < |after|
      ensures after[i].rec.slug != after[j].rec.slug
    {
      assert after[i] == rows[i];
      if j < |rows| {
        assert after[j] == rows[j];
      }
    }
  }

  /** A created blog is stamped when published. */
  lemma CreateKeepsStamped(rows: seq<Row<Blog>>, body: BlogBody, slugify: string -> string, now: int, id: Id)
    requires AllStamped(rows) && CreateBlogCheck(rows, body, slugify, now).Ok?
    ensures AllStamped(rows + [Row(id, CreateBlogCheck(rows, body, slugify, now).value)])
  {
    var after := rows + [Row(id, CreateBlogCheck(rows, body, slugify, now).value)];
    forall k | 0 <= k < |after|
      ensures Stamped(after[k].rec)
    {
      if k < |rows| {
        assert after[k] == rows[k];
      }
    }
  }

  method CreateBlog(blogs: Collection<Blog>, body: BlogBody, slugify: string -> string, now: int) returns (reply: Reply<Row<Blog>>)
    requires blogs.Valid()
    modifies blogs
    ensures blogs.Valid()
    ensures CreateBlogCheck(old(blogs.rows), body, slugify, now).Err? ==>
              reply == CreateBlogCheck(old(blogs.rows), body, slugify, now).error && blogs.rows == old(blogs.rows)
    ensures CreateBlogCheck(old(blogs.rows), body, slugify, now).Ok? ==>
              var b := CreateBlogCheck(old(blogs.rows), body, slugify, now).value;
              if SaveErrors(b) == [] then
                Appended(old(blogs.rows), blogs.rows, b) && reply == Send(201, Last(blogs.rows), "Blog created successfully")
              else
                blogs.rows == old(blogs.rows) && reply == HandleMongoErrors(ValidationError(SaveErrors(b)))
  {
    match CreateBlogCheck(blogs.rows, body, slugify, now)
    case Err(e) =>
      reply := e;
    case Ok(b) =>
      var errs := SaveErrors(b);
      if errs != [] {
        reply := HandleMongoErrors(ValidationError(errs));
      } else {
        var row := blogs.Insert(b);
        reply := Send(201, row, "Blog created successfully");
      }
  }

  // ---------------------------------------------------------------------------
  // updateBlog

  /** A title is supplied and differs from the stored one, so the slug is recomputed. */
  predicate Retitled(b: Blog, body: BlogBody) {
    Present(body.title) && body.title.value != b.title
  }

  /** The query `{ slug, _id: { $ne: id } }`. */
  function OtherWithSlug(slug: string, id: Id): Row<Blog> -> bool {
    (b: Row<Blog>) => b.rec.slug == slug && b.id != id
  }

  /** update's checks: the position of the blog and the slug it will carry, or the error reply. */
  function UpdateBlogCheck(rows: seq<Row<Blog>>, id: Id, body: BlogBody, slugify: string -> string): (r: Result<(nat, string), Reply<Row<Blog>>>)
    ensures !HasId(rows, id) ==> r == Err(Fail(404, NotFound))
    ensures r.Ok? ==> r.value.0 < |rows| && rows[r.value.0].id == id
    ensures r.Ok? && Retitled(rows[r.value.0].rec, body) ==>
              r.value.1 == slugify(body.title.value) &&
              forall k :: 0 <= k < |rows| && rows[k].id != id ==> rows[k].rec.slug != r.value.1
    ensures r.Ok? && !Retitled(rows[r.value.0].rec, body) ==> r.value.1 == rows[r.value.0].rec.slug
    ensures HasId(rows, id) && r.Err? ==>
              r.error == Fail(409, SimilarTitle) && Retitled(rows[IndexOf(rows, id).value].rec, body) &&
              exists k :: 0 <= k < |rows| && rows[k].id != id && rows[k].rec.slug == slugify(body.title.value)
  {
    match IndexOf(rows, id)
    case None => Err(Fail(404, NotFound))
    case Some(i) =>
      if Retitled(rows[i].rec, body) then
        var slug := slugify(body.title.value);
        if FirstWhere(rows, OtherWithSlug(slug, id)).Some? then Err(Fail(409, SimilarTitle))
        else Ok((i, slug))
      else Ok((i, rows[i].rec.slug))
  }

  /**
   * The assignments of update: title, content, `type` and image when truthy, tags and
   * `isPublished` when defined, a first publication stamps `publishedAt`, and the slug.
   */
  function UpdatedBlog(b: Blog, body: BlogBody, slug: string, now: int): (r: Blog)
    ensures r.slug == slug
    ensures b.publishedAt.Some? ==> r.publishedAt == b.publishedAt
    ensures r.publishedAt != b.publishedAt ==> r.publishedAt == Some(now) && body.isPublished == Some(true)
    ensures Stamped(b) ==> Stamped(r)
    ensures r.isPublished == (if body.isPublished.Some? then body.isPublished.value else b.isPublished)
  {
    var published := if body.isPublished.Some? then body.isPublished.value else b.isPublished;
    b.(title := if Present(body.title) then body.title.value else b.title,
       content := if Present(body.content) then body.content.value else b.content,
       kind := if Present(body.kind) then body.kind.value else b.kind,
       tags := if body.tags.Some? then body.tags.value else b.tags,
       image := if Present(body.image) then body.image.value else b.image,
       isPublished := published,
       publishedAt := if body.isPublished == Some(true) && b.publishedAt.None? then Some(now) else b.publishedAt,
       slug := slug)
  }

  /** The in-place assignments to the fetched document, one field at a time. */
  method AssignFields(b0: Blog, body: BlogBody, slug: string, now: int) returns (b: Blog)
    ensures b == UpdatedBlog(b0, body, slug, now)
  {
    b := b0;
    if Present(body.title) { b := b.(title := body.title.value); }
    if Present(body.content) { b := b.(content := body.content.value); }
    if Present(body.kind) { b := b.(kind := body.kind.value); }
    if body.tags.Some? { b := b.(tags := body.tags.value); }
    if Present(body.image) { b := b.(image := body.image.value); }
    if body.isPublished.Some? {
      b := b.(isPublished := body.isPublished.value);
      if body.isPublished.value && b.publishedAt.None? {
        b := b.(publishedAt := Some(now));
      }
    }
    b := b.(slug := slug);
  }

  /** With unique ids, an update that passes its checks keeps slugs distinct. */
  lemma UpdateKeepsSlugsDistinct(rows: seq<Row<Blog>>, id: Id, body: BlogBody, slugify: string -> string, now: int)
    requires UniqueIds(rows) && SlugsDistinct(rows) && UpdateBlogCheck(rows, id, body, slugify).Ok?
    ensures var (i, slug) := UpdateBlogCheck(rows, id, body, slugify).value;
            SlugsDistinct(rows[i := Row(id, UpdatedBlog(rows[i].rec, body, slug, now))])
  {
    var (i, slug) := UpdateBlogCheck(rows, id, body, slugify).value;
    var after := rows[i := Row(id, UpdatedBlog(rows[i].rec, body, slug, now))];
    forall a, b | 0 <= a < b < |after|
      ensures after[a].rec.slug != after[b].rec.slug
    {
      if a != i && b != i {
        assert after[a] == rows[a] && after[b] == rows[b];
      } else if a == i {
        assert rows[b].id != id;
      } else {
        assert rows[a].id != id;
      }
    }
  }

  /** An update keeps every published blog stamped. */
  lemma UpdateKeepsStamped(rows: seq<Row<Blog>>, id: Id, body: BlogBody, slugify: string -> string, now: int)
    requires AllStamped(rows) && UpdateBlogCheck(rows, id, body, slugify).Ok?
    ensures var (i, slug) := UpdateBlogCheck(rows, id, body, slugify).value;
            AllStamped(rows[i := Row(id, UpdatedBlog(rows[i].rec, body, slug, now))])
  {
    var (i, slug) := UpdateBlogCheck(rows, id, body, slugify).value;
    var after := rows[i := Row(id, UpdatedBlog(rows[i].rec, body, slug, now))];
    forall k | 0 <= k < |after|
      ensures Stamped(after[k].rec)
    {
      if k != i {
        assert after[k] == rows[k];
      } else {
        assert Stamped(rows[i].rec);
      }
    }
  }

  method UpdateBlog(blogs: Collection<Blog>, id: Id, body: BlogBody, slugify: string -> string, now: int) returns (reply: Reply<Row<Blog>>)
    requires blogs.Valid()
    modifies blogs
    ensures blogs.Valid()
    ensures UpdateBlogCheck(old(blogs.rows), id, body, slugify).Err? ==>
              reply == UpdateBlogCheck(old(blogs.rows), id, body, slugify).error && blogs.rows == old(blogs.rows)
    ensures UpdateBlogCheck(old(blogs.rows), id, body, slugify).Ok? ==>
              var (i, slug) := UpdateBlogCheck(old(blogs.rows), id, body, slugify).value;
              var b := UpdatedBlog(old(blogs.rows)[i].rec, body, slug, now);
              if SaveErrors(b) == [] then
                ReplacedAt(old(blogs.rows), blogs.rows, i, b) && reply == Send(200, blogs.rows[i], "Blog updated successfully")
              else
                blogs.rows == old(blogs.rows) && reply == HandleMongoErrors(ValidationError(SaveErrors(b)))
  {
    match UpdateBlogCheck(blogs.rows, id, body, slugify)
    case Err(e) =>
      reply := e;
    case Ok((i, slug)) =>
      var b := AssignFields(blogs.rows[i].rec, body, slug, now);
      var errs := SaveErrors(b);
      if errs != [] {
        reply := HandleMongoErrors(ValidationError(errs));
      } else {
        blogs.Replace(i, b);
        reply := Send(200, blogs.rows[i], "Blog updated successfully");
      }
  }

  // ---------------------------------------------------------------------------
  // deleteBlog

  method DeleteBlog(blogs: Collection<Blog>, id: Id) returns (reply: Reply<Row<Blog>>)
    requires blogs.Valid()
    modifies blogs
    ensures blogs.Valid()
    ensures !HasId(old(blogs.rows), id) ==> reply == Fail(404, NotFound) && blogs.rows == old(blogs.rows)
    ensures HasId(old(blogs.rows), id) ==>
              var i := IndexOf(old(blogs.rows), id).value;
              blogs.rows == old(blogs.rows)[..i] + old(blogs.rows)[i + 1..] &&
              reply == Reply(200, None, "Blog deleted successfully")
  {
    match IndexOf(blogs.rows, id)
    case None =>
      reply := Fail(404, NotFound);
    case Some(i) =>
      blogs.Delete(i);
      reply := Reply(200, None, "Blog deleted successfully");
  }

  // ---------------------------------------------------------------------------
  // getBlogById and getBlogBySlug

  /** `req.user.role === "admin"` for the user the request carries, if any. */
  predicate IsAdmin(viewer: Option<User>) {
    viewer.Some? && viewer.value.role == Some("admin")
  }

  /** The reply for a looked-up blog: unpublished posts are shown to admins only. */
  function ShowBlog(found: Option<Row<Blog>>, viewer: Option<User>): (r: Reply<Row<Blog>>)
    ensures found.None? <==> r == Fail(404, NotFound)
    ensures r.statusCode == 403 <==> found.Some? && !found.value.rec.isPublished && !IsAdmin(viewer)
    ensures r.statusCode == 403 ==> r == Fail(403, NotPublished)
    ensures r.statusCode == 200 <==> found.Some? && (found.value.rec.isPublished || IsAdmin(viewer))
    ensures r.statusCode == 200 ==> r.data == found && r.message == "Blog retrieved successfully"
  {
    match found
    case None => Fail(404, NotFound)
    case Some(b) =>
      if !b.rec.isPublished && !IsAdmin(viewer) then Fail(403, NotPublished)
      else Send(200, b, "Blog retrieved successfully")
  }

  function BlogById(rows: seq<Row<Blog>>, id: Id, viewer: Option<User>): (r: Reply<Row<Blog>>)
    ensures r.statusCode == 404 <==> !HasId(rows, id)
    ensures r.statusCode == 200 ==> r.data.Some? && r.data.value in rows && r.data.value.id == id &&
                                    (r.data.value.rec.isPublished || IsAdmin(viewer))
  {
    ShowBlog(Get(rows, id), viewer)
  }

  function BlogBySlug(rows: seq<Row<Blog>>, slug: string, viewer: Option<User>): (r: Reply<Row<Blog>>)
    ensures r.statusCode == 404 <==> forall k :: 0 <= k < |rows| ==> rows[k].rec.slug != slug
    ensures r.statusCode == 200 ==> r.data.Some? && r.data.value in rows && r.data.value.rec.slug == slug &&
                                    (r.data.value.rec.isPublished || IsAdmin(viewer))
  {
    match FirstWhere(rows, SlugIs(slug))
    case None => ShowBlog(None, viewer)
    case Some(i) => ShowBlog(Some(rows[i]), viewer)
  }

  /**
   * The read routes are mounted without an authentication middleware, so `req.user` is never
   * set there: an unpublished blog is refused to every caller, admins included.
   */
  lemma PublicRoutesNeverShowDrafts(rows: seq<Row<Blog>>, id: Id, slug: string)
    ensures BlogById(rows, id, None).statusCode == 200 ==> BlogById(rows, id, None).data.value.rec.isPublished
    ensures BlogBySlug(rows, slug, None).statusCode == 200 ==> BlogBySlug(rows, slug, None).data.value.rec.isPublished
  {
  }

  // ---------------------------------------------------------------------------
  // The paged listings: getAllBlogs, getPublishedBlogs, searchBlogs

  /** `{ publishedAt: -1 }`: newest first, blogs without a date (null) last. */
  function NewestFirst(b: Row<Blog>): seq<int> {
    match b.rec.publishedAt
    case Some(t) => [0, -t]
    case None => [1]
  }

  datatype Pagination = Pagination(currentPage: int, totalPages: nat, totalBlogs: nat, hasNext: bool, hasPrev: bool)

  datatype BlogPage = BlogPage(blogs: seq<Row<Blog>>, pagination: Pagination)

  /** `parseInt` of a query parameter, with the default used when it is absent; `None` is NaN. */
  function ParsedOr(param: Option<NumberText>, default: int): Option<int> {
    if param.None? then Some(default) else param.value.parsed
  }

  /** `$skip` needs a non-negative integer and `$limit` a positive one. */
  predicate PageableBy(page: Option<int>, limit: Option<int>) {
    page.Some? && limit.Some? && page.value >= 1 && limit.value >= 1
  }

  /**
   * One page of the blogs matching `f`, newest first, with the pagination summary. A page
   * or limit the aggregation refuses (NaN, or page below 1, or limit below 1) makes it throw,
   * which ends in a 500.
   */
  function PagedBlogs(rows: seq<Row<Blog>>, f: Row<Blog> -> bool, page: Option<NumberText>, limit: Option<NumberText>, message: string): (r: Reply<BlogPage>)
    ensures r.statusCode == 200 <==> r.data.Some?
    ensures !PageableBy(ParsedOr(page, 1), ParsedOr(limit, 10)) ==> r == Fail(500, InternalError)
    ensures PageableBy(ParsedOr(page, 1), ParsedOr(limit, 10)) ==>
              var p := ParsedOr(page, 1).value;
              var l := ParsedOr(limit, 10).value;
              var total := Count(rows, f);
              r.statusCode == 200 && r.message == message && r.data.Some? &&
              var pg := r.data.value.pagination;
              var bs := r.data.value.blogs;
              |bs| <= l && SortedBy(bs, NewestFirst) &&
              (forall b :: b in bs ==> b in rows && f(b)) &&
              bs == PageOf(SortBy(Where(rows, f), NewestFirst), p, l) &&
              pg.currentPage == p && pg.totalBlogs == total &&
              pg.totalPages * l >= total && (pg.totalPages > 0 ==> (pg.totalPages - 1) * l < total) &&
              (pg.hasNext <==> p * l < total) && (pg.hasPrev <==> p > 1)
  {
    var pn := ParsedOr(page, 1);
    var ln := ParsedOr(limit, 10);
    if !PageableBy(pn, ln) then HandleMongoErrors(Named("MongoServerError"))
    else
      var p := pn.value;
      var l := ln.value;
      var sorted := SortBy(Where(rows, f), NewestFirst);
      var total := Count(rows, f);
      SortByMembers(Where(rows, f), NewestFirst);
      PageOfSorted(sorted, p, l);
      Send(200, BlogPage(PageOf(sorted, p, l), Pagination(p, CeilDiv(total, l), total, p * l < total, p > 1)), message)
  }

  /** A page of a sorted listing is sorted and holds only items of the listing. */
  lemma PageOfSorted(s: seq<Row<Blog>>, page: int, limit: int)
    requires page >= 1 && limit >= 1 && SortedBy(s, NewestFirst)
    ensures SortedBy(PageOf(s, page, limit), NewestFirst)
    ensures forall b :: b in PageOf(s, page, limit) ==> b in s
  {
    var skip := (page - 1) * limit;
    if skip < |s| {
      var r := PageOf(s, page, limit);
      assert r == s[skip..Min(skip + limit, |s|)];
      forall i, j | 0 <= i < j < |r|
        ensures LexLe(NewestFirst(r[i]), NewestFirst(r[j]))
      {
        assert r[i] == s[skip + i] && r[j] == s[skip + j];
      }
      forall b | b in r
        ensures b in s
      {
        var k :| 0 <= k < |r| && r[k] == b;
        assert s[skip + k] == b;
      }
    }
  }

  /**
   * `hasNext` on a page says exactly whether asking for the following page (same limit)
   * brings back any blog.
   */
  lemma HasNextIffNextPageHasBlogs(rows: seq<Row<Blog>>, f: Row<Blog> -> bool, p: nat, l: nat, message: string)
    requires p >= 1 && l >= 1
    ensures var here := PagedBlogs(rows, f, Some(NumberText("", Some(p))), Some(NumberText("", Some(l))), message);
            var next := PagedBlogs(rows, f, Some(NumberText("", Some(p + 1))), Some(NumberText("", Some(l))), message);
            here.data.value.pagination.hasNext <==> |next.data.value.blogs| > 0
  {
    var sorted := SortBy(Where(rows, f), NewestFirst);
    var here := PagedBlogs(rows, f, Some(NumberText("", Some(p))), Some(NumberText("", Some(l))), message);
    var next := PagedBlogs(rows, f, Some(NumberText("", Some(p + 1))), Some(NumberText("", Some(l))), message);
    assert here.data.value.pagination.hasNext <==> p * l < Count(rows, f);
    assert next.data.value.blogs == PageOf(sorted, p + 1, l);
    WhereCount(rows, f);
    assert |sorted| == Count(rows, f);
    NextPageNonEmpty(sorted, p, l);
  }

  /** Reading pages 1 to `totalPages` in turn lists every matching blog once, newest first. */
  lemma PagesListEveryMatch(rows: seq<Row<Blog>>, f: Row<Blog> -> bool, l: nat)
    requires l >= 1
    ensures Pages(SortBy(Where(rows, f), NewestFirst), l, CeilDiv(Count(rows, f), l)) == SortBy(Where(rows, f), NewestFirst)
  {
    WhereCount(rows, f);
    AllPagesCoverAll(SortBy(Where(rows, f), NewestFirst), l);
  }

  /** The `type` and `tag` criteria, each applied only when truthy. */
  predicate TypeAndTag(b: Blog, kind: Option<string>, tag: Option<string>) {
    (Present(kind) ==> b.kind == kind.value) && (Present(tag) ==> tag.value in b.tags)
  }

  /** getAllBlogs' query: `publishedOnly` "true" or "false" filters on publication, any other value does not. */
  function AllBlogsQuery(publishedOnly: Option<string>, kind: Option<string>, tag: Option<string>): Row<Blog> -> bool {
    (b: Row<Blog>) =>
      (publishedOnly == Some("true") ==> b.rec.isPublished) &&
      (publishedOnly == Some("false") ==> !b.rec.isPublished) &&
      TypeAndTag(b.rec, kind, tag)
  }

  function AllBlogs(rows: seq<Row<Blog>>, publishedOnly: Option<string>, kind: Option<string>, tag: Option<string>,
                    page: Option<NumberText>, limit: Option<NumberText>): (r: Reply<BlogPage>)
    ensures r.statusCode == 200 <==> r.data.Some?
    ensures r.statusCode == 200 ==>
              forall b :: b in r.data.value.blogs ==>
                b in rows && TypeAndTag(b.rec, kind, tag) &&
                (publishedOnly == Some("true") ==> b.rec.isPublished) &&
                (publishedOnly == Some("false") ==> !b.rec.isPublished)
    ensures r.statusCode == 200 && publishedOnly != Some("true") && publishedOnly != Some("false") ==>
              r.data.value.pagination.totalBlogs == Count(rows, (b: Row<Blog>) => TypeAndTag(b.rec, kind, tag))
  {
    var q := AllBlogsQuery(publishedOnly, kind, tag);
    if publishedOnly != Some("true") && publishedOnly != Some("false") then
      CountSame(rows, q, (b: Row<Blog>) => TypeAndTag(b.rec, kind, tag));
      PagedBlogs(rows, q, page, limit, "Blogs retrieved successfully")
    else PagedBlogs(rows, q, page, limit, "Blogs retrieved successfully")
  }

  /** getPublishedBlogs' query. */
  function PublishedQuery(kind: Option<string>, tag: Option<string>): Row<Blog> -> bool {
    (b: Row<Blog>) => b.rec.isPublished && TypeAndTag(b.rec, kind, tag)
  }

  function PublishedBlogs(rows: seq<Row<Blog>>, kind: Option<string>, tag: Option<string>,
                          page: Option<NumberText>, limit: Option<NumberText>): (r: Reply<BlogPage>)
    ensures r.statusCode == 200 <==> r.data.Some?
    ensures r.statusCode == 200 ==>
              forall b :: b in r.data.value.blogs ==> b in rows && b.rec.isPublished && TypeAndTag(b.rec, kind, tag)
  {
    PagedBlogs(rows, PublishedQuery(kind, tag), page, limit, "Published blogs retrieved successfully")
  }

  /** The `$or` of searchBlogs: the text occurs, ignoring case, in the title, the content or a tag. */
  predicate Mentions(b: Blog, query: string) {
    ContainsIgnoringCase(b.title, query) || ContainsIgnoringCase(b.content, query) ||
    exists t :: t in b.tags && ContainsIgnoringCase(t, query)
  }

  function SearchQuery(query: Option<string>, kind: Option<string>, tag: Option<string>): Row<Blog> -> bool {
    (b: Row<Blog>) => b.rec.isPublished && (Present(query) ==> Mentions(b.rec, query.value)) && TypeAndTag(b.rec, kind, tag)
  }

  function SearchBlogs(rows: seq<Row<Blog>>, query: Option<string>, kind: Option<string>, tag: Option<string>,
                       page: Option<NumberText>, limit: Option<NumberText>): (r: Reply<BlogPage>)
    ensures r.statusCode == 200 <==> r.data.Some?
    ensures r.statusCode == 200 ==>
              forall b :: b in r.data.value.blogs ==>
                b in rows && b.rec.isPublished && TypeAndTag(b.rec, kind, tag) &&
                (Present(query) ==> Mentions(b.rec, query.value))
  {
    PagedBlogs(rows, SearchQuery(query, kind, tag), page, limit, "Blogs search results")
  }

  /** When every published blog is stamped, the published listings hold dated blogs only. */
  lemma PublishedListingIsDated(rows: seq<Row<Blog>>, kind: Option<string>, tag: Option<string>,
                                page: Option<NumberText>, limit: Option<NumberText>)
    requires AllStamped(rows)
    ensures PublishedBlogs(rows, kind, tag, page, limit).statusCode == 200 ==>
              forall b :: b in PublishedBlogs(rows, kind, tag, page, limit).data.value.blogs ==> b.rec.publishedAt.Some?
  {
    var r := PublishedBlogs(rows, kind, tag, page, limit);
    if r.statusCode == 200 {
      forall b | b in r.data.value.blogs
        ensures b.rec.publishedAt.Some?
      {
        var k :| 0 <= k < |rows| && rows[k] == b;
        assert Stamped(rows[k].rec);
      }
    }
  }
}
