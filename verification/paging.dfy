/**
 * Page arithmetic of the paged listings: `$skip: (page - 1) * limit`, `$limit: limit`,
 * `totalPages: Math.ceil(total / limit)`, `hasNext: page * limit < total`, `hasPrev: page > 1`.
 */
module Paging {
  function Min(a: int, b: int): int {
    if a <= b then a else b
  }

  /** `Math.ceil(n / d)` for a positive `d`. */
  function CeilDiv(n: nat, d: int): (q: nat)
    requires d >= 1
    ensures q * d >= n
    ensures q > 0 ==> (q - 1) * d < n
    ensures q == 0 <==> n == 0
  {
    var q := (n + d - 1) / d;
    var m := (n + d - 1) % d;
    assert n + d - 1 == q * d + m && 0 <= m < d;
    assert (q - 1) * d == q * d - d;
    q
  }

  /** The items of page `page` (counted from 1) when pages hold `limit` items. */
  function PageOf<T>(s: seq<T>, page: int, limit: int): (r: seq<T>)
    requires page >= 1 && limit >= 1
    ensures |r| <= limit
  {
    var skip := (page - 1) * limit;
    if skip >= |s| then [] else s[skip..Min(skip + limit, |s|)]
  }

  /** `a <= b` scales by a positive factor. */
  lemma MulMono(a: int, b: int, d: int)
    requires a <= b && d >= 1
    ensures a * d <= b * d
  {
    assert b * d - a * d == (b - a) * d;
  }

  /** A page has items exactly when its number is at most the page count. */
  lemma PageNonEmpty<T>(s: seq<T>, page: int, limit: int)
    requires page >= 1 && limit >= 1
    ensures |PageOf(s, page, limit)| > 0 <==> page <= CeilDiv(|s|, limit)
  {
    var t := CeilDiv(|s|, limit);
    if page <= t {
      MulMono(page - 1, t - 1, limit);
    } else {
      MulMono(t, page - 1, limit);
    }
  }

  /** There is a next page exactly when `page * limit < total`. */
  lemma NextPageNonEmpty<T>(s: seq<T>, page: int, limit: int)
    requires page >= 1 && limit >= 1
    ensures |PageOf(s, page + 1, limit)| > 0 <==> page * limit < |s|
  {
  }

  /** Pages 1 to `n`, one after the other. */
  function Pages<T>(s: seq<T>, limit: int, n: nat): seq<T>
    requires limit >= 1
  {
    if n == 0 then [] else Pages(s, limit, n - 1) + PageOf(s, n, limit)
  }

  /** The first `n` pages are the first `n * limit` items. */
  lemma {:induction false} PagesArePrefix<T>(s: seq<T>, limit: int, n: nat)
    requires limit >= 1
    ensures Pages(s, limit, n) == s[..Min(n * limit, |s|)]
  {
    if n > 0 {
      PagesArePrefix(s, limit, n - 1);
      var skip := (n - 1) * limit;
      assert n * limit == skip + limit;
      if skip < |s| {
        assert s[..skip] + s[skip..Min(skip + limit, |s|)] == s[..Min(skip + limit, |s|)];
      }
    }
  }

  /** Reading every page in turn gives back the whole listing, each item once. */
  lemma AllPagesCoverAll<T>(s: seq<T>, limit: int)
    requires limit >= 1
    ensures Pages(s, limit, CeilDiv(|s|, limit)) == s
  {
    PagesArePrefix(s, limit, CeilDiv(|s|, limit));
  }
}
