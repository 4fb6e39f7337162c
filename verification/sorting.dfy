/**
 * `.sort({...})` on a query result. Each sort specification is turned into a key, a sequence
 * of integers compared lexicographically: a string field contributes its character codes, an
 * ascending number `[n]`, a descending number `[-n]`. The sort is stable: documents with
 * equal keys keep their stored order.
 */
module Sorting {
  /** Lexicographic order on keys; a proper prefix comes first. */
  predicate LexLe(a: seq<int>, b: seq<int>)
    decreases |a|
  {
    |a| == 0 || (|b| > 0 && (a[0] < b[0] || (a[0] == b[0] && LexLe(a[1..], b[1..]))))
  }

  lemma {:induction false} LexRefl(a: seq<int>)
    ensures LexLe(a, a)
    decreases |a|
  {
    if |a| > 0 {
      LexRefl(a[1..]);
    }
  }

  lemma {:induction false} LexTotal(a: seq<int>, b: seq<int>)
    ensures LexLe(a, b) || LexLe(b, a)
    decreases |a|
  {
    if |a| > 0 && |b| > 0 && a[0] == b[0] {
      LexTotal(a[1..], b[1..]);
    }
  }

  lemma {:induction false} LexTrans(a: seq<int>, b: seq<int>, c: seq<int>)
    requires LexLe(a, b) && LexLe(b, c)
    ensures LexLe(a, c)
    decreases |a|
  {
    if |a| > 0 && a[0] == b[0] && b[0] == c[0] {
      LexTrans(a[1..], b[1..], c[1..]);
    }
  }

  predicate SortedBy<T>(s: seq<T>, key: T -> seq<int>) {
    forall i, j :: 0 <= i < j < |s| ==> LexLe(key(s[i]), key(s[j]))
  }

  /** Inserts `x` after every element whose key is not greater than its own. */
  function InsertBy<T>(x: T, s: seq<T>, key: T -> seq<int>): (r: seq<T>)
    requires SortedBy(s, key)
    ensures SortedBy(r, key)
    ensures multiset(r) == multiset(s) + multiset{x}
    ensures |r| == |s| + 1
  {
    if |s| == 0 then [x]
    else if LexLe(key(s[0]), key(x)) then
      var rest := InsertBy(x, s[1..], key);
      assert SortedBy(s[1..], key);
      InsertHead(s[0], rest, x, s[1..], key);
      assert s == [s[0]] + s[1..];
      [s[0]] + rest
    else
      LexTotal(key(s[0]), key(x));
      ConsSorted(x, s, key);
      [x] + s
  }

  /** `x` may go in front of a sorted `s` whose head is not smaller than `x`. */
  lemma ConsSorted<T>(x: T, s: seq<T>, key: T -> seq<int>)
    requires SortedBy(s, key) && |s| > 0 && LexLe(key(x), key(s[0]))
    ensures SortedBy([x] + s, key)
  {
    forall j | 1 <= j < |s| + 1
      ensures LexLe(key(x), key(([x] + s)[j]))
    {
      if j > 1 {
        LexTrans(key(x), key(s[0]), key(s[j - 1]));
      }
    }
  }

  /** The head `h` stays in front of `rest`, the insertion of `x` into the tail `t`. */
  lemma InsertHead<T>(h: T, rest: seq<T>, x: T, t: seq<T>, key: T -> seq<int>)
    requires SortedBy([h] + t, key) && SortedBy(rest, key)
    requires LexLe(key(h), key(x))
    requires multiset(rest) == multiset(t) + multiset{x}
    ensures SortedBy([h] + rest, key)
  {
    forall j | 0 <= j < |rest|
      ensures LexLe(key(h), key(rest[j]))
    {
      assert rest[j] in multiset(rest);
      if rest[j] != x {
        assert rest[j] in multiset(t);
        assert rest[j] in t;
        var k :| 0 <= k < |t| && t[k] == rest[j];
        assert ([h] + t)[0] == h && ([h] + t)[k + 1] == t[k];
        assert LexLe(key(([h] + t)[0]), key(([h] + t)[k + 1]));
      }
    }
  }

  /**
   * The insertion sort standing for the database's sort: the last element goes into the sort
   * of the others, after every element whose key is not greater, so ties keep input order.
   */
  function SortBy<T>(s: seq<T>, key: T -> seq<int>): (r: seq<T>)
    ensures SortedBy(r, key)
    ensures multiset(r) == multiset(s)
    ensures |r| == |s|
  {
    if |s| == 0 then []
    else
      assert s == s[..|s| - 1] + [s[|s| - 1]];
      InsertBy(s[|s| - 1], SortBy(s[..|s| - 1], key), key)
  }

  /** The elements of `s` whose key is `k`, in their order in `s`. */
  function OfKey<T>(s: seq<T>, key: T -> seq<int>, k: seq<int>): seq<T> {
    if |s| == 0 then []
    else (if key(s[0]) == k then [s[0]] else []) + OfKey(s[1..], key, k)
  }

  lemma {:induction false} OfKeyAppend<T>(a: seq<T>, b: seq<T>, key: T -> seq<int>, k: seq<int>)
    ensures OfKey(a + b, key, k) == OfKey(a, key, k) + OfKey(b, key, k)
  {
    if |a| > 0 {
      assert (a + b)[1..] == a[1..] + b;
      OfKeyAppend(a[1..], b, key, k);
    } else {
      assert a + b == b;
    }
  }

  lemma {:induction false} OfKeyNone<T>(s: seq<T>, key: T -> seq<int>, k: seq<int>)
    requires forall j :: 0 <= j < |s| ==> key(s[j]) != k
    ensures OfKey(s, key, k) == []
  {
    if |s| > 0 {
      OfKeyNone(s[1..], key, k);
    }
  }

  /** Insertion puts `x` behind every element of its own key. */
  lemma {:induction false} InsertOfKey<T>(x: T, s: seq<T>, key: T -> seq<int>, k: seq<int>)
    requires SortedBy(s, key)
    ensures OfKey(InsertBy(x, s, key), key, k) == OfKey(s, key, k) + (if key(x) == k then [x] else [])
  {
    if |s| > 0 {
      if LexLe(key(s[0]), key(x)) {
        var rest := InsertBy(x, s[1..], key);
        assert SortedBy(s[1..], key);
        InsertOfKey(x, s[1..], key, k);
        assert ([s[0]] + rest)[1..] == rest;
      } else {
        forall j | 0 <= j < |s|
          ensures key(s[j]) != key(x)
        {
          if j == 0 {
            LexRefl(key(s[0]));
          } else {
            assert LexLe(key(s[0]), key(s[j]));
          }
        }
        OfKeyNone(s, key, key(x));
        assert ([x] + s)[1..] == s;
      }
    }
  }

  /** The sort is stable: the elements sharing any one key keep their relative input order. */
  lemma {:induction false} SortByStable<T>(s: seq<T>, key: T -> seq<int>, k: seq<int>)
    ensures OfKey(SortBy(s, key), key, k) == OfKey(s, key, k)
  {
    if |s| > 0 {
      var init, last := s[..|s| - 1], s[|s| - 1];
      var sorted := SortBy(init, key);
      var tail := if key(last) == k then [last] else [];
      assert SortBy(s, key) == InsertBy(last, sorted, key);
      assert OfKey([last], key, k) == tail by {
        assert [last][1..] == [];
      }
      assert s == init + [last];
      calc {
        OfKey(SortBy(s, key), key, k);
        { InsertOfKey(last, sorted, key, k); }
        OfKey(sorted, key, k) + tail;
        { SortByStable(init, key, k); }
        OfKey(init, key, k) + tail;
        { OfKeyAppend(init, [last], key, k); }
        OfKey(s, key, k);
      }
    }
  }

  /** With one key for every element, sorting changes nothing. */
  lemma SortByOneKey<T>(s: seq<T>, key: T -> seq<int>, k: seq<int>)
    requires forall j :: 0 <= j < |s| ==> key(s[j]) == k
    ensures SortBy(s, key) == s
  {
    var r := SortBy(s, key);
    SortByStable(s, key, k);
    OfKeyAll(s, key, k);
    forall j | 0 <= j < |r|
      ensures key(r[j]) == k
    {
      assert r[j] in multiset(s);
    }
    OfKeyAll(r, key, k);
  }

  lemma {:induction false} OfKeyAll<T>(s: seq<T>, key: T -> seq<int>, k: seq<int>)
    requires forall j :: 0 <= j < |s| ==> key(s[j]) == k
    ensures OfKey(s, key, k) == s
  {
    if |s| > 0 {
      OfKeyAll(s[1..], key, k);
    }
  }

  /** Sorting keeps exactly the elements it is given. */
  lemma SortByMembers<T(!new)>(s: seq<T>, key: T -> seq<int>)
    ensures forall x :: x in SortBy(s, key) <==> x in s
  {
    var r := SortBy(s, key);
    forall x
      ensures x in r <==> x in s
    {
      assert x in r <==> x in multiset(r);
      assert x in s <==> x in multiset(s);
    }
  }

  /** Ascending order of a string field. */
  function AscString(s: string): (k: seq<int>)
    ensures |k| == |s|
    ensures forall i :: 0 <= i < |s| ==> k[i] == s[i] as int
  {
    seq(|s|, i requires 0 <= i < |s| => s[i] as int)
  }

  /** Strings ordered by code points: equal keys mean equal strings. */
  lemma AscStringInjective(a: string, b: string)
    requires AscString(a) == AscString(b)
    ensures a == b
  {
    assert |a| == |b|;
    forall i | 0 <= i < |a|
      ensures a[i] == b[i]
    {
      assert AscString(a)[i] == AscString(b)[i];
    }
  }
}
