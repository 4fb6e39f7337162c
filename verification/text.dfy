/**
 * The few JavaScript string operations the handlers rely on: truthiness of a body field,
 * `startsWith`, `split(" ")`, `replace(pattern, "")`, `Array.join`, and the case-insensitive
 * matching that the handlers build from `new RegExp(..., "i")`.
 */
module Text {
  import opened Wrappers

  /** JavaScript truthiness of an optional string field: absent, null and "" are falsy. */
  predicate Present(s: Option<string>) {
    s.Some? && s.value != ""
  }

  /** JavaScript truthiness of an optional number field: absent, null and 0 are falsy. */
  predicate NumPresent(n: Option<int>) {
    n.Some? && n.value != 0
  }

  predicate StartsWith(s: string, prefix: string) {
    |prefix| <= |s| && s[..|prefix|] == prefix
  }

  /** `sub` occurs in `s` at position `i`. */
  predicate OccursAt(s: string, sub: string, i: int) {
    0 <= i && i + |sub| <= |s| && s[i..i + |sub|] == sub
  }

  predicate Contains(s: string, sub: string) {
    exists i :: 0 <= i <= |s| - |sub| && OccursAt(s, sub, i)
  }

  // ---------------------------------------------------------------------------
  // `s.split(c)` for a one-character separator

  /** `s.split(c)`: the pieces between occurrences of `c`; never empty. */
  function Split(s: string, c: char): (parts: seq<string>)
    ensures |parts| >= 1
  {
    if |s| == 0 then [""]
    else if s[0] == c then [""] + Split(s[1..], c)
    else
      var rest := Split(s[1..], c);
      [[s[0]] + rest[0]] + rest[1..]
  }

  /** The longest prefix of `s` that does not contain `c`. */
  function TakeUntil(s: string, c: char): (r: string)
    ensures |r| <= |s| && r == s[..|r|]
    ensures c !in r
    ensures |r| < |s| ==> s[|r|] == c
  {
    if |s| == 0 || s[0] == c then "" else [s[0]] + TakeUntil(s[1..], c)
  }

  /** The first piece of a split is everything before the first separator. */
  lemma {:induction false} SplitFirst(s: string, c: char)
    ensures Split(s, c)[0] == TakeUntil(s, c)
  {
    if |s| > 0 && s[0] != c {
      SplitFirst(s[1..], c);
    }
  }

  /** A separator-free word followed by the separator is split off as one piece. */
  lemma {:induction false} SplitWord(w: string, c: char, rest: string)
    requires c !in w
    ensures Split(w + [c] + rest, c) == [w] + Split(rest, c)
  {
    if |w| == 0 {
      assert w + [c] + rest == [c] + rest;
      assert ([c] + rest)[1..] == rest;
    } else {
      var s := w + [c] + rest;
      assert s[0] == w[0];
      assert s[1..] == w[1..] + [c] + rest;
      SplitWord(w[1..], c, rest);
      assert [w[0]] + w[1..] == w;
    }
  }

  // ---------------------------------------------------------------------------
  // `s.replace(pattern, "")` with a string pattern: only the first occurrence goes

  function RemoveFirst(s: string, pattern: string): (r: string)
    ensures |r| <= |s|
  {
    if |pattern| == 0 || |s| < |pattern| then s
    else if s[..|pattern|] == pattern then s[|pattern|..]
    else [s[0]] + RemoveFirst(s[1..], pattern)
  }

  /** A string that does not contain the pattern is returned unchanged. */
  lemma {:induction false} RemoveFirstAbsent(s: string, pattern: string)
    requires !Contains(s, pattern)
    ensures RemoveFirst(s, pattern) == s
  {
    if |pattern| == 0 {
      assert OccursAt(s, pattern, 0);
    } else if |s| >= |pattern| {
      assert !OccursAt(s, pattern, 0);
      if Contains(s[1..], pattern) {
        var i :| 0 <= i <= |s[1..]| - |pattern| && OccursAt(s[1..], pattern, i);
        assert s[1..][i..i + |pattern|] == pattern;
        assert s[i + 1..i + 1 + |pattern|] == s[1..][i..i + |pattern|];
        assert OccursAt(s, pattern, i + 1);
      }
      RemoveFirstAbsent(s[1..], pattern);
      assert [s[0]] + s[1..] == s;
    }
  }

  /** A string that begins with the pattern loses exactly that prefix. */
  lemma RemoveFirstPrefix(pattern: string, rest: string)
    requires |pattern| > 0
    ensures RemoveFirst(pattern + rest, pattern) == rest
  {
    assert (pattern + rest)[..|pattern|] == pattern;
    assert (pattern + rest)[|pattern|..] == rest;
  }

  // ---------------------------------------------------------------------------
  // `Array.prototype.join`

  function Join(parts: seq<string>, sep: string): string {
    if |parts| == 0 then ""
    else if |parts| == 1 then parts[0]
    else parts[0] + sep + Join(parts[1..], sep)
  }

  /** Every joined part appears, whole, in the joined text. */
  lemma {:induction false} JoinContainsEach(parts: seq<string>, sep: string, k: int)
    requires 0 <= k < |parts|
    ensures Contains(Join(parts, sep), parts[k])
  {
    var j := Join(parts, sep);
    if |parts| == 1 {
      assert OccursAt(j, parts[k], 0);
    } else if k == 0 {
      assert j[..|parts[0]|] == parts[0];
      assert OccursAt(j, parts[k], 0);
    } else {
      JoinContainsEach(parts[1..], sep, k - 1);
      var tail := Join(parts[1..], sep);
      var i :| 0 <= i <= |tail| - |parts[k]| && OccursAt(tail, parts[k], i);
      assert tail[i..i + |parts[k]|] == parts[k];
      var off := |parts[0]| + |sep|;
      assert j == parts[0] + sep + tail;
      assert j[off + i..off + i + |parts[k]|] == tail[i..i + |parts[k]|];
      assert OccursAt(j, parts[k], off + i);
    }
  }

  // ---------------------------------------------------------------------------
  // Case-insensitive matching (`new RegExp("^" + x + "$", "i")` and `{ $regex: x, $options: "i" }`)

  function LowerChar(c: char): char {
    if 'A' <= c <= 'Z' then (c as int + 32) as char else c
  }

  function Lower(s: string): (r: string)
    ensures |r| == |s|
    ensures forall i :: 0 <= i < |s| ==> r[i] == LowerChar(s[i])
  {
    seq(|s|, i requires 0 <= i < |s| => LowerChar(s[i]))
  }

  /** The whole string matches `^x$` case-insensitively. */
  predicate EqualIgnoringCase(a: string, b: string) {
    Lower(a) == Lower(b)
  }

  /** The string matches the unanchored pattern `x` case-insensitively. */
  predicate ContainsIgnoringCase(s: string, x: string) {
    Contains(Lower(s), Lower(x))
  }

  /**
   * A number sent as text (a query or route parameter): the text itself, and what
   * `parseInt(text)` gives, `None` standing for `NaN`.
   */
  datatype NumberText = NumberText(text: string, parsed: Option<int>)
}
