/** Filtering and ordering of row lists: the `where` and `order by` parts of the
    repositories' queries. */
module Seqs {
  import opened Wrappers

  /** The elements of `s` that satisfy `p`, in their order in `s`. */
  function Select<T(!new)>(s: seq<T>, p: T -> bool): (r: seq<T>)
    ensures |r| <= |s|
    ensures forall x :: x in r <==> x in s && p(x)
  {
    if s == [] then []
    else
      var rest := Select(s[1..], p);
      assert s == [s[0]] + s[1..];
      if p(s[0]) then [s[0]] + rest else rest
  }

  /** Filtering a concatenation filters each part. */
  lemma {:induction false} SelectAppend<T(!new)>(a: seq<T>, b: seq<T>, p: T -> bool)
    ensures Select(a + b, p) == Select(a, p) + Select(b, p)
  {
    if a == [] {
      assert a + b == b;
    } else {
      var ab := a + b;
      assert ab[0] == a[0] && ab[1..] == a[1..] + b;
      SelectAppend(a[1..], b, p);
    }
  }

  /** Filtering by two predicates that agree on every element of `s` gives the same list. */
  lemma {:induction false} SelectAgreeing<T(!new)>(s: seq<T>, p: T -> bool, q: T -> bool)
    requires forall x :: x in s ==> p(x) == q(x)
    ensures Select(s, p) == Select(s, q)
  {
    if s != [] {
      assert forall x :: x in s[1..] ==> x in s;
      SelectAgreeing(s[1..], p, q);
    }
  }

  /** A weaker predicate keeps at least as many elements. */
  lemma {:induction false} SelectWeaker<T(!new)>(s: seq<T>, p: T -> bool, q: T -> bool)
    requires forall x :: x in s && p(x) ==> q(x)
    ensures |Select(s, p)| <= |Select(s, q)|
  {
    if s != [] {
      assert forall x :: x in s[1..] ==> x in s;
      SelectWeaker(s[1..], p, q);
    }
  }

  /** `r` holds exactly the elements of `s` that satisfy `p`, each as often as in `s`. */
  ghost predicate Exactly<T(!new)>(r: seq<T>, s: seq<T>, p: T -> bool) {
    forall x :: multiset(r)[x] == if p(x) then multiset(s)[x] else 0
  }

  /** Filtering keeps each accepted element as often as it occurs, and drops the others. */
  lemma {:induction false} SelectExactly<T(!new)>(s: seq<T>, p: T -> bool)
    ensures Exactly(Select(s, p), s, p)
  {
    if s != [] {
      SelectExactly(s[1..], p);
      assert s == [s[0]] + s[1..];
    }
  }

  lemma ExactlyMembers<T(!new)>(r: seq<T>, s: seq<T>, p: T -> bool)
    requires Exactly(r, s, p)
    ensures forall x :: x in r <==> x in s && p(x)
  {
    forall x ensures x in r <==> x in s && p(x) {
      assert multiset(r)[x] == if p(x) then multiset(s)[x] else 0;
    }
  }

  ghost predicate SortedBy<T>(s: seq<T>, le: (T, T) -> bool) {
    forall i, j :: 0 <= i < j < |s| ==> le(s[i], s[j])
  }

  ghost predicate TotalPreorder<T(!new)>(le: (T, T) -> bool) {
    && (forall a, b :: le(a, b) || le(b, a))
    && (forall a, b, c :: le(a, b) && le(b, c) ==> le(a, c))
  }

  /** Prepending an element no greater than any of a sorted sequence keeps it sorted. */
  lemma ConsSorted<T>(h: T, t: seq<T>, le: (T, T) -> bool)
    requires SortedBy(t, le)
    requires forall k :: 0 <= k < |t| ==> le(h, t[k])
    ensures SortedBy([h] + t, le)
  {
    var r := [h] + t;
    forall i, j | 0 <= i < j < |r| ensures le(r[i], r[j]) {
      assert r[j] == t[j - 1];
      if i > 0 { assert r[i] == t[i - 1]; }
    }
  }

  /** A bound on `x` and on every element of `s` bounds every element of any
      sequence holding exactly those. */
  lemma BoundedByMultiset<T>(h: T, r: seq<T>, s: seq<T>, x: T, le: (T, T) -> bool)
    requires multiset(r) == multiset(s) + multiset{x}
    requires le(h, x)
    requires forall k :: 0 <= k < |s| ==> le(h, s[k])
    ensures forall k :: 0 <= k < |r| ==> le(h, r[k])
  {
    forall k | 0 <= k < |r| ensures le(h, r[k]) {
      assert r[k] in multiset(r);
      if r[k] != x {
        assert r[k] in multiset(s);
        var j :| 0 <= j < |s| && s[j] == r[k];
      }
    }
  }

  /** Inserts `x` before the first element it is not greater than. */
  function Insert<T(!new)>(x: T, s: seq<T>, le: (T, T) -> bool): (r: seq<T>)
    requires TotalPreorder(le)
    requires SortedBy(s, le)
    ensures multiset(r) == multiset(s) + multiset{x}
    ensures SortedBy(r, le)
  {
    if s == [] then [x]
    else if le(x, s[0]) then
      assert forall j :: 0 <= j < |s| ==> le(x, s[j]) by {
        forall j | 0 <= j < |s| ensures le(x, s[j]) {
          if j > 0 { assert le(s[0], s[j]); }
        }
      }
      ConsSorted(x, s, le);
      [x] + s
    else
      var t := s[1..];
      assert SortedBy(t, le);
      var rest := Insert(x, t, le);
      assert s == [s[0]] + t;
      assert le(s[0], x);
      assert forall k :: 0 <= k < |t| ==> le(s[0], t[k]) by {
        forall k | 0 <= k < |t| ensures le(s[0], t[k]) { assert t[k] == s[k + 1]; }
      }
      BoundedByMultiset(s[0], rest, t, x, le);
      ConsSorted(s[0], rest, le);
      [s[0]] + rest
  }

  /** Insertion sort: an ordering of `s` under `le`. */
  function SortBy<T(!new)>(s: seq<T>, le: (T, T) -> bool): (r: seq<T>)
    requires TotalPreorder(le)
    ensures multiset(r) == multiset(s)
    ensures |r| == |s|
    ensures SortedBy(r, le)
  {
    if s == [] then []
    else
      assert s == [s[0]] + s[1..];
      var r := Insert(s[0], SortBy(s[1..], le), le);
      assert |r| == |multiset(r)| == |multiset(s)| == |s|;
      r
  }

  /** `where p order by le`: exactly the selected elements, in order. */
  function SelectSorted<T(!new)>(s: seq<T>, p: T -> bool, le: (T, T) -> bool): (r: seq<T>)
    requires TotalPreorder(le)
    ensures Exactly(r, s, p) && SortedBy(r, le)
  {
    SelectExactly(s, p);
    SortBy(Select(s, p), le)
  }

  /** Compares two elements by a key. */
  function ByKey<T, K>(key: T -> K, le: (K, K) -> bool): (T, T) -> bool {
    (x: T, y: T) => le(key(x), key(y))
  }

  lemma ByKeyPreorder<T(!new), K(!new)>(key: T -> K, le: (K, K) -> bool)
    requires TotalPreorder(le)
    ensures TotalPreorder(ByKey(key, le))
  {
  }

  /** Ascending order of a nullable number; a null sorts after every value
      (PostgreSQL's default for `order by ... asc`). */
  predicate AscNullsLast(a: Option<int>, b: Option<int>) {
    match (a, b)
    case (_, None) => true
    case (None, Some(_)) => false
    case (Some(x), Some(y)) => x <= y
  }

  /** Descending order of a nullable number; a null sorts before every value
      (PostgreSQL's default for `order by ... desc`). */
  predicate DescNullsFirst(a: Option<int>, b: Option<int>) {
    match (a, b)
    case (None, _) => true
    case (Some(_), None) => false
    case (Some(x), Some(y)) => x >= y
  }

  lemma AscNullsLastPreorder()
    ensures TotalPreorder(AscNullsLast)
  {
  }

  lemma DescNullsFirstPreorder()
    ensures TotalPreorder(DescNullsFirst)
  {
  }

  /** Lexicographic order of strings by character code. */
  predicate LexLe(a: string, b: string) {
    if a == [] then true
    else if b == [] then false
    else if a[0] != b[0] then a[0] < b[0]
    else LexLe(a[1..], b[1..])
  }

  lemma {:induction false} LexTotal(a: string, b: string)
    ensures LexLe(a, b) || LexLe(b, a)
  {
    if a != [] && b != [] && a[0] == b[0] { LexTotal(a[1..], b[1..]); }
  }

  lemma {:induction false} LexTransitive(a: string, b: string, c: string)
    requires LexLe(a, b) && LexLe(b, c)
    ensures LexLe(a, c)
  {
    if a != [] && b != [] && c != [] && a[0] == b[0] == c[0] {
      LexTransitive(a[1..], b[1..], c[1..]);
    }
  }

  lemma {:induction false} LexAntisymmetric(a: string, b: string)
    requires LexLe(a, b) && LexLe(b, a)
    ensures a == b
  {
    if a != [] && b != [] {
      LexAntisymmetric(a[1..], b[1..]);
      assert a == [a[0]] + a[1..] && b == [b[0]] + b[1..];
    }
  }

  /** Ascending order of a nullable string, nulls last. */
  predicate TextAscNullsLast(a: Option<string>, b: Option<string>) {
    match (a, b)
    case (_, None) => true
    case (None, Some(_)) => false
    case (Some(x), Some(y)) => LexLe(x, y)
  }

  lemma TextAscNullsLastPreorder()
    ensures TotalPreorder(TextAscNullsLast)
  {
    forall a: Option<string>, b: Option<string> ensures TextAscNullsLast(a, b) || TextAscNullsLast(b, a) {
      if a.Some? && b.Some? { LexTotal(a.value, b.value); }
    }
    forall a: Option<string>, b: Option<string>, c: Option<string> |
      TextAscNullsLast(a, b) && TextAscNullsLast(b, c) ensures TextAscNullsLast(a, c) {
      if a.Some? && b.Some? && c.Some? { LexTransitive(a.value, b.value, c.value); }
    }
  }

  lemma TextAscNullsLastAntisymmetric(a: Option<string>, b: Option<string>)
    requires TextAscNullsLast(a, b) && TextAscNullsLast(b, a)
    ensures a == b
  {
    if a.Some? && b.Some? { LexAntisymmetric(a.value, b.value); }
  }

  /** `order by x, y`: by the first key, then by the second among equal first keys. */
  predicate TextPairAsc(a: (Option<string>, Option<string>), b: (Option<string>, Option<string>)) {
    TextAscNullsLast(a.0, b.0) && (TextAscNullsLast(b.0, a.0) ==> TextAscNullsLast(a.1, b.1))
  }

  lemma TextPairAscPreorder()
    ensures TotalPreorder(TextPairAsc)
  {
    TextAscNullsLastPreorder();
    forall a: (Option<string>, Option<string>), b: (Option<string>, Option<string>),
           c: (Option<string>, Option<string>) | TextPairAsc(a, b) && TextPairAsc(b, c)
      ensures TextPairAsc(a, c)
    {
      if TextAscNullsLast(c.0, a.0) {
        TextAscNullsLastAntisymmetric(a.0, b.0);
        TextAscNullsLastAntisymmetric(b.0, c.0);
      }
    }
  }

  /** The first element, if any: the "first-present" rule for repeated elements. */
  function First<T>(s: seq<T>): (r: Option<T>)
    ensures r.None? <==> s == []
    ensures r.Some? ==> r.value == s[0]
  {
    if s == [] then None else Some(s[0])
  }

  /** `firstResultOptional` over a filtered query: some element that
      satisfies `p`, when there is one. Which one is left open. */
  function AnyMatching<T(!new)>(s: seq<T>, p: T -> bool): (r: Option<T>)
    ensures r.None? <==> forall x :: x in s ==> !p(x)
    ensures r.Some? ==> r.value in s && p(r.value)
  {
    var r := Select(s, p);
    assert r != [] ==> r[0] in r;
    First(r)
  }

  /** `k` is the first position of `s` whose element satisfies `p`. */
  ghost predicate FirstAt<T>(s: seq<T>, p: T -> bool, k: int) {
    0 <= k < |s| && p(s[k]) && forall j :: 0 <= j < k ==> !p(s[j])
  }

  /** `k` is the last position of `s` whose element satisfies `p`. */
  ghost predicate LastAt<T>(s: seq<T>, p: T -> bool, k: int) {
    0 <= k < |s| && p(s[k]) && forall j :: k < j < |s| ==> !p(s[j])
  }

  /** The first element that satisfies `p`: a scan that stops at the first match. */
  function FirstMatching<T>(s: seq<T>, p: T -> bool): (r: Option<T>)
    ensures r.None? <==> forall j :: 0 <= j < |s| ==> !p(s[j])
    ensures r.Some? ==> exists k :: FirstAt(s, p, k) && s[k] == r.value
  {
    if s == [] then None
    else if p(s[0]) then
      assert FirstAt(s, p, 0);
      Some(s[0])
    else
      var r := FirstMatching(s[1..], p);
      assert r.Some? ==> exists k :: FirstAt(s, p, k) && s[k] == r.value by {
        if r.Some? {
          var k :| FirstAt(s[1..], p, k) && s[1..][k] == r.value;
          assert FirstAt(s, p, k + 1);
        }
      }
      r
  }

  /** The last element that satisfies `p`: a scan that overwrites on every match. */
  function LastMatching<T>(s: seq<T>, p: T -> bool): (r: Option<T>)
    ensures r.None? <==> forall j :: 0 <= j < |s| ==> !p(s[j])
    ensures r.Some? ==> exists k :: LastAt(s, p, k) && s[k] == r.value
  {
    if s == [] then None
    else if p(s[|s| - 1]) then
      assert LastAt(s, p, |s| - 1);
      Some(s[|s| - 1])
    else
      var r := LastMatching(s[..|s| - 1], p);
      assert r.Some? ==> exists k :: LastAt(s, p, k) && s[k] == r.value by {
        if r.Some? {
          var k :| LastAt(s[..|s| - 1], p, k) && s[..|s| - 1][k] == r.value;
          assert LastAt(s, p, k);
        }
      }
      r
  }

  /** The first match is the element at the first matching position. */
  lemma FirstMatchingAt<T>(s: seq<T>, p: T -> bool, k: int)
    requires FirstAt(s, p, k)
    ensures FirstMatching(s, p) == Some(s[k])
  {
    var m := FirstMatching(s, p);
    assert p(s[k]);
    var k' :| FirstAt(s, p, k') && s[k'] == m.value;
    assert k' == k;
  }

  /** The last match is the element at the last matching position. */
  lemma LastMatchingAt<T>(s: seq<T>, p: T -> bool, k: int)
    requires LastAt(s, p, k)
    ensures LastMatching(s, p) == Some(s[k])
  {
    var m := LastMatching(s, p);
    assert p(s[k]);
    var k' :| LastAt(s, p, k') && s[k'] == m.value;
    assert k' == k;
  }
}
