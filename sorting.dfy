/** The `orderBy` of the database queries: a sort of rows by a total preorder. */
module Sorting {

  /** Any two rows are comparable. */
  ghost predicate Total<T(!new)>(le: (T, T) -> bool) {
    forall a, b :: le(a, b) || le(b, a)
  }

  ghost predicate Transitive<T(!new)>(le: (T, T) -> bool) {
    forall a, b, c :: le(a, b) && le(b, c) ==> le(a, c)
  }

  /** Every earlier row is ordered before every later row. */
  ghost predicate Sorted<T>(s: seq<T>, le: (T, T) -> bool) {
    forall i, j :: 0 <= i < j < |s| ==> le(s[i], s[j])
  }

  /** `a` is ordered before every row of `s`. */
  ghost predicate Below<T>(a: T, s: seq<T>, le: (T, T) -> bool) {
    forall y :: y in s ==> le(a, y)
  }

  lemma SortedCons<T>(a: T, s: seq<T>, le: (T, T) -> bool)
    requires Below(a, s, le) && Sorted(s, le)
    ensures Sorted([a] + s, le)
  {
    var r := [a] + s;
    forall i, j | 0 <= i < j < |r| ensures le(r[i], r[j]) {
      if i > 0 {
        assert r[i] == s[i - 1] && r[j] == s[j - 1];
      } else {
        assert r[j] == s[j - 1];
        assert r[j] in s;
      }
    }
  }

  lemma SortedTail<T>(s: seq<T>, le: (T, T) -> bool)
    requires s != [] && Sorted(s, le)
    ensures Below(s[0], s[1..], le) && Sorted(s[1..], le)
  {
    forall y | y in s[1..] ensures le(s[0], y) {
      var k :| 0 <= k < |s[1..]| && s[1..][k] == y;
      assert s[k + 1] == y;
    }
    forall i, j | 0 <= i < j < |s[1..]| ensures le(s[1..][i], s[1..][j]) {
      assert s[1..][i] == s[i + 1] && s[1..][j] == s[j + 1];
    }
  }

  /** The first row of a sorted sequence is ordered before every row. */
  lemma SortedHeadIsLeast<T(!new)>(s: seq<T>, le: (T, T) -> bool)
    requires Total(le) && Sorted(s, le)
    ensures s != [] ==> Below(s[0], s, le)
  {
    forall y | y in s ensures le(s[0], y) {
      var k :| 0 <= k < |s| && s[k] == y;
      if k == 0 { assert le(y, y) || le(y, y); }
    }
  }

  /** Places `x` in front of the first row of `s` it is ordered before. */
  function Insert<T(!new)>(x: T, s: seq<T>, le: (T, T) -> bool): (r: seq<T>)
    requires Total(le) && Transitive(le)
    requires Sorted(s, le)
    ensures multiset(r) == multiset(s) + multiset{x}
    ensures Sorted(r, le)
  {
    if s == [] then [x]
    else if le(x, s[0]) then
      SortedTail(s, le);
      assert s == [s[0]] + s[1..];
      assert Below(x, s, le) by {
        forall y | y in s ensures le(x, y) {
          if y != s[0] { assert y in s[1..]; }
        }
      }
      SortedCons(x, s, le);
      [x] + s
    else
      SortedTail(s, le);
      var rest := Insert(x, s[1..], le);
      assert s == [s[0]] + s[1..];
      assert Below(s[0], rest, le) by {
        forall y | y in rest ensures le(s[0], y) {
          assert y in multiset(rest);
          assert y == x || y in multiset(s[1..]);
        }
      }
      SortedCons(s[0], rest, le);
      [s[0]] + rest
  }

  /** Insertion sort: the rows of `s`, each once, in the order `le` gives. */
  function SortBy<T(!new)>(s: seq<T>, le: (T, T) -> bool): (r: seq<T>)
    requires Total(le) && Transitive(le)
    ensures multiset(r) == multiset(s)
    ensures |r| == |s|
    ensures Sorted(r, le)
  {
    if s == [] then []
    else
      assert s == [s[0]] + s[1..];
      Insert(s[0], SortBy(s[1..], le), le)
  }
}
