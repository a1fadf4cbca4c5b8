/** Insertion into a sorted list, the step from which sort.Strings and sort.Ints are modelled. */
module Sorting {

  ghost predicate Ascending<T>(s: seq<T>, before: (T, T) -> bool) {
    forall i, j :: 0 <= i < j < |s| ==> before(s[i], s[j])
  }

  /** Any two different values are ordered one way or the other, and the order is transitive. */
  ghost predicate StrictOrder<T(!new)>(before: (T, T) -> bool) {
    && (forall a, b :: a == b || before(a, b) || before(b, a))
    && (forall a, b, c :: before(a, b) && before(b, c) ==> before(a, c))
  }

  function Insert<T>(s: seq<T>, x: T, before: (T, T) -> bool): seq<T> {
    if s == [] || before(x, s[0]) then [x] + s else [s[0]] + Insert(s[1..], x, before)
  }

  lemma {:induction false} InsertIsAscending<T(!new)>(s: seq<T>, x: T, before: (T, T) -> bool)
    requires StrictOrder(before) && Ascending(s, before) && x !in s
    ensures Ascending(Insert(s, x, before), before)
    ensures forall y :: y in Insert(s, x, before) <==> y == x || y in s
  {
    if s == [] {
    } else if before(x, s[0]) {
      forall j | 0 < j < |s|
        ensures before(x, s[j])
      {
        assert before(s[0], s[j]);
      }
    } else {
      assert s == [s[0]] + s[1..];
      InsertIsAscending(s[1..], x, before);
      var rest := Insert(s[1..], x, before);
      forall j | 0 <= j < |rest|
        ensures before(s[0], rest[j])
      {
        assert rest[j] in rest;
        if rest[j] != x {
          var k :| 0 <= k < |s[1..]| && s[1..][k] == rest[j];
          assert s[k + 1] == rest[j];
        }
      }
    }
  }
}
