/** Shared vocabulary of the catalogue model: optional values, the exceptions the
    storage layer throws (as error values), calendar dates and the ascending order
    that `ORDER BY ... id` produces. */
module Common {

  datatype Option<+T> = None | Some(value: T)

  /** The exception classes the core throws. `Failed` stands for the bare
      `RuntimeException` that FilmService raises. */
  datatype Error = NotFound | Validation | IllegalArgument | Failed

  datatype Result<+T> = Success(value: T) | Failure(error: Error)

  /** The result of an operation that returns nothing (a `void` method that may throw). */
  datatype Outcome = Pass | Fail(error: Error)

  /** A `java.time.LocalDate`. */
  datatype Date = Date(year: int, month: int, day: int)

  /** `a.isBefore(b)`: lexicographic order on (year, month, day). */
  predicate IsBefore(a: Date, b: Date) {
    a.year < b.year
    || (a.year == b.year && (a.month < b.month || (a.month == b.month && a.day < b.day)))
  }

  predicate StrictlyIncreasing(s: seq<int>) {
    forall i, j :: 0 <= i < j < |s| ==> s[i] < s[j]
  }

  /** A non-empty set has a member (set extensionality, stated once). */
  lemma HasElement(s: set<int>)
    requires s != {}
    ensures exists x :: x in s
  {
    if forall x :: x !in s {
      assert false;
    }
  }

  lemma {:induction false} MinExists(s: set<int>)
    requires s != {}
    ensures exists m :: m in s && forall x :: x in s ==> m <= x
    decreases |s|
  {
    HasElement(s);
    var y :| y in s;
    if !forall x :: x in s ==> y <= x {
      var z :| z in s && z < y;
      var rest := s - {y};
      assert z in rest;
      assert |rest| == |s| - 1;
      MinExists(rest);
      var m :| m in rest && forall x :: x in rest ==> m <= x;
      forall x | x in s ensures m <= x {
        if x != y {
          assert x in rest;
        }
      }
      assert m in s;
    } else {
      assert y in s;
    }
  }

  /** The least element of a non-empty set of ids. */
  function MinOf(s: set<int>): (m: int)
    requires s != {}
    ensures m in s
    ensures forall x :: x in s ==> m <= x
  {
    MinExists(s);
    var m :| m in s && forall x :: x in s ==> m <= x;
    m
  }

  /** The elements of a finite set of ids in ascending order, as a query with
      `ORDER BY id` returns them. */
  function Ascending(s: set<int>): (r: seq<int>)
    ensures |r| == |s|
    ensures forall i :: 0 <= i < |r| ==> r[i] in s
    ensures StrictlyIncreasing(r)
    decreases |s|
  {
    if s == {} then []
    else
      var m := MinOf(s);
      var tail := Ascending(s - {m});
      [m] + tail
  }

  /** No element of the set is missing from its ascending listing. */
  lemma {:induction false} AscendingHasAll(s: set<int>)
    ensures forall x :: x in s ==> x in Ascending(s)
    decreases |s|
  {
    if s != {} {
      var m := MinOf(s);
      AscendingHasAll(s - {m});
      assert Ascending(s) == [m] + Ascending(s - {m});
    }
  }

  function Min(a: int, b: int): int {
    if a <= b then a else b
  }
}
