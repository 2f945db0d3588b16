/** The popularity pipeline both film stores share: order candidates by like
    count, highest first, and keep the first `count` of them
    (`sorted(...).limit(count)` in InMemoryFilmStorage.java,
    `ORDER BY likes_count DESC LIMIT ?` in FilmDbStorage.java). Ties keep the
    order in which the candidates arrive, which the sources leave unspecified. */
module Ranking {
  import opened Common

  /** A candidate together with its like count. */
  datatype Ranked<T> = Ranked(item: T, score: nat)

  ghost predicate NonIncreasing<T>(s: seq<Ranked<T>>) {
    forall i, j :: 0 <= i < j < |s| ==> s[i].score >= s[j].score
  }

  /** No candidate occurs twice. */
  ghost predicate DistinctItems<T>(s: seq<Ranked<T>>) {
    forall i, j :: 0 <= i < j < |s| ==> s[i].item != s[j].item
  }

  /** Places `x` before the first element that does not score higher. */
  function Insert<T>(x: Ranked<T>, s: seq<Ranked<T>>): (r: seq<Ranked<T>>)
    ensures |r| == |s| + 1
    ensures multiset(r) == multiset(s) + multiset{x}
    ensures r[0] == x || (s != [] && r[0] == s[0])
  {
    if s == [] || s[0].score <= x.score then
      [x] + s
    else
      assert s == [s[0]] + s[1..];
      [s[0]] + Insert(x, s[1..])
  }

  /** Inserting into a list ordered highest first keeps it ordered. */
  lemma {:induction false} InsertKeepsOrder<T>(x: Ranked<T>, s: seq<Ranked<T>>)
    requires NonIncreasing(s)
    ensures NonIncreasing(Insert(x, s))
  {
    if s != [] && x.score < s[0].score {
      var rest := Insert(x, s[1..]);
      InsertKeepsOrder(x, s[1..]);
      assert Insert(x, s) == [s[0]] + rest;
      assert rest[0].score <= s[0].score;
    }
  }

  /** A stable insertion sort by score, highest first. */
  function SortDesc<T>(s: seq<Ranked<T>>): (r: seq<Ranked<T>>)
    ensures |r| == |s|
    ensures multiset(r) == multiset(s)
    ensures NonIncreasing(r)
  {
    if s == [] then
      []
    else
      assert s == [s[0]] + s[1..];
      var rest := SortDesc(s[1..]);
      InsertKeepsOrder(s[0], rest);
      Insert(s[0], rest)
  }

  /** The `count` best-scored candidates, best first. */
  function TopN<T>(s: seq<Ranked<T>>, count: nat): (r: seq<Ranked<T>>)
    ensures |r| == Min(count, |s|)
    ensures NonIncreasing(r)
    ensures multiset(r) <= multiset(s)
  {
    var sorted := SortDesc(s);
    var k := Min(count, |s|);
    assert sorted == sorted[..k] + sorted[k..];
    sorted[..k]
  }

  lemma {:induction false} InsertKeepsDistinct<T>(x: Ranked<T>, s: seq<Ranked<T>>)
    requires DistinctItems(s)
    requires forall y :: y in s ==> y.item != x.item
    ensures DistinctItems(Insert(x, s))
  {
    if s == [] || s[0].score <= x.score {
    } else {
      var t := Insert(x, s[1..]);
      InsertKeepsDistinct(x, s[1..]);
      forall y | y in t ensures y.item != s[0].item {
        assert y in multiset(t);
        if y != x {
          assert y in multiset(s[1..]);
          assert y in s[1..];
          var p :| 0 <= p < |s[1..]| && s[1..][p] == y;
          assert s[p + 1] == y;
        }
      }
      assert Insert(x, s) == [s[0]] + t;
    }
  }

  lemma {:induction false} SortKeepsDistinct<T>(s: seq<Ranked<T>>)
    requires DistinctItems(s)
    ensures DistinctItems(SortDesc(s))
  {
    if s != [] {
      SortKeepsDistinct(s[1..]);
      var t := SortDesc(s[1..]);
      forall y | y in t ensures y.item != s[0].item {
        assert y in multiset(t);
        assert y in s[1..];
        var p :| 0 <= p < |s[1..]| && s[1..][p] == y;
        assert s[p + 1] == y;
      }
      InsertKeepsDistinct(s[0], t);
    }
  }

  /** The candidates of a ranked list, in order. */
  function Items<T>(s: seq<Ranked<T>>): (r: seq<T>)
    ensures |r| == |s|
    ensures forall i :: 0 <= i < |s| ==> r[i] == s[i].item
  {
    seq(|s|, i requires 0 <= i < |s| => s[i].item)
  }

  /** What a caller of the pipeline gets: no candidate twice, only candidates
      that were offered, and a candidate is left out only when the result is
      already `count` long, and then it scores no higher than the last one kept. */
  lemma TopNSelection<T>(s: seq<Ranked<T>>, count: nat)
    requires DistinctItems(s)
    ensures DistinctItems(TopN(s, count))
    ensures forall y :: y in TopN(s, count) ==> y in s
    ensures forall y :: y in s && y !in TopN(s, count) ==>
              |TopN(s, count)| == count && (count > 0 ==> y.score <= TopN(s, count)[count - 1].score)
  {
    SortKeepsDistinct(s);
    var r := TopN(s, count);
    forall y | y in r ensures y in s {
      assert y in multiset(r);
    }
    forall y | y in s && y !in r
      ensures |r| == count && (count > 0 ==> y.score <= r[count - 1].score)
    {
      TopNCutoff(s, count, y);
    }
  }

  /** A candidate the cut leaves out lies past position `count` of the sorted
      list. */
  lemma TopNCutoff<T>(s: seq<Ranked<T>>, count: nat, y: Ranked<T>)
    requires y in s && y !in TopN(s, count)
    ensures |TopN(s, count)| == count
    ensures count > 0 ==> y.score <= TopN(s, count)[count - 1].score
  {
    var sorted := SortDesc(s);
    var k := Min(count, |s|);
    assert TopN(s, count) == sorted[..k];
    assert y in multiset(s);
    assert y in multiset(sorted);
    var p :| 0 <= p < |sorted| && sorted[p] == y;
    if p < k {
      assert false;
    }
    if count > 0 {
      assert sorted[count - 1].score >= sorted[p].score;
    }
  }

  /** `TopNSelection` restated for the candidates alone: a candidate missing
      from the kept items was cut off by the length bound and scores no higher
      than the last one kept. */
  lemma TopNItemsSelection<T>(s: seq<Ranked<T>>, count: nat)
    requires DistinctItems(s)
    ensures forall i, j :: 0 <= i < j < |TopN(s, count)| ==> Items(TopN(s, count))[i] != Items(TopN(s, count))[j]
    ensures forall i :: 0 <= i < |TopN(s, count)| ==> TopN(s, count)[i] in s
    ensures forall y :: y in s && y.item !in Items(TopN(s, count)) ==>
              |TopN(s, count)| == count && (count > 0 ==> y.score <= TopN(s, count)[count - 1].score)
  {
    var r := TopN(s, count);
    TopNSelection(s, count);
    forall y | y in s && y.item !in Items(r)
      ensures |r| == count && (count > 0 ==> y.score <= r[count - 1].score)
    {
      if y in r {
        assert false;
      }
    }
  }
}
