/** The static name tables of the MPA age rating (model/Mpa.java). */
module MpaNames {
  import opened Common

  /** The ids the two tables know. */
  predicate IsRatingId(id: int) {
    1 <= id <= 5
  }

  /** `Mpa.getAmericanName`: the MPAA code of a rating id; any other id throws
      IllegalArgumentException. */
  function AmericanName(id: int): (r: Result<string>)
    ensures r.Success? <==> IsRatingId(id)
    ensures r.Failure? ==> r.error == IllegalArgument
    ensures r.Success? ==> r.value != []
  {
    match id
    case 1 => Success("G")
    case 2 => Success("PG")
    case 3 => Success("PG-13")
    case 4 => Success("R")
    case 5 => Success("NC-17")
    case _ => Failure(IllegalArgument)
  }

  /** `Mpa.getRussianName`: the Russian age mark of a rating id; any other id
      throws IllegalArgumentException. */
  function RussianName(id: int): (r: Result<string>)
    ensures r.Success? <==> IsRatingId(id)
    ensures r.Failure? ==> r.error == IllegalArgument
    ensures r.Success? ==> r.value != [] && r.value[|r.value| - 1] == '+'
  {
    match id
    case 1 => Success("0+")
    case 2 => Success("6+")
    case 3 => Success("12+")
    case 4 => Success("16+")
    case 5 => Success("18+")
    case _ => Failure(IllegalArgument)
  }

  /** Distinct ratings have distinct American codes. */
  lemma {:induction false} AmericanNameInjective(i: int, j: int)
    requires IsRatingId(i) && IsRatingId(j) && i != j
    ensures AmericanName(i).value != AmericanName(j).value
  {
    var a, b := AmericanName(i).value, AmericanName(j).value;
    assert |a| != |b| || a[0] != b[0];
  }

  /** Distinct ratings have distinct Russian age marks. */
  lemma {:induction false} RussianNameInjective(i: int, j: int)
    requires IsRatingId(i) && IsRatingId(j) && i != j
    ensures RussianName(i).value != RussianName(j).value
  {
    var a, b := RussianName(i).value, RussianName(j).value;
    assert |a| != |b| || a[0] != b[0] || a[1] != b[1];
  }
}
