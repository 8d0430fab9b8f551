/** Semester arithmetic (`utils/SemesterCalculator.java`). The clock the
    source reads with `LocalDate.now()` is the explicit `Today` argument. */
module SemesterCalculator {
  import opened Wrappers
  import opened JavaString

  /** The years `LocalDate` can represent. */
  type Year = y: int | -999_999_999 <= y <= 999_999_999

  type Month = m: int | 1 <= m <= 12 witness 1

  datatype Today = Today(year: Year, month: Month)

  const INVALID_SEMESTER := "Invalid semester"

  /** The batch year as a number: null, a length other than 2 and a
      `NumberFormatException` all give None. */
  function ParseBatch(batchYear: Option<string>): (r: Option<int>)
    ensures r.Some? ==> batchYear.Some? && |batchYear.value| == 2 && -9 <= r.value <= 99
    ensures r.None? <==> (batchYear.None? || |batchYear.value| != 2 || ParseInt(batchYear.value).None?)
    ensures batchYear.Some? && |batchYear.value| == 2 && AllDigits(batchYear.value) ==>
      r == Some(DigitsValue(batchYear.value))
  {
    if batchYear.None? || |batchYear.value| != 2 then None
    else
      var s := batchYear.value;
      ParseIntTwoChars(s);
      assert AllDigits(s) ==> DigitsValue(s) < Pow10(2) by { if AllDigits(s) { DigitsValueBound(s); } }
      match ParseInt(s)
      case None => None
      case Some(v) => Some(v as int)
  }

  /** `calculateCurrentSemester`, branch for branch; the ensures clauses give
      the resulting table by month and years since the batch started. */
  function CalculateCurrentSemester(batchYear: Option<string>, today: Today): (r: int32)
    ensures 0 <= r <= 9
    ensures ParseBatch(batchYear).None? ==> r == 0
    ensures ParseBatch(batchYear).Some? ==>
      var yearsPassed := today.year - (2000 + ParseBatch(batchYear).value);
      && (yearsPassed < 0 ==> r == 0)
      && (yearsPassed > 4 ==> r == 9)
      && (0 <= yearsPassed <= 4 && 8 <= today.month ==> r == 2 * yearsPassed + 1)
      && (0 <= yearsPassed <= 4 && today.month <= 5 ==> r == if yearsPassed == 0 then 2 else 2 * yearsPassed)
      && (0 <= yearsPassed <= 4 && 6 <= today.month <= 7 ==> r == if yearsPassed == 0 then 1 else 2 * yearsPassed - 1)
  {
    match ParseBatch(batchYear)
    case None => 0
    case Some(batch) =>
      var fullBatchYear := 2000 + batch;
      var yearsPassed := today.year - fullBatchYear;
      if yearsPassed < 0 then 0
      else if yearsPassed > 4 then 9
      else
        var isAugustToDecember := 8 <= today.month <= 12;
        var isJanuaryToMay := 1 <= today.month <= 5;
        if !isAugustToDecember && !isJanuaryToMay then
          if yearsPassed == 0 then (if isJanuaryToMay then 2 else 1)
          else yearsPassed * 2 + (if isJanuaryToMay then 0 else -1)
        else if yearsPassed == 0 then (if isAugustToDecember then 1 else 2)
        else
          var baseSemester := yearsPassed * 2;
          if isAugustToDecember then baseSemester + 1 else baseSemester
  }

  /** `getSemesterDateRange`: the current year's autumn or spring term, or
      "Invalid semester". */
  function GetSemesterDateRange(batchYear: Option<string>, semesterNumber: int32, today: Today): (r: string)
    ensures r == INVALID_SEMESTER <==> ParseBatch(batchYear).None? || semesterNumber < 1 || semesterNumber > 8
    ensures r != INVALID_SEMESTER && semesterNumber % 2 == 1 ==>
      r == "August " + IntToString(today.year) + " - December " + IntToString(today.year)
    ensures r != INVALID_SEMESTER && semesterNumber % 2 == 0 ==>
      r == "January " + IntToString(today.year) + " - May " + IntToString(today.year)
  {
    if batchYear.None? || |batchYear.value| != 2 || semesterNumber < 1 || semesterNumber > 8 then INVALID_SEMESTER
    else if ParseInt(batchYear.value).None? then INVALID_SEMESTER
    else
      var currentYear := IntToString(today.year);
      if semesterNumber % 2 == 1 then "August " + currentYear + " - December " + currentYear
      else "January " + currentYear + " - May " + currentYear
  }

  /** The date range never depends on which batch asked, only on whether
      its year parses. */
  lemma DateRangeIgnoresBatchValue(b1: Option<string>, b2: Option<string>, semesterNumber: int32, today: Today)
    requires ParseBatch(b1).Some? && ParseBatch(b2).Some?
    ensures GetSemesterDateRange(b1, semesterNumber, today) == GetSemesterDateRange(b2, semesterNumber, today)
  {
  }
}
