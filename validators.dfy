/** The model-level validator of a title's year. */
module Validators {
  import opened Base

  /**
   * `my_year_validator`: raises when the chained comparison
   * `currentYear < value < 1900` holds. Both halves can hold together only
   * while the current year is before 1899, so in practice it never raises.
   * The current year is a parameter instead of a clock reading.
   */
  function MyYearValidator(value: int, currentYear: int): (r: Outcome)
    ensures r.Fail? <==> currentYear < value < 1900
    ensures r.Fail? ==> currentYear < 1899
    ensures currentYear >= 1899 ==> r == Pass
    ensures r.Fail? ==> r.error.ValidationError?
  {
    if currentYear < value && value < 1900 then Fail(ValidationError(Invalid("year"))) else Pass
  }

  /** With the current year at 1900 or later, no year at all is refused, not even next year's. */
  lemma AcceptsEveryYear(currentYear: int)
    requires currentYear >= 1900
    ensures forall value :: MyYearValidator(value, currentYear) == Pass
    ensures MyYearValidator(currentYear + 1, currentYear) == Pass
  {
  }
}
