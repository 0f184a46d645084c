/** Calendar dates as `strftime("%Y-%m-%d")` prints them; the clock itself is a parameter. */
module Stamps {
  import opened Strings

  datatype Date = Date(year: nat, month: nat, day: nat)

  /** `strftime("%Y-%m-%d")`: zero-padded year, month and day joined by '-'. */
  function FormatDate(d: Date): (s: string)
    ensures '/' !in s
    ensures forall i :: 0 <= i < |s| ==> IsDigit(s[i]) || s[i] == '-'
  {
    ZeroPad(d.year, 4) + "-" + ZeroPad(d.month, 2) + "-" + ZeroPad(d.day, 2)
  }

  /** A four-digit year gives the fixed shape YYYY-MM-DD. */
  lemma FormatDateShape(d: Date)
    requires 1000 <= d.year <= 9999 && 1 <= d.month <= 12 && 1 <= d.day <= 31
    ensures |FormatDate(d)| == 10 && FormatDate(d)[4] == '-' && FormatDate(d)[7] == '-'
  {
    DecimalLength(d.year, 4);
    DecimalLength(d.month, 2);
    DecimalLength(d.day, 2);
  }
}
