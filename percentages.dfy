/** The coverage percentage shared by XML counters and CSV rows. */
module Percentages {

  /** `if (total == 0) 0.0 else covered / total * 100`, as an exact rational. */
  function Percentage(covered: int, total: int): (p: real)
    ensures total == 0 ==> p == 0.0
    ensures total != 0 ==> p * (total as real) == 100.0 * (covered as real)
    ensures 0 <= covered <= total && total > 0 ==> 0.0 <= p <= 100.0
    ensures covered == total && total != 0 ==> p == 100.0
    ensures covered == 0 ==> p == 0.0
  {
    if total == 0 then 0.0 else (covered as real / total as real) * 100.0
  }
}
