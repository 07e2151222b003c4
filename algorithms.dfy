/**
 * The contract every scheduling strategy shares: the settings record it is
 * configured with and the result it gives for one answer.
 */
module Algorithms {
  import opened Utils

  /** A settings value: a number, a flag or a list of numbers. */
  datatype Value = Num(n: int) | Flag(b: bool) | Nums(ns: seq<int>)

  /** A settings object, keyed by property name. */
  type Record = map<string, Value>

  /**
   * What a strategy reports for one answer: whether it counts as correct, and
   * the delay in milliseconds until the next review (-1 on a retry pass).
   */
  datatype ReviewResult = ReviewResult(correct: bool, nextReview: Millis)
}
