/** Scores, the sentinel bounds and the "earliest strict best" rule shared by
    every running-best loop of the three agents.  Scores are `float64` in the
    program but are only compared, added and scaled, so they are `real` here. */
module Scores {
  import opened Chess

  /** `math.MaxFloat64`, exactly: (2^53 - 1) * 2^971. */
  const MaxScore: real := 179769313486231570814527423731704356798070567525844996598917476803157260780028538760589558632766878171540458953514382464234321326889464182768467546703537516986049910576551282076245490090389328944075868508455133942304583236903222948165808559332123348274797826204144723168738177180919299881250404026184124858368.0

  /** The pair `(bestMove, score)` that a search returns. */
  datatype Choice = Choice(move: Move, score: real)

  /** `k` is what a loop `best := floor; for j { if s[j] > best { best := s[j]; k := j } }`
      ends with: -1 when no score strictly exceeds `floor`, otherwise the first
      index of a greatest score. */
  ghost predicate IsFirstMax(s: seq<real>, floor: real, k: int)
  {
    if k == -1 then
      forall j :: 0 <= j < |s| ==> s[j] <= floor
    else
      && 0 <= k < |s|
      && floor < s[k]
      && (forall j :: 0 <= j < |s| ==> s[j] <= s[k])
      && (forall j :: 0 <= j < k ==> s[j] < s[k])
  }

  /** The mirror of `IsFirstMax` for a loop that keeps the strictly lowest score. */
  ghost predicate IsFirstMin(s: seq<real>, ceiling: real, k: int)
  {
    if k == -1 then
      forall j :: 0 <= j < |s| ==> ceiling <= s[j]
    else
      && 0 <= k < |s|
      && s[k] < ceiling
      && (forall j :: 0 <= j < |s| ==> s[k] <= s[j])
      && (forall j :: 0 <= j < k ==> s[k] < s[j])
  }

  /** The rule picks exactly one index. */
  lemma FirstMaxUnique(s: seq<real>, floor: real, k1: int, k2: int)
    requires IsFirstMax(s, floor, k1) && IsFirstMax(s, floor, k2)
    ensures k1 == k2
  {
  }

  lemma FirstMinUnique(s: seq<real>, ceiling: real, k1: int, k2: int)
    requires IsFirstMin(s, ceiling, k1) && IsFirstMin(s, ceiling, k2)
    ensures k1 == k2
  {
  }

  /** One step of the scan: `k` is the answer for `s`, and `k'` the answer
      once the score `x` is appended. */
  lemma FirstMaxStep(s: seq<real>, floor: real, k: int, x: real)
    requires IsFirstMax(s, floor, k)
    ensures IsFirstMax(s + [x], floor, if x > (if k == -1 then floor else s[k]) then |s| else k)
  {
  }

  lemma FirstMinStep(s: seq<real>, ceiling: real, k: int, x: real)
    requires IsFirstMin(s, ceiling, k)
    ensures IsFirstMin(s + [x], ceiling, if x < (if k == -1 then ceiling else s[k]) then |s| else k)
  {
  }
}
