/** The calorie estimator: a MET coefficient chosen by activity type, scaled
    by a fixed body weight and the duration in minutes. */
module CalorieEstimator {
  import opened Text

  /** The body weight every estimate assumes, in kilograms. */
  const BodyWeightKg: int := 70

  /** The MET coefficient of an activity type that is not in the table. */
  const DefaultMet: int := 5

  /** MET coefficients of the known activity types, keyed by lower-case name. */
  const MetTable: map<string, int> :=
    map["running" := 10, "walking" := 4, "cycling" := 8, "swimming" := 11]

  /** The MET coefficient of an activity type, looked up case-insensitively. */
  function Met(activityType: string): (met: int)
    ensures Lower(activityType) == "running" ==> met == 10
    ensures Lower(activityType) == "walking" ==> met == 4
    ensures Lower(activityType) == "cycling" ==> met == 8
    ensures Lower(activityType) == "swimming" ==> met == 11
    ensures Lower(activityType) !in {"running", "walking", "cycling", "swimming"} ==> met == 5
  {
    var key := Lower(activityType);
    if key in MetTable then MetTable[key] else DefaultMet
  }

  /** Estimated energy burned, in kilocalories, as an exact real:
      MET times body weight times duration, divided by 60. */
  function Calories(activityType: string, duration: int): (kcal: real)
    ensures kcal * 60.0 == (Met(activityType) * BodyWeightKg * duration) as real
  {
    (Met(activityType) * BodyWeightKg * duration) as real / 60.0
  }

  /** Types that agree after lower-casing get the same estimate. */
  lemma CaloriesCaseInsensitive(a: string, b: string, duration: int)
    requires Lower(a) == Lower(b)
    ensures Calories(a, duration) == Calories(b, duration)
  {
  }

  /** Every estimate uses one of the five coefficients, and the estimate
      per minute is that coefficient times 70 / 60. */
  lemma CaloriesPerMinute(activityType: string, duration: int)
    ensures Met(activityType) in {4, 5, 8, 10, 11}
    ensures Calories(activityType, duration) == Met(activityType) as real * 7.0 / 6.0 * duration as real
  {
  }

  /** Estimates are additive in the duration: two sessions of the same type
      burn what one session of the summed length burns. */
  lemma CaloriesAdditive(activityType: string, d1: int, d2: int)
    ensures Calories(activityType, d1 + d2) == Calories(activityType, d1) + Calories(activityType, d2)
  {
  }

  /** A non-negative duration never yields a negative estimate, and a longer
      duration of the same type never yields a smaller one. */
  lemma CaloriesMonotone(activityType: string, d1: int, d2: int)
    requires 0 <= d1 <= d2
    ensures 0.0 <= Calories(activityType, d1) <= Calories(activityType, d2)
  {
  }

  /** Thirty minutes of "Running" (MET 10) burn 350 kcal; an hour of "yoga",
      an unknown type (MET 5), burns 350 kcal too. */
  lemma CaloriesExamples()
    ensures Calories("Running", 30) == 350.0
    ensures Calories("yoga", 60) == 350.0
    ensures Calories("SWIMMING", 60) == 770.0
  {
  }
}
