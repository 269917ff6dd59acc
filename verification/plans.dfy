/** The fixed workout plans offered for the three fitness levels. */
module Plans {
  import opened Text

  const BeginnerPlan: string := "Walking, Bodyweight Squats, Push-ups, Yoga"
  const IntermediatePlan: string := "Running, Dumbbell Exercises, Planks, Jump Rope"
  const AdvancedPlan: string := "HIIT, Weightlifting, Sprinting, Deadlifts"

  /** The text returned for any level that is not one of the three. */
  const InvalidLevelMessage: string := "Invalid fitness level."

  /** The canned plans, keyed by lower-case level name. */
  const PlanTable: map<string, string> :=
    map["beginner" := BeginnerPlan, "intermediate" := IntermediatePlan, "advanced" := AdvancedPlan]

  /** The lower-case names of the known levels. */
  const Levels: set<string> := {"beginner", "intermediate", "advanced"}

  /** The plan for a fitness level, looked up case-insensitively; an unknown
      level yields the sentinel message instead of a plan. */
  function PredefinedPlan(level: string): (plan: string)
    ensures Lower(level) == "beginner" ==> plan == BeginnerPlan
    ensures Lower(level) == "intermediate" ==> plan == IntermediatePlan
    ensures Lower(level) == "advanced" ==> plan == AdvancedPlan
    ensures plan == InvalidLevelMessage <==> Lower(level) !in Levels
  {
    var key := Lower(level);
    if key in PlanTable then PlanTable[key] else InvalidLevelMessage
  }

  /** Levels that agree after lower-casing get the same answer. */
  lemma PredefinedPlanCaseInsensitive(a: string, b: string)
    requires Lower(a) == Lower(b)
    ensures PredefinedPlan(a) == PredefinedPlan(b)
  {
  }

  /** The answer is always one of the three plans or the sentinel, and the
      three levels get three different plans. */
  lemma PredefinedPlanRange(level: string)
    ensures PredefinedPlan(level) in {BeginnerPlan, IntermediatePlan, AdvancedPlan, InvalidLevelMessage}
    ensures BeginnerPlan != IntermediatePlan && IntermediatePlan != AdvancedPlan && BeginnerPlan != AdvancedPlan
  {
  }

  /** "Intermediate" is recognised regardless of case. */
  lemma PredefinedPlanMixedCaseExample()
    ensures PredefinedPlan("Intermediate") == IntermediatePlan
  {
    assert Lower("Intermediate") == "intermediate";
  }

  /** "pro" is not a level, so it gets the sentinel. */
  lemma PredefinedPlanUnknownExample()
    ensures PredefinedPlan("pro") == InvalidLevelMessage
  {
    assert Lower("pro") == "pro";
  }
}
