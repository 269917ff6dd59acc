/** Recording fitness goals. */
module Goals {
  import opened Schema

  /** Records a set of targets. Goals are a history: a new row is always
      appended under the next AUTOINCREMENT id, existing rows are never
      updated, and no other table changes. */
  function SetGoals(db: Db, userId: int, targetWeight: real, targetDistance: real,
                    targetCalories: real): (r: Db)
    ensures r == db.(goals := r.goals, lastGoalId := r.lastGoalId)
    ensures |r.goals| == |db.goals| + 1
    ensures r.goals[..|db.goals|] == db.goals
    ensures var g := r.goals[|db.goals|];
            && g.id == r.lastGoalId > db.lastGoalId
            && g.userId == userId && g.targetWeight == targetWeight
            && g.targetDistance == targetDistance && g.targetCalories == targetCalories
  {
    var id := db.lastGoalId + 1;
    db.(goals := db.goals + [Goal(id, userId, targetWeight, targetDistance, targetCalories)],
        lastGoalId := id)
  }

  /** Setting goals for an existing user keeps the invariant. */
  lemma SetGoalsPreservesValid(db: Db, userId: int, targetWeight: real, targetDistance: real,
                               targetCalories: real)
    requires Valid(db) && HasUser(db, userId)
    ensures Valid(SetGoals(db, userId, targetWeight, targetDistance, targetCalories))
  {
  }

  /** Setting goals twice keeps both rows, in order and under increasing ids:
      the first is not overwritten, and the rows already there stay as they were. */
  lemma GoalsAccumulate(db: Db, userId: int, w1: real, d1: real, c1: real, w2: real, d2: real, c2: real)
    ensures var db2 := SetGoals(SetGoals(db, userId, w1, d1, c1), userId, w2, d2, c2);
            && |db2.goals| == |db.goals| + 2
            && db2.goals[..|db.goals|] == db.goals
            && var g1, g2 := db2.goals[|db.goals|], db2.goals[|db.goals| + 1];
            && g1.userId == userId && g1.targetWeight == w1
            && g1.targetDistance == d1 && g1.targetCalories == c1
            && g2.userId == userId && g2.targetWeight == w2
            && g2.targetDistance == d2 && g2.targetCalories == c2
            && db.lastGoalId < g1.id < g2.id
  {
  }
}
