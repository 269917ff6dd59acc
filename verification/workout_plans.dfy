/** Creating and listing a user's custom workout plans. */
module WorkoutPlans {
  import opened Tables
  import opened Schema

  /** Stores a plan. The three text fields are kept verbatim, one row is
      appended under the next AUTOINCREMENT id, and no other table changes. */
  function CreateWorkoutPlan(db: Db, userId: int, planName: string, exercises: string,
                             schedule: string): (r: Db)
    ensures r == db.(plans := r.plans, lastPlanId := r.lastPlanId)
    ensures |r.plans| == |db.plans| + 1
    ensures r.plans[..|db.plans|] == db.plans
    ensures var p := r.plans[|db.plans|];
            && p.id == r.lastPlanId > db.lastPlanId
            && p.userId == userId && p.planName == planName
            && p.exercises == exercises && p.schedule == schedule
  {
    var id := db.lastPlanId + 1;
    db.(plans := db.plans + [WorkoutPlan(id, userId, planName, exercises, schedule)], lastPlanId := id)
  }

  /** The plans of one user: exactly the rows whose user id matches, and an
      empty list when the user has created none. */
  function ViewWorkoutPlans(db: Db, userId: int): (r: seq<WorkoutPlan>)
    ensures forall p :: p in r <==> p in db.plans && p.userId == userId
    ensures r == [] <==> forall p :: p in db.plans ==> p.userId != userId
  {
    var r := Owned(db.plans, PlanOwner, userId);
    assert r != [] ==> r[0] in r;
    r
  }

  /** Creating a plan for an existing user keeps the invariant. */
  lemma CreateWorkoutPlanPreservesValid(db: Db, userId: int, planName: string, exercises: string,
                                        schedule: string)
    requires Valid(db) && HasUser(db, userId)
    ensures Valid(CreateWorkoutPlan(db, userId, planName, exercises, schedule))
  {
  }

  /** After creating a plan, the creator's list gains exactly that plan at
      its end, and every other user's list is unchanged. */
  lemma ViewAfterCreate(db: Db, userId: int, planName: string, exercises: string, schedule: string,
                        viewer: int)
    ensures var db' := CreateWorkoutPlan(db, userId, planName, exercises, schedule);
            ViewWorkoutPlans(db', viewer) ==
              ViewWorkoutPlans(db, viewer) + (if viewer == userId then [db'.plans[|db.plans|]] else [])
  {
  }

  /** Under the invariant a user's plans are listed in insertion order. */
  lemma ViewWorkoutPlansInInsertionOrder(db: Db, userId: int)
    requires Valid(db)
    ensures var r := ViewWorkoutPlans(db, userId);
            forall i, j :: 0 <= i < j < |r| ==> r[i].id < r[j].id
  {
    OwnedAscending(db.plans, PlanKey, db.lastPlanId, PlanOwner, userId);
    var r := ViewWorkoutPlans(db, userId);
    assert forall i, j :: 0 <= i < j < |r| ==> PlanKey(r[i]) < PlanKey(r[j]);
  }
}
