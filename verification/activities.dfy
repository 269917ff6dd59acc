/** Logging and listing a user's activities. */
module Activities {
  import opened Wrappers
  import opened Text
  import opened CalorieEstimator
  import opened Tables
  import opened Schema

  /** A heart-rate entry may be left empty; text that is empty (rather than
      text that reads 0) is stored as NULL. */
  predicate HeartRateInput(text: string) {
    text == "" || IsIntLiteral(text)
  }

  /** The stored heart rate for what was typed at the prompt. */
  function ReadHeartRate(text: string): (r: Option<int>)
    requires HeartRateInput(text)
    ensures r.None? <==> text == ""
    ensures text != "" ==> r == Some(ParseInt(text))
  {
    if text == "" then None else Some(ParseInt(text))
  }

  /** Typing the decimal spelling of a heart rate stores that heart rate;
      in particular "0" stores 0, never NULL. */
  lemma ReadHeartRateRoundTrip(n: int)
    ensures HeartRateInput(ShowInt(n))
    ensures ReadHeartRate(ShowInt(n)) == Some(n)
  {
    ShowIntRoundTrip(n);
  }

  /** Records an activity. The calories are derived from the type and
      duration, never supplied by the caller. Exactly one row is appended
      under the next AUTOINCREMENT id and no other table changes. The user id
      is not checked against the users table. */
  function TrackActivity(db: Db, userId: int, activityType: string, duration: int,
                         distance: real, heartRateText: string): (r: Db)
    requires HeartRateInput(heartRateText)
    ensures r == db.(activities := r.activities, lastActivityId := r.lastActivityId)
    ensures |r.activities| == |db.activities| + 1
    ensures r.activities[..|db.activities|] == db.activities
    ensures var a := r.activities[|db.activities|];
            && a.id == r.lastActivityId > db.lastActivityId
            && a.userId == userId
            && a.activityType == activityType && a.duration == duration && a.distance == distance
            && a.caloriesBurned == Calories(activityType, duration)
            && (a.heartRate.None? <==> heartRateText == "")
            && (heartRateText != "" ==> a.heartRate == Some(ParseInt(heartRateText)))
  {
    var id := db.lastActivityId + 1;
    var calories := Calories(activityType, duration);
    var activity := Activity(id, userId, activityType, duration, distance, calories,
                             ReadHeartRate(heartRateText));
    db.(activities := db.activities + [activity], lastActivityId := id)
  }

  /** The activities of one user: exactly the rows whose user id matches, and
      an empty list when the user has logged none. */
  function ViewActivities(db: Db, userId: int): (r: seq<Activity>)
    ensures forall a :: a in r <==> a in db.activities && a.userId == userId
    ensures r == [] <==> forall a :: a in db.activities ==> a.userId != userId
  {
    var r := Owned(db.activities, ActivityOwner, userId);
    assert r != [] ==> r[0] in r;
    r
  }

  /** Logging an activity for an existing user keeps the invariant. */
  lemma TrackActivityPreservesValid(db: Db, userId: int, activityType: string, duration: int,
                                    distance: real, heartRateText: string)
    requires Valid(db) && HasUser(db, userId)
    requires HeartRateInput(heartRateText)
    ensures Valid(TrackActivity(db, userId, activityType, duration, distance, heartRateText))
  {
  }

  /** After logging, the user's list gains exactly the new activity at its
      end, and every other user's list is unchanged. */
  lemma ViewAfterTrack(db: Db, userId: int, activityType: string, duration: int,
                       distance: real, heartRateText: string, viewer: int)
    requires HeartRateInput(heartRateText)
    ensures var db' := TrackActivity(db, userId, activityType, duration, distance, heartRateText);
            ViewActivities(db', viewer) ==
              ViewActivities(db, viewer) + (if viewer == userId then [db'.activities[|db.activities|]] else [])
  {
  }

  /** Under the invariant a user's list is in insertion order: ids ascend. */
  lemma ViewActivitiesInInsertionOrder(db: Db, userId: int)
    requires Valid(db)
    ensures var r := ViewActivities(db, userId);
            forall i, j :: 0 <= i < j < |r| ==> r[i].id < r[j].id
  {
    OwnedAscending(db.activities, ActivityKey, db.lastActivityId, ActivityOwner, userId);
    var r := ViewActivities(db, userId);
    assert forall i, j :: 0 <= i < j < |r| ==> ActivityKey(r[i]) < ActivityKey(r[j]);
  }
}
