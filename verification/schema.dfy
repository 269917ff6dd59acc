/** The five tables of the tracker's store and the invariant the services
    keep when they are called with a logged-in user's id. */
module Schema {
  import opened Wrappers
  import opened Tables
  import opened CalorieEstimator

  /** A registered account. Passwords are stored and compared as plain text. */
  datatype User = User(id: int, username: string, password: string,
                       age: int, weight: real, height: real, fitnessGoal: string)

  /** One logged session of exercise; `heartRate` is NULL when none was entered. */
  datatype Activity = Activity(id: int, userId: int, activityType: string, duration: int,
                               distance: real, caloriesBurned: real, heartRate: Option<int>)

  /** One set of targets; goals form an append-only history per user. */
  datatype Goal = Goal(id: int, userId: int, targetWeight: real, targetDistance: real,
                       targetCalories: real)

  /** A custom plan; the three text fields are stored verbatim. */
  datatype WorkoutPlan = WorkoutPlan(id: int, userId: int, planName: string,
                                     exercises: string, schedule: string)

  /** A shared reference to an activity, stamped with its creation time. */
  datatype Post = Post(id: int, userId: int, activityId: int, caption: string, timestamp: int)

  /** The whole store: each table in insertion order, and for each table the
      largest id it has handed out (SQLite's AUTOINCREMENT sequence). */
  datatype Db = Db(users: seq<User>, activities: seq<Activity>, goals: seq<Goal>,
                   plans: seq<WorkoutPlan>, posts: seq<Post>,
                   lastUserId: int, lastActivityId: int, lastGoalId: int,
                   lastPlanId: int, lastPostId: int)

  function UserKey(u: User): int { u.id }
  function ActivityKey(a: Activity): int { a.id }
  function GoalKey(g: Goal): int { g.id }
  function PlanKey(p: WorkoutPlan): int { p.id }
  function PostKey(p: Post): int { p.id }

  function ActivityOwner(a: Activity): int { a.userId }
  function PlanOwner(p: WorkoutPlan): int { p.userId }

  /** The store as the schema is first created: five empty tables. */
  function EmptyDb(): (db: Db)
    ensures db.users == [] && db.activities == [] && db.goals == [] && db.plans == [] && db.posts == []
    ensures db.lastUserId == db.lastActivityId == db.lastGoalId == db.lastPlanId == db.lastPostId == 0
  {
    Db([], [], [], [], [], 0, 0, 0, 0, 0)
  }

  predicate HasUser(db: Db, uid: int) {
    exists u :: u in db.users && u.id == uid
  }

  /** Some activity with id `activityId` belongs to user `uid`. */
  predicate HasActivityOf(db: Db, activityId: int, uid: int) {
    exists a :: a in db.activities && a.id == activityId && a.userId == uid
  }

  predicate UsernamesDistinct(users: seq<User>) {
    forall i, j :: 0 <= i < j < |users| ==> users[i].username != users[j].username
  }

  /** The invariant of the store:
      - every table's ids are fresh AUTOINCREMENT values in insertion order;
      - usernames are unique;
      - every row that names a user names an existing one;
      - every post refers to an activity of the user who posted it;
      - every stored calorie value is the estimate for its type and duration. */
  predicate Valid(db: Db) {
    && db.lastUserId >= 0 && db.lastActivityId >= 0 && db.lastGoalId >= 0
    && db.lastPlanId >= 0 && db.lastPostId >= 0
    && IdsAscending(db.users, UserKey, db.lastUserId)
    && IdsAscending(db.activities, ActivityKey, db.lastActivityId)
    && IdsAscending(db.goals, GoalKey, db.lastGoalId)
    && IdsAscending(db.plans, PlanKey, db.lastPlanId)
    && IdsAscending(db.posts, PostKey, db.lastPostId)
    && UsernamesDistinct(db.users)
    && (forall a :: a in db.activities ==> HasUser(db, a.userId))
    && (forall g :: g in db.goals ==> HasUser(db, g.userId))
    && (forall p :: p in db.plans ==> HasUser(db, p.userId))
    && (forall p :: p in db.posts ==> HasUser(db, p.userId))
    && (forall p :: p in db.posts ==> HasActivityOf(db, p.activityId, p.userId))
    && (forall a :: a in db.activities ==> a.caloriesBurned == Calories(a.activityType, a.duration))
  }

  /** The freshly created store satisfies the invariant. */
  lemma EmptyDbValid()
    ensures Valid(EmptyDb())
  {
  }

  /** Under the invariant, an id names at most one activity. */
  lemma ActivityIdsUnique(db: Db, a: Activity, b: Activity)
    requires Valid(db)
    requires a in db.activities && b in db.activities && a.id == b.id
    ensures a == b
  {
  }

  /** Under the invariant, a username names at most one user. */
  lemma UsernameUnique(db: Db, u: User, v: User)
    requires Valid(db)
    requires u in db.users && v in db.users && u.username == v.username
    ensures u == v
  {
  }
}
