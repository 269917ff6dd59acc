# Fitness tracker: a Dafny model of its domain and store logic

This project models the core of a small command-line fitness tracker
(`fitness_track.py`). Users sign up and log in. They log activities, and each
activity gets a derived calorie estimate. They record goals, keep custom
workout plans, look up canned plans by level, and share activities to a feed
that every user sees.

The Python program keeps its data in SQLite and talks to the user through
`input()`/`print()`. This model keeps only the deterministic logic:

- **CalorieEstimator** (`calories.dfy`): the MET table. The lookup is
  case-insensitive and falls back to MET 5. The estimate
  `MET * 70 * duration / 60` is an exact `real`.
- **Plans** (`plans.dfy`): the canned plans for the levels beginner,
  intermediate and advanced. The lookup is case-insensitive. Any other
  level gets the sentinel text `"Invalid fitness level."`.
- **Schema** (`schema.dfy`): one datatype per table row (`User`, `Activity`,
  `Goal`, `WorkoutPlan`, `Post`). The immutable `Db` value holds the five
  tables in insertion order. It also holds, for each table, the largest id
  that table has handed out, which is SQLite's AUTOINCREMENT sequence.
  `Valid` is the store invariant:
  - ids are fresh and ascend;
  - usernames are unique;
  - every row refers to an existing user;
  - every post refers to the poster's own activity;
  - every stored calorie value equals the estimate.
- **Accounts**, **Activities**, **Goals**, **WorkoutPlans**, **Social**: each
  SQL statement becomes a pure transition `Db -> Db` or a query over `Db`.
  Transitions that can fail return a `Result`, and on failure the store
  comes back unchanged. Every prompt answer is a parameter, and so is the
  post timestamp.
- **Tables** (`tables.dfy`): generic helpers for single-row lookup
  (`Find`, the first match in insertion order) and for the
  `WHERE user_id = ?` filter (`Owned`).
- **Text** (`text.dfy`): ASCII lower-casing and decimal integer literals.

Behaviour of the code worth noting:
- `sign_up` accepts an empty username. The column is only `UNIQUE NOT NULL`.
- The predefined-plan lookup returns the sentinel string for an unknown
  level. It does not return a typed error.
- `share_activity` takes a 1-based position in the caller's own activity
  list, not an activity id. Its two failures are "no activities" and
  "position out of range". So a foreign activity cannot be chosen at all.
  `SharedActivityIsOwn` proves this.
- The feed is ordered by `ORDER BY timestamp DESC`. Timestamps along it are
  non-increasing, not strictly decreasing.
- SQLite does not enforce foreign keys by default, so logging an activity,
  setting goals or creating a plan does not check the user id. The
  invariant-preservation lemmas require the id to exist. A successful
  log-in always yields such an id (`LogInNamesExistingUser`).

## Model

| member | source | states |
|---|---|---|
| CalorieEstimator.Met | fitness_track.py:77-83 | The MET is 10/4/8/11 for running/walking/cycling/swimming after lower-casing, and 5 for every other type |
| CalorieEstimator.CaloriesPerMinute | fitness_track.py:83-85 | Every estimate is one of the five coefficients times 70/60 per minute of duration |
| CalorieEstimator.CaloriesCaseInsensitive | fitness_track.py:83 | Activity types that agree after lower-casing get the same estimate |
| CalorieEstimator.CaloriesAdditive | fitness_track.py:85 | The estimate is linear in duration: the estimate for d1 + d2 is the sum of the estimates for d1 and d2 |
| CalorieEstimator.CaloriesMonotone | fitness_track.py:85 | For durations 0 <= d1 <= d2, estimates are non-negative and never decrease |
| CalorieEstimator.CaloriesExamples | fitness_track.py:76-86 | 30 min of "Running" give 350 kcal, 60 min of the unknown "yoga" give 350 kcal, 60 min of "SWIMMING" give 770 kcal |
| CalorieEstimator.Calories | fitness_track.py:76-86 | The estimate times 60 equals the type's MET times 70 kg times the duration; the MET itself is pinned by `Met`'s table contract, so this is the exact `MET * 70 * duration / 60` |
| Plans.PredefinedPlan | fitness_track.py:170-177 | The three levels map to their fixed plans in any letter case; the sentinel is returned exactly when the lower-cased level is none of the three |
| Plans.PredefinedPlanCaseInsensitive | fitness_track.py:177 | Levels that agree after lower-casing get the same answer |
| Plans.PredefinedPlanRange | fitness_track.py:171-177 | The answer is always one of the three plans or the sentinel, and the three plans differ |
| Plans.PredefinedPlanMixedCaseExample | fitness_track.py:173-177 | "Intermediate" yields the intermediate plan |
| Plans.PredefinedPlanUnknownExample | fitness_track.py:177 | "pro" yields "Invalid fitness level." |
| Text.Lower | fitness_track.py:83 | Lower-casing keeps the length, maps every ASCII capital to its small letter and leaves every other character, so the result holds no ASCII capital |
| Text.ParseInt | fitness_track.py:96 | A literal with a leading '-' denotes minus the value of its digits (so <= 0); an unsigned or '+'-signed literal denotes the value of its digits (so >= 0) |
| Text.ShowIntRoundTrip | fitness_track.py:96 | Every integer's decimal spelling is a literal, and parsing it gives the integer back |
| Tables.Find | fitness_track.py:301 | The lookup returns a row exactly when some row satisfies the condition, and the row it returns is the first such row |
| Tables.Owned | fitness_track.py:108 | The filter keeps exactly the rows of the given owner |
| Tables.OwnedAppend | fitness_track.py:97-108 | Appending a row adds it to its owner's filtered view only, at the end |
| Tables.OwnedAscending | fitness_track.py:108 | Filtering preserves ascending ids, so filtered views stay in insertion order |
| Schema.EmptyDb | fitness_track.py:4-73 | A freshly created store has all five tables empty and nothing handed out by any AUTOINCREMENT sequence |
| Schema.EmptyDbValid | fitness_track.py:4-73 | The freshly created store satisfies the invariant |
| Schema.ActivityIdsUnique | fitness_track.py:24 | Under the invariant an activity id identifies one activity |
| Schema.UsernameUnique | fitness_track.py:12 | Under the invariant a username identifies one user |
| Accounts.SignUp | fitness_track.py:275-284 | A taken username fails with DuplicateUsername and changes nothing. Otherwise exactly one user is appended with an id above the previous sequence value, and no other table changes |
| Accounts.SignUpPreservesValid | fitness_track.py:11-12 | Sign-up keeps the invariant, including unique usernames, and the new id exceeds every existing user id |
| Accounts.SecondSignUpFails | fitness_track.py:275-284 | On any store where the name is free, signing up twice with it fails the second time without change, and exactly one user has that name |
| Accounts.LogIn | fitness_track.py:296-304 | Log-in succeeds iff some stored user has exactly that username and password, and then returns that user's id, age, weight, height and goal |
| Accounts.WrongPasswordFails | fitness_track.py:296-299 | On any store with unique usernames (the UNIQUE column of line 12), a right username with a wrong password never logs in |
| Accounts.LogInAfterSignUp | fitness_track.py:276-301 | After a successful sign-up, logging in with the same credentials returns the new id and the profile just entered |
| Accounts.LogInNamesExistingUser | fitness_track.py:301-305 | The id a successful log-in returns belongs to a stored user |
| Activities.ReadHeartRate | fitness_track.py:95-96 | An empty heart-rate entry is stored as NULL, and any other entry is stored as the integer its literal denotes |
| Activities.ReadHeartRateRoundTrip | fitness_track.py:96 | Typing the decimal spelling of n stores n; in particular "0" stores 0, not NULL |
| Activities.TrackActivity | fitness_track.py:94-100 | Appends exactly one activity. It carries the given user and fields, calories equal to the estimate for its type and duration, NULL heart rate exactly for empty input, and a fresh id. No other table changes |
| Activities.TrackActivityPreservesValid | fitness_track.py:97-100 | Logging an activity for an existing user keeps the invariant, including the derived-calories clause |
| Activities.ViewActivities | fitness_track.py:108 | The list holds exactly the activities whose user id matches. It is empty exactly when the user has none |
| Activities.ViewAfterTrack | fitness_track.py:97-108 | After logging, the logger's list gains the new activity at its end, and every other user's list is unchanged |
| Activities.ViewActivitiesInInsertionOrder | fitness_track.py:108 | Under the invariant, a user's activities are listed in ascending id order |
| Goals.SetGoals | fitness_track.py:125-128 | Always appends one goal row with the given targets and a fresh id. Existing goals are not updated, and no other table changes |
| Goals.SetGoalsPreservesValid | fitness_track.py:125-128 | Setting goals for an existing user keeps the invariant |
| Goals.GoalsAccumulate | fitness_track.py:125-128 | Two goal settings leave the earlier goals untouched and add two rows, in order, each with its own user, weight, distance and calorie targets, under increasing ids |
| WorkoutPlans.CreateWorkoutPlan | fitness_track.py:142-145 | Appends one plan with the three texts verbatim and a fresh id. No other table changes |
| WorkoutPlans.ViewWorkoutPlans | fitness_track.py:155 | The list holds exactly the plans whose user id matches. It is empty exactly when the user has none |
| WorkoutPlans.CreateWorkoutPlanPreservesValid | fitness_track.py:142-145 | Creating a plan for an existing user keeps the invariant |
| WorkoutPlans.ViewAfterCreate | fitness_track.py:142-155 | After creating a plan, the creator's list gains it at its end, and every other user's list is unchanged |
| WorkoutPlans.ViewWorkoutPlansInInsertionOrder | fitness_track.py:155 | Under the invariant, a user's plans are listed in ascending id order |
| Social.ShareActivity | fitness_track.py:213-233 | A caller with no activities gets NoActivities. A position outside 1..n gets InvalidChoice. Both failures change nothing. Otherwise exactly one post is appended naming the caller, the chosen own activity, the caption and the timestamp, and no other table changes |
| Social.AppendPostPreservesValid | fitness_track.py:233 | A post by an existing user about that user's own activity keeps the invariant |
| Social.SharePreservesValid | fitness_track.py:213-233 | Sharing keeps the invariant |
| Social.SharedActivityIsOwn | fitness_track.py:213-230 | Under the invariant, the shared activity id names no other user's activity |
| Social.JoinPost | fitness_track.py:245-248 | A post yields exactly one entry iff a user with its user id and an activity with its activity id exist (whoever owns the activity), and none otherwise; the entry carries the poster's username, the activity's type, duration and distance, and the post's caption and timestamp |
| Social.ResolvedCount | fitness_track.py:245-248 | The number of posts whose user and activity both exist is at most the number of posts, and equals it iff every post resolves |
| Social.JoinPosts | fitness_track.py:245-248 | The join has as many entries as there are resolving posts, and every entry comes from some post |
| Social.JoinPostsAppend | fitness_track.py:245-248 | The join of two post lists laid end to end is the two joins laid end to end, so each post contributes its own entries exactly once, in post order |
| Social.JoinPostsKeepsResolved | fitness_track.py:245-248 | The entry of every resolving post is in the join, whatever the other posts are |
| Social.JoinPostsAligned | fitness_track.py:245-248 | When all references resolve, the join has one entry per post, in post order |
| Social.InsertNewestFirst | fitness_track.py:249 | Inserting into a newest-first list keeps it newest first |
| Social.SortNewestFirst | fitness_track.py:249 | The result is ordered by non-increasing timestamp and is a permutation of the input |
| Social.ViewSharedActivities | fitness_track.py:244-252 | The feed is ordered by non-increasing timestamp and is a permutation of the join. It has one entry per resolving post, and each entry is the join of some post |
| Social.FeedKeepsResolved | fitness_track.py:244-252 | A post whose user and activity exist has its entry in the feed |
| Social.FeedLengthAllJoinable | fitness_track.py:244-252 | When all references resolve, the feed is exactly as long as the post table |
| Social.FeedHoldsJoinablePosts | fitness_track.py:244-252 | When all references resolve, every post has its entry in the feed |
| Social.FeedIsOneEntryPerPost | fitness_track.py:244-252 | When all references resolve, the feed is a reordering (same multiset) of the list holding each post's entry once |
| Social.FeedOnePerPost | fitness_track.py:244-252 | Under the invariant, the feed is a reordering (same multiset) of the posts' entries, each post contributing its entry, joined to the poster's username and the activity's type, duration and distance, exactly once |

## Left out

- Connections, commits and closes of the SQLite store. The store is an immutable `Db` value. The connection left open on the early returns of `share_activity` has no counterpart.
- All prompts and printing, the `{:.2f}` formatting, and the menu loops `main_menu`, `workout_plans_menu`, `social_features` and `main`. These are the CLI shell, and every answer typed at a prompt is a parameter instead. The view functions return whole rows; the columns the program prints are a projection of them.
- Parse failures of `int(...)` and `float(...)` on typed text. The model takes already typed arguments; only the heart-rate text is modelled as text.
- Activities.ReadHeartRate: only optionally signed ASCII decimal digit strings are accepted. The surrounding whitespace, digit-group underscores and non-ASCII decimal digits (such as "٧٢") that Python's `int()` also accepts are not modelled.
- Activities.TrackActivity: requires the heart-rate text to be empty or a literal, for the same reason.
- Unicode lower-casing. `Text.Lower` lower-cases ASCII letters only.
- IEEE floating point. Calories, weights and distances are exact reals.
- The wall clock behind `CURRENT_TIMESTAMP`. The timestamp is an integer parameter of `Social.ShareActivity`.
- Row order without `ORDER BY`. Views list rows in insertion order, but SQLite does not promise that order, and the model does not claim it does.
- Tie order of feed entries with equal timestamps. The SQL leaves it unspecified, so nothing is claimed beyond non-increasing timestamps.
- Re-running `init_db` on an existing file. `CREATE TABLE IF NOT EXISTS` keeps existing data; only the fresh store (`Schema.EmptyDb`) is modelled.
- Passwords are stored and compared as plain text, as in the program. No hashing is modelled.
- The `user_id` argument of `view_shared_activities`, which the query never uses. `Social.ViewSharedActivities` takes no user.
- Duplicate ids. They cannot arise under AUTOINCREMENT. The join takes the first matching user and activity (`Tables.Find`), which coincides with the SQL join whenever ids are unique, as `Valid` guarantees.
- Integer width. SQLite stores an INTEGER in at most 64 bits, and Python's `sqlite3` raises `OverflowError` when it binds an int of 2^63 or more. The age typed at sign-up (outside the `IntegrityError` handler of `sign_up`) and the duration or heart rate of `track_activity` would then crash the program; the model stores any integer instead.
- The AUTOINCREMENT ceiling. SQLite refuses new rows once a table's sequence reaches 2^63 - 1; the model's id counters are unbounded.
- CalorieEstimator.Calories: the float estimate overflows (the true division `/ 60` of two Python ints raises `OverflowError` once the quotient is too large for a float) for durations the exact `real` estimate handles; no overflow is modelled.
