/** Account creation and log-in. */
module Accounts {
  import opened Wrappers
  import opened Tables
  import opened Schema

  datatype AccountError = DuplicateUsername | InvalidCredentials

  /** What a successful log-in hands back: the session's user id and the
      stored profile fields. */
  datatype Profile = Profile(id: int, age: int, weight: real, height: real, fitnessGoal: string)

  function ProfileOf(u: User): Profile {
    Profile(u.id, u.age, u.weight, u.height, u.fitnessGoal)
  }

  predicate UsernameTaken(db: Db, username: string) {
    exists u :: u in db.users && u.username == username
  }

  /** Inserts a user. The UNIQUE constraint on the username rejects a name
      already present, and the rejected insert changes nothing. Otherwise
      exactly one row is appended, under the next AUTOINCREMENT id, and no
      other table changes. */
  function SignUp(db: Db, username: string, password: string, age: int,
                  weight: real, height: real, fitnessGoal: string): (r: (Db, Result<int, AccountError>))
    ensures r.1.Failure? <==> UsernameTaken(db, username)
    ensures r.1.Failure? ==> r.1.error == DuplicateUsername && r.0 == db
    ensures r.1.Success? ==>
      && r.0 == db.(users := r.0.users, lastUserId := r.0.lastUserId)
      && r.0.users == db.users + [User(r.1.value, username, password, age, weight, height, fitnessGoal)]
      && r.0.lastUserId == r.1.value > db.lastUserId
  {
    if UsernameTaken(db, username) then (db, Failure(DuplicateUsername))
    else
      var id := db.lastUserId + 1;
      var user := User(id, username, password, age, weight, height, fitnessGoal);
      (db.(users := db.users + [user], lastUserId := id), Success(id))
  }

  function Matches(username: string, password: string): User -> bool {
    (u: User) => u.username == username && u.password == password
  }

  /** Looks up the user whose username and password both equal the given
      ones, character for character. */
  function LogIn(db: Db, username: string, password: string): (r: Result<Profile, AccountError>)
    ensures r.Success? <==> exists u :: u in db.users && u.username == username && u.password == password
    ensures r.Success? ==> exists u :: u in db.users && u.username == username && u.password == password
                                       && r.value == ProfileOf(u)
    ensures r.Failure? ==> r.error == InvalidCredentials
  {
    match Find(db.users, Matches(username, password))
    case Some(u) => Success(ProfileOf(u))
    case None => Failure(InvalidCredentials)
  }

  /** Signing up keeps the invariant; a new user's id exceeds every existing id. */
  lemma SignUpPreservesValid(db: Db, username: string, password: string, age: int,
                             weight: real, height: real, fitnessGoal: string)
    requires Valid(db)
    ensures Valid(SignUp(db, username, password, age, weight, height, fitnessGoal).0)
    ensures var r := SignUp(db, username, password, age, weight, height, fitnessGoal);
            r.1.Success? ==> forall u :: u in db.users ==> u.id < r.1.value
  {
    var r := SignUp(db, username, password, age, weight, height, fitnessGoal);
    if r.1.Success? {
      var db' := r.0;
      var user := db'.users[|db.users|];
      assert forall u :: u in db.users ==> u in db'.users;
      forall i | 0 <= i < |db.users|
        ensures db.users[i].username != user.username && db.users[i].id < user.id
      {
        assert db.users[i] in db.users;
        assert UserKey(db.users[i]) <= db.lastUserId;
      }
      assert UsernamesDistinct(db'.users);
      assert IdsAscending(db'.users, UserKey, db'.lastUserId);
      forall p | p in db.posts
        ensures HasActivityOf(db', p.activityId, p.userId)
      {
        assert HasActivityOf(db, p.activityId, p.userId);
      }
    }
  }

  /** A second sign-up under the same name is rejected, and exactly one user
      carries that name afterwards. */
  lemma SecondSignUpFails(db: Db, username: string, p1: string, p2: string, age1: int, age2: int,
                          w1: real, w2: real, h1: real, h2: real, g1: string, g2: string)
    requires !UsernameTaken(db, username)
    ensures var db1 := SignUp(db, username, p1, age1, w1, h1, g1).0;
            var r := SignUp(db1, username, p2, age2, w2, h2, g2);
            && r.1 == Failure(DuplicateUsername)
            && r.0 == db1
            && (exists u :: u in r.0.users && u.username == username)
            && (forall u, v ::
                  u in r.0.users && v in r.0.users && u.username == username && v.username == username
                  ==> u == v)
  {
  }

  /** A successful log-in names an existing user. */
  lemma LogInNamesExistingUser(db: Db, username: string, password: string)
    ensures LogIn(db, username, password).Success? ==> HasUser(db, LogIn(db, username, password).value.id)
  {
  }

  /** With unique usernames (the UNIQUE column), a right username with a wrong
      password never logs in. */
  lemma WrongPasswordFails(db: Db, u: User, password: string)
    requires UsernamesDistinct(db.users)
    requires u in db.users && u.password != password
    ensures LogIn(db, u.username, password) == Failure(InvalidCredentials)
  {
  }

  /** After a successful sign-up, logging in with the same name and password
      returns the new user's id and the profile just entered. */
  lemma LogInAfterSignUp(db: Db, username: string, password: string, age: int,
                         weight: real, height: real, fitnessGoal: string)
    requires !UsernameTaken(db, username)
    ensures var r := SignUp(db, username, password, age, weight, height, fitnessGoal);
            LogIn(r.0, username, password) == Success(Profile(r.1.value, age, weight, height, fitnessGoal))
  {
  }
}
