/** Sharing activities as posts, and the system-wide feed of posts. */
module Social {
  import opened Wrappers
  import opened Tables
  import opened Schema
  import opened Activities

  datatype ShareError = NoActivities | InvalidChoice

  /** Shares one of the caller's own activities, chosen by its 1-based
      position in the caller's activity list. A caller with no activities,
      or a position outside the list, gets an error and nothing changes.
      Otherwise exactly one post is appended, under the next AUTOINCREMENT
      id, naming the chosen activity and stamped with `timestamp`; no other
      table changes. */
  function ShareActivity(db: Db, userId: int, choice: int, caption: string, timestamp: int)
    : (r: (Db, Result<int, ShareError>))
    ensures r.1 == Failure(NoActivities) <==> ViewActivities(db, userId) == []
    ensures r.1.Success? <==> 1 <= choice <= |ViewActivities(db, userId)|
    ensures r.1.Failure? ==> r.0 == db
    ensures r.1.Success? ==>
      && r.0 == db.(posts := r.0.posts, lastPostId := r.0.lastPostId)
      && |r.0.posts| == |db.posts| + 1
      && r.0.posts[..|db.posts|] == db.posts
      && var p := r.0.posts[|db.posts|];
         && p.id == r.1.value == r.0.lastPostId > db.lastPostId
         && p.userId == userId
         && p.activityId == ViewActivities(db, userId)[choice - 1].id
         && p.caption == caption && p.timestamp == timestamp
         && HasActivityOf(db, p.activityId, userId)
  {
    var own := ViewActivities(db, userId);
    if own == [] then (db, Failure(NoActivities))
    else
      var index := choice - 1;
      if index < 0 || index >= |own| then (db, Failure(InvalidChoice))
      else
        var id := db.lastPostId + 1;
        assert own[index] in own;
        var post := Post(id, userId, own[index].id, caption, timestamp);
        (db.(posts := db.posts + [post], lastPostId := id), Success(id))
  }

  /** Appending a post by an existing user about one of that user's
      activities, under the next post id, keeps the invariant. */
  lemma AppendPostPreservesValid(db: Db, p: Post)
    requires Valid(db)
    requires p.id == db.lastPostId + 1
    requires HasUser(db, p.userId) && HasActivityOf(db, p.activityId, p.userId)
    ensures Valid(db.(posts := db.posts + [p], lastPostId := p.id))
  {
  }

  /** Sharing keeps the invariant; no precondition on the caller is needed,
      because a caller with activities is an existing user. */
  lemma SharePreservesValid(db: Db, userId: int, choice: int, caption: string, timestamp: int)
    requires Valid(db)
    ensures Valid(ShareActivity(db, userId, choice, caption, timestamp).0)
  {
    var r := ShareActivity(db, userId, choice, caption, timestamp);
    if r.1.Success? {
      var p := r.0.posts[|db.posts|];
      assert r.0 == db.(posts := db.posts + [p], lastPostId := p.id);
      var a :| a in db.activities && a.id == p.activityId && a.userId == userId;
      assert HasUser(db, a.userId);
      AppendPostPreservesValid(db, p);
    }
  }

  /** Under the invariant the shared activity is the caller's: no activity
      of another user carries the posted id. */
  lemma SharedActivityIsOwn(db: Db, userId: int, choice: int, caption: string, timestamp: int)
    requires Valid(db)
    ensures var r := ShareActivity(db, userId, choice, caption, timestamp);
            r.1.Success? ==>
              forall a :: a in db.activities && a.id == r.0.posts[|db.posts|].activityId ==> a.userId == userId
  {
  }

  /** One line of the feed: who posted, what activity, the caption and when. */
  datatype FeedEntry = FeedEntry(username: string, activityType: string, duration: int,
                                 distance: real, caption: string, timestamp: int)

  function EntryOf(u: User, a: Activity, p: Post): FeedEntry {
    FeedEntry(u.username, a.activityType, a.duration, a.distance, p.caption, p.timestamp)
  }

  function UserWithId(id: int): User -> bool {
    (u: User) => u.id == id
  }

  function ActivityWithId(id: int): Activity -> bool {
    (a: Activity) => a.id == id
  }

  /** A post resolves when both its poster and its activity exist, whoever
      owns that activity: the two join conditions are on ids only. */
  predicate Resolves(db: Db, p: Post) {
    HasUser(db, p.userId) && exists a :: a in db.activities && a.id == p.activityId
  }

  /** The join of one post: its entry exactly when the post resolves,
      nothing otherwise. */
  function JoinPost(db: Db, p: Post): (r: seq<FeedEntry>)
    ensures |r| <= 1
    ensures |r| == 1 <==> Resolves(db, p)
    ensures forall e :: e in r ==>
      exists u, a :: u in db.users && a in db.activities && u.id == p.userId && a.id == p.activityId
                     && e == EntryOf(u, a, p)
  {
    match (Find(db.users, UserWithId(p.userId)), Find(db.activities, ActivityWithId(p.activityId)))
    case (Some(u), Some(a)) =>
      assert u in db.users && a in db.activities;
      [EntryOf(u, a, p)]
    case _ => []
  }

  /** How many of the posts resolve. */
  function ResolvedCount(db: Db, posts: seq<Post>): (n: nat)
    ensures n <= |posts|
    ensures n == |posts| <==> forall i :: 0 <= i < |posts| ==> Resolves(db, posts[i])
  {
    if posts == [] then 0
    else (if Resolves(db, posts[0]) then 1 else 0) + ResolvedCount(db, posts[1..])
  }

  /** The inner join of posts with users on the poster and with activities on
      the shared activity: one entry for each post that resolves, and no
      other entries. */
  function JoinPosts(db: Db, posts: seq<Post>): (r: seq<FeedEntry>)
    ensures |r| == ResolvedCount(db, posts)
    ensures forall e :: e in r ==> exists p :: p in posts && e in JoinPost(db, p)
  {
    if posts == [] then []
    else
      assert forall q :: q in posts[1..] ==> q in posts;
      JoinPost(db, posts[0]) + JoinPosts(db, posts[1..])
  }

  /** Joining a concatenation of post lists joins each list in turn, so the
      join holds each post's entry once, in post order. */
  lemma {:induction false} JoinPostsAppend(db: Db, a: seq<Post>, b: seq<Post>)
    ensures JoinPosts(db, a + b) == JoinPosts(db, a) + JoinPosts(db, b)
  {
    if a == [] {
      assert a + b == b;
    } else {
      assert (a + b)[0] == a[0];
      assert (a + b)[1..] == a[1..] + b;
      JoinPostsAppend(db, a[1..], b);
    }
  }

  /** Entries are listed newest first: timestamps never increase along the feed. */
  predicate NewestFirst(s: seq<FeedEntry>) {
    forall i, j :: 0 <= i < j < |s| ==> s[i].timestamp >= s[j].timestamp
  }

  /** Places an entry into a list before its first strictly older entry. */
  function Insert(e: FeedEntry, s: seq<FeedEntry>): (r: seq<FeedEntry>)
    ensures multiset(r) == multiset(s) + multiset{e}
    ensures |r| == |s| + 1
    ensures forall x :: x in r <==> x == e || x in s
  {
    if s == [] || e.timestamp >= s[0].timestamp then [e] + s
    else
      assert s == [s[0]] + s[1..];
      [s[0]] + Insert(e, s[1..])
  }

  /** No entry of a non-empty newest-first list is newer than its first entry. */
  lemma HeadIsNewest(s: seq<FeedEntry>, y: FeedEntry)
    requires NewestFirst(s) && s != [] && y in s
    ensures y.timestamp <= s[0].timestamp
  {
  }

  /** Inserting into a newest-first list keeps it newest first. */
  lemma {:induction false} InsertNewestFirst(e: FeedEntry, s: seq<FeedEntry>)
    requires NewestFirst(s)
    ensures NewestFirst(Insert(e, s))
  {
    if s == [] || e.timestamp >= s[0].timestamp {
      forall x | x in s
        ensures x.timestamp <= e.timestamp
      {
        HeadIsNewest(s, x);
      }
    } else {
      var rest := Insert(e, s[1..]);
      InsertNewestFirst(e, s[1..]);
      forall x | x in rest
        ensures x.timestamp <= s[0].timestamp
      {
        if x != e {
          assert x in s[1..];
          HeadIsNewest(s, x);
        }
      }
      var r := [s[0]] + rest;
      forall i, j | 0 <= i < j < |r|
        ensures r[i].timestamp >= r[j].timestamp
      {
        if i == 0 {
          assert r[j] == rest[j - 1];
        } else {
          assert r[i] == rest[i - 1] && r[j] == rest[j - 1];
        }
      }
    }
  }

  /** Orders entries newest first, keeping every entry exactly as often as it
      occurs (the ORDER BY timestamp DESC of the feed query). */
  function SortNewestFirst(s: seq<FeedEntry>): (r: seq<FeedEntry>)
    ensures NewestFirst(r)
    ensures multiset(r) == multiset(s)
    ensures |r| == |s|
    ensures forall x :: x in r <==> x in s
  {
    if s == [] then []
    else
      assert s == [s[0]] + s[1..];
      var rest := SortNewestFirst(s[1..]);
      InsertNewestFirst(s[0], rest);
      Insert(s[0], rest)
  }

  /** The feed shown to every user: all joined posts, newest first. The
      caller's user id plays no part in it. */
  function ViewSharedActivities(db: Db): (feed: seq<FeedEntry>)
    ensures NewestFirst(feed)
    ensures multiset(feed) == multiset(JoinPosts(db, db.posts))
    ensures |feed| == ResolvedCount(db, db.posts)
    ensures forall e :: e in feed ==> exists p :: p in db.posts && e in JoinPost(db, p)
  {
    SortNewestFirst(JoinPosts(db, db.posts))
  }

  /** Every post resolves. */
  predicate AllJoinable(db: Db, posts: seq<Post>) {
    forall i :: 0 <= i < |posts| ==> Resolves(db, posts[i])
  }

  /** Every post that resolves contributes its entry to the join, whether or
      not the other posts resolve. */
  lemma {:induction false} JoinPostsKeepsResolved(db: Db, posts: seq<Post>)
    ensures forall i :: 0 <= i < |posts| && Resolves(db, posts[i]) ==>
      JoinPost(db, posts[i])[0] in JoinPosts(db, posts)
  {
    if posts != [] {
      JoinPostsKeepsResolved(db, posts[1..]);
      var head := JoinPost(db, posts[0]);
      var tail := JoinPosts(db, posts[1..]);
      assert JoinPosts(db, posts) == head + tail;
      forall i | 0 <= i < |posts| && Resolves(db, posts[i])
        ensures JoinPost(db, posts[i])[0] in head + tail
      {
        if i == 0 {
          assert (head + tail)[0] == head[0];
        } else {
          assert posts[i] == posts[1..][i - 1];
          var x := JoinPost(db, posts[i])[0];
          assert x in tail;
        }
      }
    }
  }

  /** When every post's user and activity exist, the join drops no post and
      its i-th entry is the join of the i-th post. */
  lemma {:induction false} JoinPostsAligned(db: Db, posts: seq<Post>)
    requires AllJoinable(db, posts)
    ensures |JoinPosts(db, posts)| == |posts|
    ensures forall i :: 0 <= i < |posts| ==>
      |JoinPost(db, posts[i])| == 1 && JoinPosts(db, posts)[i] == JoinPost(db, posts[i])[0]
  {
    if posts != [] {
      assert AllJoinable(db, posts[1..]) by {
        forall i | 0 <= i < |posts[1..]| ensures Resolves(db, posts[1..][i]) {
          assert posts[1..][i] == posts[i + 1];
        }
      }
      JoinPostsAligned(db, posts[1..]);
      var head := JoinPost(db, posts[0]);
      var tail := JoinPosts(db, posts[1..]);
      assert JoinPosts(db, posts) == head + tail;
      forall i | 0 < i < |posts|
        ensures (head + tail)[i] == JoinPost(db, posts[i])[0]
      {
        assert posts[i] == posts[1..][i - 1];
      }
    }
  }

  /** A post whose user and activity exist has its entry in the feed. */
  lemma FeedKeepsResolved(db: Db, i: int)
    requires 0 <= i < |db.posts| && Resolves(db, db.posts[i])
    ensures |JoinPost(db, db.posts[i])| == 1
    ensures JoinPost(db, db.posts[i])[0] in ViewSharedActivities(db)
  {
    JoinPostsKeepsResolved(db, db.posts);
  }

  /** When every post can be joined, the feed is as long as the post table. */
  lemma FeedLengthAllJoinable(db: Db)
    requires AllJoinable(db, db.posts)
    ensures |ViewSharedActivities(db)| == |db.posts|
  {
    assert ResolvedCount(db, db.posts) == |db.posts|;
  }

  /** When every post can be joined, each post has its entry in the feed. */
  lemma FeedHoldsJoinablePosts(db: Db)
    requires AllJoinable(db, db.posts)
    ensures forall p :: p in db.posts ==> |JoinPost(db, p)| == 1 && JoinPost(db, p)[0] in ViewSharedActivities(db)
  {
    forall p | p in db.posts
      ensures |JoinPost(db, p)| == 1 && JoinPost(db, p)[0] in ViewSharedActivities(db)
    {
      var i :| 0 <= i < |db.posts| && db.posts[i] == p;
      FeedKeepsResolved(db, i);
    }
  }

  /** Each post's entry, in post order, one per post. */
  function PostEntries(db: Db, posts: seq<Post>): seq<FeedEntry>
    requires AllJoinable(db, posts)
  {
    seq(|posts|, i requires 0 <= i < |posts| => JoinPost(db, posts[i])[0])
  }

  /** When every post can be joined, the feed is a reordering of the posts'
      entries, each post contributing its entry exactly once. */
  lemma FeedIsOneEntryPerPost(db: Db)
    requires AllJoinable(db, db.posts)
    ensures multiset(ViewSharedActivities(db)) == multiset(PostEntries(db, db.posts))
  {
    JoinPostsAligned(db, db.posts);
    assert JoinPosts(db, db.posts) == PostEntries(db, db.posts);
  }

  lemma ValidPostsJoinable(db: Db)
    requires Valid(db)
    ensures AllJoinable(db, db.posts)
  {
  }

  /** Under the invariant every post can be joined, so the feed holds exactly
      one entry per post. */
  lemma FeedOnePerPost(db: Db)
    requires Valid(db)
    ensures AllJoinable(db, db.posts)
    ensures |ViewSharedActivities(db)| == |db.posts|
    ensures forall p :: p in db.posts ==> |JoinPost(db, p)| == 1 && JoinPost(db, p)[0] in ViewSharedActivities(db)
    ensures multiset(ViewSharedActivities(db)) == multiset(PostEntries(db, db.posts))
  {
    ValidPostsJoinable(db);
    FeedIsOneEntryPerPost(db);
    FeedLengthAllJoinable(db);
    FeedHoldsJoinablePosts(db);
  }
}
