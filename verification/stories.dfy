/** The grouping step of `useStories`: fetched stories (newest first) are bucketed per
    author in a JavaScript `Map`, which keeps keys in insertion order; each story is
    marked viewed or not, each bucket records whether it holds an unviewed story, and
    the signed-in user's own bucket is split off. The query itself is an input. */
module Stories {
  import opened Wrappers
  import Seqs

  datatype Profile = Profile(id: string, username: string)

  /** A `stories` row joined with its author's profile. */
  datatype StoryRow = StoryRow(id: string, userId: string, author: Profile, mediaUrl: string)

  datatype ViewedStory = ViewedStory(story: StoryRow, isViewed: bool)

  /** One `Map` entry: its key (the author's id) and its `UserStories` value. */
  datatype UserStories = UserStories(key: string, user: Profile, stories: seq<ViewedStory>, hasUnviewed: bool)

  datatype StoriesResult = StoriesResult(stories: seq<UserStories>, currentUserStories: Option<UserStories>)

  function Mark(s: StoryRow, viewed: set<string>): (v: ViewedStory)
    ensures v.story == s && (v.isViewed <==> s.id in viewed)
  {
    ViewedStory(s, s.id in viewed)
  }

  predicate AnyUnviewed(ss: seq<ViewedStory>) {
    exists k :: 0 <= k < |ss| && !ss[k].isViewed
  }

  /** `userStoriesMap.has(userId)` as a position: the entry with that key, or -1. */
  function IndexOfUser(groups: seq<UserStories>, uid: string): (j: int)
    ensures -1 <= j < |groups|
    ensures j == -1 <==> forall k :: 0 <= k < |groups| ==> groups[k].key != uid
    ensures j >= 0 ==> groups[j].key == uid && forall k :: 0 <= k < j ==> groups[k].key != uid
  {
    if |groups| == 0 then -1
    else if groups[0].key == uid then 0
    else
      var j := IndexOfUser(groups[1..], uid);
      if j == -1 then -1 else j + 1
  }

  /** One iteration of the grouping loop. */
  function AddStory(groups: seq<UserStories>, s: StoryRow, viewed: set<string>): seq<UserStories>
  {
    var m := Mark(s, viewed);
    var j := IndexOfUser(groups, s.userId);
    if j == -1 then groups + [UserStories(s.userId, s.author, [m], !m.isViewed)]
    else groups[j := groups[j].(stories := groups[j].stories + [m], hasUnviewed := groups[j].hasUnviewed || !m.isViewed)]
  }

  /** The map's entries after the loop has consumed `rows`. */
  function Buckets(rows: seq<StoryRow>, viewed: set<string>): seq<UserStories>
  {
    if |rows| == 0 then [] else AddStory(Buckets(rows[..|rows| - 1], viewed), rows[|rows| - 1], viewed)
  }

  // Reference definitions, one author at a time.

  /** Authors in order of first appearance. */
  function Users(rows: seq<StoryRow>): seq<string>
  {
    if |rows| == 0 then []
    else
      var u := Users(rows[..|rows| - 1]);
      if rows[|rows| - 1].userId in u then u else u + [rows[|rows| - 1].userId]
  }

  /** The stories of author `uid`, marked, in fetch order. */
  function StoriesOf(rows: seq<StoryRow>, uid: string, viewed: set<string>): seq<ViewedStory>
  {
    if |rows| == 0 then []
    else
      var last := rows[|rows| - 1];
      StoriesOf(rows[..|rows| - 1], uid, viewed) + (if last.userId == uid then [Mark(last, viewed)] else [])
  }

  /** The profile joined to the author's first story. */
  function FirstAuthor(rows: seq<StoryRow>, uid: string): Option<Profile>
  {
    if |rows| == 0 then None
    else
      var f := FirstAuthor(rows[..|rows| - 1], uid);
      var last := rows[|rows| - 1];
      if f.Some? then f else if last.userId == uid then Some(last.author) else None
  }

  predicate DistinctKeys(us: seq<string>) {
    forall i, j :: 0 <= i < j < |us| ==> us[i] != us[j]
  }

  /** No author is listed twice. */
  lemma {:induction false} UsersDistinct(rows: seq<StoryRow>)
    ensures DistinctKeys(Users(rows))
    decreases |rows|
  {
    if |rows| > 0 {
      UsersDistinct(rows[..|rows| - 1]);
    }
  }

  /** An author is listed iff some row is theirs. */
  lemma {:induction false} UsersMember(rows: seq<StoryRow>, uid: string)
    ensures uid in Users(rows) <==> exists i :: 0 <= i < |rows| && rows[i].userId == uid
    decreases |rows|
  {
    if |rows| > 0 {
      var init := rows[..|rows| - 1];
      UsersMember(init, uid);
      if uid in Users(rows) && uid != rows[|rows| - 1].userId {
        var i :| 0 <= i < |init| && init[i].userId == uid;
        assert rows[i] == init[i];
      }
      if exists i :: 0 <= i < |rows| && rows[i].userId == uid {
        var i :| 0 <= i < |rows| && rows[i].userId == uid;
        if i < |init| {
          assert init[i] == rows[i];
        }
      }
    }
  }

  /** An author without rows owns no stories and has no profile. */
  lemma {:induction false} Unlisted(rows: seq<StoryRow>, uid: string, viewed: set<string>)
    requires uid !in Users(rows)
    ensures FirstAuthor(rows, uid).None? && StoriesOf(rows, uid, viewed) == []
    decreases |rows|
  {
    if |rows| > 0 {
      Unlisted(rows[..|rows| - 1], uid, viewed);
    }
  }

  lemma AnyUnviewedAppend(prior: seq<ViewedStory>, m: ViewedStory)
    ensures AnyUnviewed(prior + [m]) == (AnyUnviewed(prior) || !m.isViewed)
  {
    var ss := prior + [m];
    if AnyUnviewed(prior) {
      var w :| 0 <= w < |prior| && !prior[w].isViewed;
      assert !ss[w].isViewed;
    }
    if !m.isViewed {
      assert !ss[|prior|].isViewed;
    }
    if AnyUnviewed(ss) {
      var w :| 0 <= w < |ss| && !ss[w].isViewed;
      if w < |prior| {
        assert ss[w] == prior[w];
      }
    }
  }

  /** One bucket agrees with the reference definitions for its key. */
  ghost predicate EntryOk(rows: seq<StoryRow>, viewed: set<string>, g: UserStories) {
    && g.stories == StoriesOf(rows, g.key, viewed)
    && g.hasUnviewed == AnyUnviewed(g.stories)
    && Some(g.user) == FirstAuthor(rows, g.key)
  }

  /** What the bucket list after the loop is, author by author. */
  ghost predicate GroupsSpec(rows: seq<StoryRow>, viewed: set<string>, groups: seq<UserStories>) {
    && |groups| == |Users(rows)|
    && (forall j :: 0 <= j < |groups| ==> groups[j].key == Users(rows)[j])
    && (forall j :: 0 <= j < |groups| ==> EntryOk(rows, viewed, groups[j]))
  }

  /** A row by another author leaves a bucket correct. */
  lemma EntryUnaffected(rows: seq<StoryRow>, viewed: set<string>, g: UserStories)
    requires |rows| > 0 && g.key != rows[|rows| - 1].userId
    requires EntryOk(rows[..|rows| - 1], viewed, g)
    ensures EntryOk(rows, viewed, g)
  {
  }

  /** A row by the bucket's author is appended to it. */
  lemma EntryExtended(rows: seq<StoryRow>, viewed: set<string>, g: UserStories)
    requires |rows| > 0 && g.key == rows[|rows| - 1].userId
    requires EntryOk(rows[..|rows| - 1], viewed, g)
    ensures var m := Mark(rows[|rows| - 1], viewed);
      EntryOk(rows, viewed, g.(stories := g.stories + [m], hasUnviewed := g.hasUnviewed || !m.isViewed))
  {
    AnyUnviewedAppend(g.stories, Mark(rows[|rows| - 1], viewed));
  }

  /** The first row of an author opens a bucket holding just that row. */
  lemma EntryNew(rows: seq<StoryRow>, viewed: set<string>)
    requires |rows| > 0 && rows[|rows| - 1].userId !in Users(rows[..|rows| - 1])
    ensures var s := rows[|rows| - 1];
      var m := Mark(s, viewed);
      EntryOk(rows, viewed, UserStories(s.userId, s.author, [m], !m.isViewed))
  {
    var s := rows[|rows| - 1];
    var m := Mark(s, viewed);
    Unlisted(rows[..|rows| - 1], s.userId, viewed);
    AnyUnviewedAppend([], m);
    assert [] + [m] == [m];
  }

  /** A story by an author not yet seen opens a new bucket at the end. */
  lemma StepNewAuthor(rows: seq<StoryRow>, viewed: set<string>, groups: seq<UserStories>)
    requires |rows| > 0
    requires GroupsSpec(rows[..|rows| - 1], viewed, groups)
    requires IndexOfUser(groups, rows[|rows| - 1].userId) == -1
    ensures GroupsSpec(rows, viewed, AddStory(groups, rows[|rows| - 1], viewed))
  {
    var init := rows[..|rows| - 1];
    var s := rows[|rows| - 1];
    var m := Mark(s, viewed);
    assert s.userId !in Users(init);
    var g' := AddStory(groups, s, viewed);
    assert g' == groups + [UserStories(s.userId, s.author, [m], !m.isViewed)];
    assert Users(rows) == Users(init) + [s.userId];
    EntryNew(rows, viewed);
    forall k | 0 <= k < |groups| ensures EntryOk(rows, viewed, g'[k]) {
      EntryUnaffected(rows, viewed, groups[k]);
    }
  }

  /** A story by an author already seen is appended to that author's bucket. */
  lemma StepKnownAuthor(rows: seq<StoryRow>, viewed: set<string>, groups: seq<UserStories>)
    requires |rows| > 0
    requires GroupsSpec(rows[..|rows| - 1], viewed, groups)
    requires IndexOfUser(groups, rows[|rows| - 1].userId) >= 0
    ensures GroupsSpec(rows, viewed, AddStory(groups, rows[|rows| - 1], viewed))
  {
    var init := rows[..|rows| - 1];
    var s := rows[|rows| - 1];
    var j := IndexOfUser(groups, s.userId);
    assert s.userId in Users(init) by {
      assert Users(init)[j] == s.userId;
    }
    assert Users(rows) == Users(init);
    UsersDistinct(init);
    var g' := AddStory(groups, s, viewed);
    EntryExtended(rows, viewed, groups[j]);
    forall k | 0 <= k < |groups| && k != j ensures EntryOk(rows, viewed, g'[k]) {
      assert Users(init)[k] != Users(init)[j];
      EntryUnaffected(rows, viewed, groups[k]);
    }
  }

  /** One loop iteration turns the specification for a prefix into that for the longer prefix. */
  lemma AddStoryStep(rows: seq<StoryRow>, viewed: set<string>, groups: seq<UserStories>)
    requires |rows| > 0
    requires GroupsSpec(rows[..|rows| - 1], viewed, groups)
    ensures GroupsSpec(rows, viewed, AddStory(groups, rows[|rows| - 1], viewed))
  {
    if IndexOfUser(groups, rows[|rows| - 1].userId) == -1 {
      StepNewAuthor(rows, viewed, groups);
    } else {
      StepKnownAuthor(rows, viewed, groups);
    }
  }

  lemma {:induction false} BucketsMeetSpec(rows: seq<StoryRow>, viewed: set<string>)
    ensures GroupsSpec(rows, viewed, Buckets(rows, viewed))
    decreases |rows|
  {
    if |rows| > 0 {
      BucketsMeetSpec(rows[..|rows| - 1], viewed);
      AddStoryStep(rows, viewed, Buckets(rows[..|rows| - 1], viewed));
    }
  }

  /** A row is among the stories of its author. */
  lemma {:induction false} RowInItsGroup(rows: seq<StoryRow>, viewed: set<string>, i: int)
    requires 0 <= i < |rows|
    ensures Mark(rows[i], viewed) in StoriesOf(rows, rows[i].userId, viewed)
    decreases |rows|
  {
    if i < |rows| - 1 {
      RowInItsGroup(rows[..|rows| - 1], viewed, i);
    }
  }

  /** The grouping loop of the query function. */
  method GroupStories(rows: seq<StoryRow>, viewed: set<string>) returns (groups: seq<UserStories>)
    ensures |groups| == |Users(rows)| && DistinctKeys(Users(rows))
    ensures forall j :: 0 <= j < |groups| ==> groups[j].key == Users(rows)[j]
    ensures forall j :: 0 <= j < |groups| ==> groups[j].stories == StoriesOf(rows, groups[j].key, viewed)
    ensures forall j :: 0 <= j < |groups| ==> (groups[j].hasUnviewed <==> AnyUnviewed(groups[j].stories))
    ensures forall j :: 0 <= j < |groups| ==> Some(groups[j].user) == FirstAuthor(rows, groups[j].key)
    ensures forall i :: 0 <= i < |rows| ==> rows[i].userId in Users(rows)
  {
    groups := [];
    var i := 0;
    while i < |rows|
      invariant 0 <= i <= |rows|
      invariant GroupsSpec(rows[..i], viewed, groups)
    {
      assert rows[..i + 1][..i] == rows[..i];
      AddStoryStep(rows[..i + 1], viewed, groups);
      groups := AddStory(groups, rows[i], viewed);
      i := i + 1;
    }
    assert rows[..|rows|] == rows;
    UsersDistinct(rows);
    forall i | 0 <= i < |rows| ensures rows[i].userId in Users(rows) {
      UsersMember(rows, rows[i].userId);
    }
  }

  /** The keys of a bucket list, in order. */
  function Keys(groups: seq<UserStories>): (ks: seq<string>)
    ensures |ks| == |groups| && forall k :: 0 <= k < |groups| ==> ks[k] == groups[k].key
  {
    seq(|groups|, k requires 0 <= k < |groups| => groups[k].key)
  }

  function NotUser(uid: string): string -> bool
  {
    (k: string) => k != uid
  }

  /** Splits off the signed-in user's bucket, keeping the others in map order. */
  function SplitCurrent(groups: seq<UserStories>, uid: string): (r: StoriesResult)
    ensures IndexOfUser(groups, uid) == -1 ==> r == StoriesResult(groups, None)
    ensures IndexOfUser(groups, uid) >= 0 ==>
      var j := IndexOfUser(groups, uid);
      r.currentUserStories == Some(groups[j]) && r.stories == groups[..j] + groups[j + 1..]
    ensures forall g :: g in r.stories ==> g in groups
  {
    var j := IndexOfUser(groups, uid);
    if j == -1 then StoriesResult(groups, None) else StoriesResult(groups[..j] + groups[j + 1..], Some(groups[j]))
  }

  /** When the user has a bucket, the split hands it out and keeps every other bucket. */
  lemma SplitPresent(groups: seq<UserStories>, us: seq<string>, uid: string)
    requires |groups| == |us| && DistinctKeys(us)
    requires forall j :: 0 <= j < |groups| ==> groups[j].key == us[j]
    requires IndexOfUser(groups, uid) >= 0
    ensures var r := SplitCurrent(groups, uid);
            && r.currentUserStories.Some? && r.currentUserStories.value.key == uid && uid in us
            && (forall k :: 0 <= k < |r.stories| ==> r.stories[k].key != uid)
            && |r.stories| + 1 == |us|
  {
    var r := SplitCurrent(groups, uid);
    var j := IndexOfUser(groups, uid);
    assert us[j] == uid;
    forall k | 0 <= k < |r.stories| ensures r.stories[k].key != uid {
      if k < j {
        assert r.stories[k] == groups[k];
      } else {
        assert r.stories[k] == groups[k + 1];
        assert us[k + 1] != us[j];
      }
    }
  }

  /** Buckets keyed position by position by a key list have that list as their keys. */
  lemma KeysMatch(groups: seq<UserStories>, us: seq<string>)
    requires |groups| == |us|
    requires forall j :: 0 <= j < |groups| ==> groups[j].key == us[j]
    ensures Keys(groups) == us
  {
  }

  /** Dropping one bucket drops its key. */
  lemma KeysWithout(groups: seq<UserStories>, j: int)
    requires 0 <= j < |groups|
    ensures Keys(groups[..j] + groups[j + 1..]) == Keys(groups)[..j] + Keys(groups)[j + 1..]
  {
    var rest := groups[..j] + groups[j + 1..];
    var ks := Keys(groups)[..j] + Keys(groups)[j + 1..];
    forall k | 0 <= k < |rest| ensures Keys(rest)[k] == ks[k] {
      if k < j {
        assert rest[k] == groups[k];
      } else {
        assert rest[k] == groups[k + 1];
      }
    }
  }

  /** The user's bucket sits between buckets of other authors, so removing it filters the key list. */
  lemma SplitKeysPresent(groups: seq<UserStories>, us: seq<string>, uid: string, j: int)
    requires |groups| == |us| && DistinctKeys(us)
    requires forall k :: 0 <= k < |groups| ==> groups[k].key == us[k]
    requires 0 <= j < |us| && us[j] == uid && forall k :: 0 <= k < j ==> us[k] != uid
    ensures Keys(groups[..j] + groups[j + 1..]) == Seqs.Filter(us, NotUser(uid))
  {
    var keep := NotUser(uid);
    var front, back := us[..j], us[j + 1..];
    assert us == front + [uid] + back;
    assert forall k :: 0 <= k < |front| ==> keep(front[k]);
    forall k | 0 <= k < |back| ensures keep(back[k]) {
      assert us[j + 1 + k] != us[j];
    }
    Seqs.FilterDropsOne(front, uid, back, keep);
    KeysMatch(groups, us);
    KeysWithout(groups, j);
  }

  /** The buckets left after the split are the other authors, in the order of the key list. */
  lemma SplitKeys(groups: seq<UserStories>, us: seq<string>, uid: string)
    requires |groups| == |us| && DistinctKeys(us)
    requires forall j :: 0 <= j < |groups| ==> groups[j].key == us[j]
    ensures Keys(SplitCurrent(groups, uid).stories) == Seqs.Filter(us, NotUser(uid))
  {
    if IndexOfUser(groups, uid) == -1 {
      SplitAbsent(groups, us, uid);
      Seqs.FilterKeepsAll(us, NotUser(uid));
      KeysMatch(groups, us);
    } else {
      var j := IndexOfUser(groups, uid);
      assert forall k :: 0 <= k < j ==> us[k] != uid by {
        assert forall k :: 0 <= k < j ==> groups[k].key != uid;
      }
      SplitKeysPresent(groups, us, uid, j);
    }
  }

  /** When the user has no bucket, the split returns the buckets unchanged. */
  lemma SplitAbsent(groups: seq<UserStories>, us: seq<string>, uid: string)
    requires |groups| == |us|
    requires forall j :: 0 <= j < |groups| ==> groups[j].key == us[j]
    requires IndexOfUser(groups, uid) == -1
    ensures uid !in us
  {
    forall k | 0 <= k < |us| ensures us[k] != uid {
      assert groups[k].key == us[k];
    }
  }

  /** With distinct keys, the split finds the user's bucket exactly when it exists and leaves none behind. */
  lemma SplitCurrentSpec(groups: seq<UserStories>, us: seq<string>, uid: string)
    requires |groups| == |us| && DistinctKeys(us)
    requires forall j :: 0 <= j < |groups| ==> groups[j].key == us[j]
    ensures var r := SplitCurrent(groups, uid);
            && (r.currentUserStories.Some? <==> uid in us)
            && (r.currentUserStories.Some? ==> r.currentUserStories.value.key == uid)
            && (forall k :: 0 <= k < |r.stories| ==> r.stories[k].key != uid)
            && |r.stories| + (if r.currentUserStories.Some? then 1 else 0) == |us|
  {
    if IndexOfUser(groups, uid) >= 0 {
      SplitPresent(groups, us, uid);
    } else {
      SplitAbsent(groups, us, uid);
    }
  }

  /** The query function's result: nothing when signed out; otherwise the buckets with the
      user's own one separated (present exactly when they posted a story) and the other authors
      listed in order of their newest story, each bucket holding exactly its author's stories,
      their unviewed flag and the profile joined to them. */
  method FetchStories(user: Option<string>, rows: seq<StoryRow>, viewed: set<string>) returns (r: StoriesResult)
    ensures user.None? ==> r == StoriesResult([], None)
    ensures user.Some? ==> (r.currentUserStories.Some? <==> user.value in Users(rows))
    ensures user.Some? && r.currentUserStories.Some? ==>
      r.currentUserStories.value.key == user.value
      && r.currentUserStories.value.stories == StoriesOf(rows, user.value, viewed)
      && (r.currentUserStories.value.hasUnviewed <==> AnyUnviewed(r.currentUserStories.value.stories))
      && Some(r.currentUserStories.value.user) == FirstAuthor(rows, user.value)
    ensures user.Some? ==> forall j :: 0 <= j < |r.stories| ==> r.stories[j].key != user.value
    ensures user.Some? ==> |r.stories| + (if r.currentUserStories.Some? then 1 else 0) == |Users(rows)|
    ensures user.Some? ==> Keys(r.stories) == Seqs.Filter(Users(rows), NotUser(user.value))
    ensures forall j :: 0 <= j < |r.stories| ==>
      && r.stories[j].stories == StoriesOf(rows, r.stories[j].key, viewed)
      && (r.stories[j].hasUnviewed <==> AnyUnviewed(r.stories[j].stories))
      && Some(r.stories[j].user) == FirstAuthor(rows, r.stories[j].key)
  {
    if user.None? {
      return StoriesResult([], None);
    }
    var groups := GroupStories(rows, viewed);
    r := SplitCurrent(groups, user.value);
    SplitCurrentSpec(groups, Users(rows), user.value);
    SplitKeys(groups, Users(rows), user.value);
    forall j | 0 <= j < |r.stories|
      ensures && r.stories[j].stories == StoriesOf(rows, r.stories[j].key, viewed)
              && (r.stories[j].hasUnviewed <==> AnyUnviewed(r.stories[j].stories))
              && Some(r.stories[j].user) == FirstAuthor(rows, r.stories[j].key)
    {
      assert r.stories[j] in groups;
      var k :| 0 <= k < |groups| && groups[k] == r.stories[j];
    }
  }
}
