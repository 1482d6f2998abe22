/** The client-side arithmetic of the profile hooks: count defaulting, the follow
    flag, the pomodoro statistics and the avatar storage path. The backend queries
    are inputs: counts as optional numbers, the session rows as a sequence. */
module Profile {
  import opened Wrappers
  import opened Text

  /** `count || 0`: a missing (or zero) count reads as 0. */
  function CountOrZero(count: Option<nat>): (n: nat)
    ensures count.Some? ==> n == count.value
    ensures count.None? ==> n == 0
  {
    count.GetOr(0)
  }

  datatype ProfileCounts = ProfileCounts(postsCount: nat, followersCount: nat, followingCount: nat)

  /** The three counters of a profile with stats, each defaulted separately. */
  function Counts(posts: Option<nat>, followers: Option<nat>, following: Option<nat>): (c: ProfileCounts)
    ensures c.postsCount == CountOrZero(posts)
    ensures c.followersCount == CountOrZero(followers)
    ensures c.followingCount == CountOrZero(following)
  {
    ProfileCounts(CountOrZero(posts), CountOrZero(followers), CountOrZero(following))
  }

  /** `is_following` on a profile looked up by username: only a signed-in viewer looking at someone else can follow. */
  function IsFollowing(viewer: Option<string>, profileId: string, followRowExists: bool): (b: bool)
    ensures viewer.None? ==> !b
    ensures viewer == Some(profileId) ==> !b
    ensures viewer.Some? && viewer.value != profileId ==> (b <==> followRowExists)
  {
    match viewer
    case None => false
    case Some(uid) => uid != profileId && followRowExists
  }

  datatype Session = Session(durationMinutes: int, completed: bool)

  datatype PomodoroStats = PomodoroStats(totalSessions: nat, totalMinutes: int, totalHours: int)

  /** Whose sessions are counted: the explicit id when it is truthy, else the signed-in user, else nobody. */
  function TargetUser(userId: Option<string>, authUser: Option<string>): (t: Option<string>)
    ensures Truthy(userId) ==> t == userId
    ensures !Truthy(userId) ==> t == authUser
  {
    if Truthy(userId) then userId else authUser
  }

  function CompletedOnly(sessions: seq<Session>): (r: seq<Session>)
    ensures forall s :: s in r <==> s in sessions && s.completed
    ensures |r| <= |sessions|
  {
    if |sessions| == 0 then []
    else (if sessions[0].completed then [sessions[0]] else []) + CompletedOnly(sessions[1..])
  }

  /** The reference sum of `duration_minutes`, element by element from the left. */
  function SumMinutes(sessions: seq<Session>): int
  {
    if |sessions| == 0 then 0 else SumMinutes(sessions[..|sessions| - 1]) + sessions[|sessions| - 1].durationMinutes
  }

  /** `usePomodoroStats` over the rows returned for the target user: only completed sessions count;
      `totalHours` is the floor of the minutes over 60. */
  method Stats(rows: seq<Session>) returns (st: PomodoroStats)
    ensures st.totalSessions == |CompletedOnly(rows)|
    ensures st.totalMinutes == SumMinutes(CompletedOnly(rows))
    ensures st.totalHours * 60 <= st.totalMinutes < st.totalHours * 60 + 60
  {
    var sessions := CompletedOnly(rows);
    var total := 0;
    var i := 0;
    while i < |sessions|
      invariant 0 <= i <= |sessions|
      invariant total == SumMinutes(sessions[..i])
    {
      assert sessions[..i + 1][..i] == sessions[..i];
      total := total + sessions[i].durationMinutes;
      i := i + 1;
    }
    assert sessions[..i] == sessions;
    st := PomodoroStats(|sessions|, total, total / 60);
  }

  /** `file.name.split(".").pop()`. */
  function AvatarExtension(fileName: string): (ext: string)
    ensures '.' !in ext
    ensures '.' !in fileName ==> ext == fileName
  {
    AfterLast(fileName, '.')
  }

  /** Whatever comes before the last dot does not affect the extension. */
  lemma ExtensionAfterLastDot(base: string, ext: string)
    requires '.' !in ext
    ensures AvatarExtension(base + "." + ext) == ext
  {
    var s := base + "." + ext;
    var r := AfterLast(s, '.');
    assert s[|s| - |ext|..] == ext;
    assert s[|s| - |ext| - 1] == '.';
    assert forall k :: |s| - |ext| <= k < |s| ==> s[k] == ext[k - (|s| - |ext|)];
    assert |r| == |ext|;
  }

  /** The object path `<userId>/<userId>-<timestamp>.<ext>` of an uploaded avatar. */
  function AvatarPath(userId: string, now: nat, fileName: string): (path: string)
    ensures StartsWith(path, userId + "/" + userId + "-" + NatToString(now) + ".")
    ensures |path| == |userId + "/" + userId + "-" + NatToString(now) + "."| + |AvatarExtension(fileName)|
  {
    var fileExt := AvatarExtension(fileName);
    var folder := userId + "/";
    var stem := userId + "-" + NatToString(now) + ".";
    assert (folder + stem + fileExt)[..|folder + stem|] == folder + stem;
    folder + stem + fileExt
  }

  /** The path keeps the upload in the user's own folder and keeps the file's extension. */
  lemma AvatarPathParts(userId: string, now: nat, fileName: string)
    ensures AvatarExtension(AvatarPath(userId, now, fileName)) == AvatarExtension(fileName)
    ensures StartsWith(AvatarPath(userId, now, fileName), userId + "/")
  {
    var prefix := userId + "/" + userId + "-" + NatToString(now);
    assert AvatarPath(userId, now, fileName) == prefix + "." + AvatarExtension(fileName);
    ExtensionAfterLastDot(prefix, AvatarExtension(fileName));
  }
}
