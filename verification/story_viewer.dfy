/** The story viewer's navigation state: the current index, the progress of the
    current bar, the pause flag and the reply draft. The parent's callbacks are
    returned as a list of calls, in the order they are made. */
module StoryViewer {
  import opened Text

  /** 5000 ms per story, ticked every 100 ms: 100 / (5000 / 100) per tick. */
  const StoryDuration := 5000
  const TickStep := 100 / (StoryDuration / 100)

  datatype Viewer = Viewer(index: int, progress: int, isPaused: bool, reply: string)

  datatype Call = NextUser | PrevUser | Close | Reply(storyId: string, message: string)

  function Open(initialIndex: int): (v: Viewer)
    ensures v.index == initialIndex && v.progress == 0 && !v.isPaused && v.reply == ""
  {
    Viewer(initialIndex, 0, false, "")
  }

  /** The index points at one of the `count` stories. */
  predicate InRange(v: Viewer, count: nat) {
    0 <= v.index < count
  }

  /** `goToNext`. At the last story `onNextUser?.()` yields `undefined`, so `onClose` runs after it in every case. */
  function GoToNext(v: Viewer, count: nat, hasNextUser: bool): (r: (Viewer, seq<Call>))
    ensures v.index < count - 1 ==> r.0 == v.(index := v.index + 1, progress := 0) && r.1 == []
    ensures v.index >= count - 1 ==> r.0 == v
    ensures v.index >= count - 1 ==> |r.1| >= 1 && r.1[|r.1| - 1] == Close
    ensures v.index >= count - 1 ==> (NextUser in r.1 <==> hasNextUser)
  {
    if v.index < count - 1 then (v.(index := v.index + 1, progress := 0), [])
    else if hasNextUser then (v, [NextUser, Close])
    else (v, [Close])
  }

  /** `goToPrev`. At the first story the index stays and `onPrevUser` is called if there is one. */
  function GoToPrev(v: Viewer, hasPrevUser: bool): (r: (Viewer, seq<Call>))
    ensures v.index > 0 ==> r.0 == v.(index := v.index - 1, progress := 0) && r.1 == []
    ensures v.index <= 0 ==> r.0 == v && (r.1 == [PrevUser] <==> hasPrevUser) && (r.1 == [] <==> !hasPrevUser)
  {
    if v.index > 0 then (v.(index := v.index - 1, progress := 0), [])
    else if hasPrevUser then (v, [PrevUser])
    else (v, [])
  }

  /** One interval step: paused does nothing; otherwise progress grows by the tick step, and reaching 100
      moves on and starts the bar from 0. */
  function Tick(v: Viewer, count: nat, hasNextUser: bool): (r: (Viewer, seq<Call>))
    ensures v.isPaused ==> r == (v, [])
    ensures !v.isPaused && v.progress + TickStep < 100 ==> r == (v.(progress := v.progress + TickStep), [])
    ensures !v.isPaused && v.progress + TickStep >= 100 ==>
      r.0 == GoToNext(v, count, hasNextUser).0.(progress := 0) && r.1 == GoToNext(v, count, hasNextUser).1
  {
    if v.isPaused then (v, [])
    else
      var np := v.progress + TickStep;
      if np >= 100 then
        var (n, calls) := GoToNext(v, count, hasNextUser);
        (n.(progress := 0), calls)
      else (v.(progress := np), [])
  }

  function SetPaused(v: Viewer, paused: bool): (r: Viewer)
    ensures r.isPaused == paused && r.index == v.index && r.progress == v.progress && r.reply == v.reply
  {
    v.(isPaused := paused)
  }

  /** Every transition keeps an in-range index in range. */
  lemma NavigationKeepsIndexInRange(v: Viewer, count: nat, hasPrev: bool, hasNext: bool)
    requires InRange(v, count)
    ensures InRange(GoToNext(v, count, hasNext).0, count)
    ensures InRange(GoToPrev(v, hasPrev).0, count)
    ensures InRange(Tick(v, count, hasNext).0, count)
  {
  }

  /** `k` unpaused ticks, ignoring the calls made. */
  function TickN(v: Viewer, count: nat, hasNext: bool, k: nat): Viewer
    decreases k
  {
    if k == 0 then v else TickN(Tick(v, count, hasNext).0, count, hasNext, k - 1)
  }

  lemma {:induction false} TicksFill(v: Viewer, count: nat, hasNext: bool, k: nat)
    requires !v.isPaused && v.progress == 0 && k < 50
    ensures TickN(v, count, hasNext, k) == v.(progress := 2 * k)
    decreases k
  {
    if k > 0 {
      TicksFill(v, count, hasNext, k - 1);
      TickNSplit(v, count, hasNext, k - 1);
      var w := v.(progress := 2 * (k - 1));
      assert w.progress + TickStep < 100;
      assert Tick(w, count, hasNext).0 == v.(progress := 2 * k);
    }
  }

  lemma {:induction false} TickNSplit(v: Viewer, count: nat, hasNext: bool, k: nat)
    ensures TickN(v, count, hasNext, k + 1) == Tick(TickN(v, count, hasNext, k), count, hasNext).0
    decreases k
  {
    if k > 0 {
      TickNSplit(Tick(v, count, hasNext).0, count, hasNext, k - 1);
    }
  }

  /** An unpaused story shows for exactly 50 ticks: after 49 the bar is at 98, the 50th moves to the next story. */
  lemma FiftyTicksPerStory(v: Viewer, count: nat, hasNext: bool)
    requires !v.isPaused && v.progress == 0 && v.index < count - 1
    ensures TickN(v, count, hasNext, 49) == v.(progress := 98)
    ensures TickN(v, count, hasNext, 50) == v.(index := v.index + 1, progress := 0)
  {
    TicksFill(v, count, hasNext, 49);
    TickNSplit(v, count, hasNext, 49);
  }

  /** The width of bar `i` in percent. */
  function BarWidth(i: int, v: Viewer): (w: int)
    ensures i < v.index ==> w == 100
    ensures i == v.index ==> w == v.progress
    ensures i > v.index ==> w == 0
  {
    if i < v.index then 100 else if i == v.index then v.progress else 0
  }

  /** With the progress in [0, 100], the bars never grow from left to right. */
  lemma BarsDescend(v: Viewer, i: int, j: int)
    requires 0 <= v.progress <= 100 && i <= j
    ensures BarWidth(i, v) >= BarWidth(j, v)
  {
  }

  /** `handleReply`: a draft that is non-empty after trimming is sent as typed and cleared; otherwise nothing happens. */
  function HandleReply(v: Viewer, storyIds: seq<string>, hasOnReply: bool): (r: (Viewer, seq<Call>))
    requires InRange(v, |storyIds|)
    ensures Trim(v.reply) == "" ==> r == (v, [])
    ensures Trim(v.reply) != "" ==> r.0 == v.(reply := "")
    ensures Trim(v.reply) != "" && hasOnReply ==> r.1 == [Reply(storyIds[v.index], v.reply)]
    ensures !hasOnReply ==> r.1 == []
  {
    if Trim(v.reply) != "" then
      (v.(reply := ""), if hasOnReply then [Reply(storyIds[v.index], v.reply)] else [])
    else (v, [])
  }

  /** A reply is sent exactly when the draft holds a character that is not whitespace. */
  lemma ReplySentIff(v: Viewer, storyIds: seq<string>)
    requires InRange(v, |storyIds|)
    ensures HandleReply(v, storyIds, true).1 != [] <==> exists i :: 0 <= i < |v.reply| && !IsSpace(v.reply[i])
  {
    TrimEmptyIff(v.reply);
  }
}
