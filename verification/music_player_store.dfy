/** The music player store (`useMusicPlayerStore`): current track, queue, transport,
    progress, repeat and shuffle. Each action is a pure transition on `PlayerState`.
    `Math.random()` in `nextTrack` is the parameter `roll`, a real in [0, 1). */
module MusicPlayerStore {
  import opened Wrappers
  import opened Tracks
  import Seqs

  datatype RepeatMode = Off | All | One

  datatype PlayerState = PlayerState(
    currentTrack: Option<Track>,
    queue: seq<Track>,
    isPlaying: bool,
    volume: real,
    progress: int,
    duration: int,
    repeat: RepeatMode,
    shuffle: bool,
    isExpanded: bool)

  /** The store before any action. */
  const Initial := PlayerState(None, [], false, 0.7, 0, 0, Off, false, false)

  /** The slice the persist middleware writes to storage. */
  datatype Persisted = Persisted(volume: real, repeat: RepeatMode, shuffle: bool)

  /** The `partialize` option: only volume, repeat mode and shuffle survive a restart. */
  function Partialize(s: PlayerState): (p: Persisted)
    ensures p.volume == s.volume && p.repeat == s.repeat && p.shuffle == s.shuffle
  {
    Persisted(s.volume, s.repeat, s.shuffle)
  }

  /** Rehydration merges a stored slice over the running state. */
  function Rehydrate(s: PlayerState, p: Persisted): (r: PlayerState)
    ensures Partialize(r) == p
    ensures SamePosition(s, r) && r.queue == s.queue && SameTransport(s, r) && r.isExpanded == s.isExpanded
    ensures p == Partialize(s) ==> r == s
  {
    s.(volume := p.volume, repeat := p.repeat, shuffle := p.shuffle)
  }

  // Frame predicates: groups of fields an action leaves alone.

  predicate SamePosition(a: PlayerState, b: PlayerState) {
    a.currentTrack == b.currentTrack && a.progress == b.progress
  }

  predicate SameTransport(a: PlayerState, b: PlayerState) {
    a.isPlaying == b.isPlaying && a.duration == b.duration
  }

  predicate SamePrefs(a: PlayerState, b: PlayerState) {
    Partialize(a) == Partialize(b) && a.isExpanded == b.isExpanded
  }

  /** Changing the track always restarts it; nothing but track and progress changes. */
  function SetCurrentTrack(s: PlayerState, t: Option<Track>): (r: PlayerState)
    ensures r.currentTrack == t && r.progress == 0
    ensures r.queue == s.queue && SameTransport(s, r) && SamePrefs(s, r)
  {
    s.(currentTrack := t, progress := 0)
  }

  /** Appends at the end: the old queue is a prefix and the new entry follows it. */
  function AddToQueue(s: PlayerState, t: Track): (r: PlayerState)
    ensures |r.queue| == |s.queue| + 1
    ensures r.queue[..|s.queue|] == s.queue && r.queue[|s.queue|] == t
    ensures SamePosition(s, r) && SameTransport(s, r) && SamePrefs(s, r)
  {
    s.(queue := s.queue + [t])
  }

  /** Adding a track that is already queued adds a second copy: no deduplication. */
  lemma AddToQueueAllowsDuplicates(s: PlayerState, t: Track)
    ensures CountId(AddToQueue(s, t).queue, t.id) == CountId(s.queue, t.id) + 1
  {
    CountIdAppend(s.queue, [t], t.id);
    assert [t][1..] == [];
  }

  /** The filter predicate of `removeFromQueue`. */
  function OtherThan(id: string): Track -> bool
  {
    (t: Track) => t.id != id
  }

  /** Removes every entry with the id, keeps the others with their multiplicities. */
  function RemoveFromQueue(s: PlayerState, id: string): (r: PlayerState)
    ensures forall k :: 0 <= k < |r.queue| ==> r.queue[k].id != id
    ensures forall t :: multiset(r.queue)[t] == if t.id == id then 0 else multiset(s.queue)[t]
    ensures (forall k :: 0 <= k < |s.queue| ==> s.queue[k].id != id) ==> r == s
    ensures SamePosition(s, r) && SameTransport(s, r) && SamePrefs(s, r)
  {
    Seqs.FilterMultiset(s.queue, OtherThan(id));
    AbsentIdKeepsQueue(s.queue, id);
    s.(queue := Seqs.Filter(s.queue, OtherThan(id)))
  }

  lemma AbsentIdKeepsQueue(q: seq<Track>, id: string)
    ensures (forall k :: 0 <= k < |q| ==> q[k].id != id) ==> Seqs.Filter(q, OtherThan(id)) == q
  {
    if forall k :: 0 <= k < |q| ==> q[k].id != id {
      Seqs.FilterKeepsAll(q, OtherThan(id));
    }
  }

  /** Removal keeps relative order: it acts on each part of a split queue separately. */
  lemma RemoveFromQueueKeepsOrder(s: PlayerState, a: seq<Track>, b: seq<Track>, id: string)
    requires s.queue == a + b
    ensures RemoveFromQueue(s, id).queue
         == RemoveFromQueue(s.(queue := a), id).queue + RemoveFromQueue(s.(queue := b), id).queue
  {
    Seqs.FilterAppend(a, b, OtherThan(id));
  }

  function ClearQueue(s: PlayerState): (r: PlayerState)
    ensures r.queue == []
    ensures SamePosition(s, r) && SameTransport(s, r) && SamePrefs(s, r)
  {
    s.(queue := [])
  }

  function SetQueue(s: PlayerState, tracks: seq<Track>): (r: PlayerState)
    ensures r.queue == tracks
    ensures SamePosition(s, r) && SameTransport(s, r) && SamePrefs(s, r)
  {
    s.(queue := tracks)
  }

  function Play(s: PlayerState): (r: PlayerState)
    ensures r.isPlaying
    ensures SamePosition(s, r) && r.queue == s.queue && r.duration == s.duration && SamePrefs(s, r)
  {
    s.(isPlaying := true)
  }

  function Pause(s: PlayerState): (r: PlayerState)
    ensures !r.isPlaying
    ensures SamePosition(s, r) && r.queue == s.queue && r.duration == s.duration && SamePrefs(s, r)
  {
    s.(isPlaying := false)
  }

  function Toggle(s: PlayerState): (r: PlayerState)
    ensures r.isPlaying != s.isPlaying
    ensures SamePosition(s, r) && r.queue == s.queue && r.duration == s.duration && SamePrefs(s, r)
  {
    s.(isPlaying := !s.isPlaying)
  }

  /** `toggle` is `pause` while playing and `play` while paused, and undoes itself. */
  lemma ToggleIsPlayOrPause(s: PlayerState)
    ensures Toggle(s) == if s.isPlaying then Pause(s) else Play(s)
    ensures Toggle(Toggle(s)) == s
  {
  }

  function SetVolume(s: PlayerState, v: real): (r: PlayerState)
    ensures r.volume == v && r.repeat == s.repeat && r.shuffle == s.shuffle && r.isExpanded == s.isExpanded
    ensures SamePosition(s, r) && r.queue == s.queue && SameTransport(s, r)
  {
    s.(volume := v)
  }

  function SetProgress(s: PlayerState, p: int): (r: PlayerState)
    ensures r.progress == p && r.currentTrack == s.currentTrack
    ensures r.queue == s.queue && SameTransport(s, r) && SamePrefs(s, r)
  {
    s.(progress := p)
  }

  function SetDuration(s: PlayerState, d: int): (r: PlayerState)
    ensures r.duration == d && r.isPlaying == s.isPlaying
    ensures SamePosition(s, r) && r.queue == s.queue && SamePrefs(s, r)
  {
    s.(duration := d)
  }

  function SetExpanded(s: PlayerState, e: bool): (r: PlayerState)
    ensures r.isExpanded == e && Partialize(r) == Partialize(s)
    ensures SamePosition(s, r) && r.queue == s.queue && SameTransport(s, r)
  {
    s.(isExpanded := e)
  }

  /** Position of the current track in the queue, by id; -1 when there is none or it is not queued. */
  function CurrentIndex(s: PlayerState): (i: int)
    ensures -1 <= i < |s.queue|
    ensures i >= 0 ==> s.currentTrack.Some? && s.queue[i].id == s.currentTrack.value.id
    ensures i == -1 <==> s.currentTrack.None? || forall k :: 0 <= k < |s.queue| ==> s.queue[k].id != s.currentTrack.value.id
  {
    if s.currentTrack.None? then -1 else FindIndex(s.queue, s.currentTrack.value.id)
  }

  /** `Math.floor(Math.random() * n)` for a roll in [0, 1): always a valid index. */
  function ShuffleIndex(roll: real, n: nat): (i: nat)
    requires 0.0 <= roll < 1.0 && n > 0
    ensures i < n
  {
    var x := roll * n as real;
    assert x < n as real by {
      assert (1.0 - roll) * n as real > 0.0;
    }
    x.Floor
  }

  /** Every index is reachable by some roll: shuffle may pick any entry, the current one included. */
  lemma ShuffleIndexReaches(i: nat, n: nat)
    requires i < n
    ensures 0.0 <= i as real / n as real < 1.0
    ensures ShuffleIndex(i as real / n as real, n) == i
  {
    var roll := i as real / n as real;
    assert roll * n as real == i as real;
  }

  /** The index `nextTrack` moves to on a non-empty queue. */
  function NextIndex(s: PlayerState, roll: real): (i: int)
    requires |s.queue| > 0 && 0.0 <= roll < 1.0
    ensures 0 <= i < |s.queue|
  {
    var n := |s.queue|;
    if s.shuffle then ShuffleIndex(roll, n)
    else
      var ci := CurrentIndex(s);
      if ci == n - 1 then (if s.repeat == All then 0 else ci)
      else ci + 1
  }

  /** `nextTrack`: a no-op on an empty queue; otherwise some queued entry becomes current from its start. */
  function NextTrack(s: PlayerState, roll: real): (r: PlayerState)
    requires 0.0 <= roll < 1.0
    ensures |s.queue| == 0 ==> r == s
    ensures |s.queue| > 0 ==> r.currentTrack.Some? && r.currentTrack.value in s.queue && r.progress == 0
    ensures r.queue == s.queue && SameTransport(s, r) && SamePrefs(s, r)
  {
    if |s.queue| == 0 then s
    else s.(currentTrack := Some(s.queue[NextIndex(s, roll)]), progress := 0)
  }

  /** In order, at the last entry with repeat "all", the queue wraps to its first entry. */
  lemma NextTrackWraps(s: PlayerState, roll: real)
    requires 0.0 <= roll < 1.0 && !s.shuffle && |s.queue| > 0
    requires CurrentIndex(s) == |s.queue| - 1 && s.repeat == All
    ensures NextTrack(s, roll).currentTrack == Some(s.queue[0])
  {
  }

  /** In order, at the last entry without repeat "all", the track stays; further calls change nothing. */
  lemma NextTrackStaysAtEnd(s: PlayerState, roll: real, roll': real)
    requires 0.0 <= roll < 1.0 && 0.0 <= roll' < 1.0 && !s.shuffle && |s.queue| > 0
    requires CurrentIndex(s) == |s.queue| - 1 && s.repeat != All
    ensures NextTrack(s, roll).currentTrack == Some(s.queue[|s.queue| - 1])
    ensures NextTrack(NextTrack(s, roll), roll') == NextTrack(s, roll)
  {
    var r := NextTrack(s, roll);
    assert CurrentIndex(r) == CurrentIndex(s);
  }

  /** In order, before the last entry the queue advances by one; no current track (or one not queued) starts at the head. */
  lemma NextTrackAdvances(s: PlayerState, roll: real)
    requires 0.0 <= roll < 1.0 && !s.shuffle && |s.queue| > 0
    requires CurrentIndex(s) != |s.queue| - 1
    ensures NextTrack(s, roll).currentTrack == Some(s.queue[CurrentIndex(s) + 1])
    ensures CurrentIndex(s) == -1 ==> NextTrack(s, roll).currentTrack == Some(s.queue[0])
  {
  }

  /** With shuffle on, every entry of the queue, the current one included, can come next. */
  lemma ShuffleCanPickAny(s: PlayerState, i: nat)
    requires s.shuffle && i < |s.queue|
    ensures 0.0 <= i as real / |s.queue| as real < 1.0
    ensures NextTrack(s, i as real / |s.queue| as real).currentTrack == Some(s.queue[i])
  {
    ShuffleIndexReaches(i, |s.queue|);
  }

  /** Position is found by id, so a track queued twice sends `nextTrack` back to its first copy:
      in [A, B, A] with A current, the walk goes B, A, B, ... and never stays at the end. */
  lemma DuplicateIdCycles(a: Track, b: Track, s: PlayerState, roll: real)
    requires 0.0 <= roll < 1.0 && a.id != b.id
    requires s.queue == [a, b, a] && s.currentTrack == Some(a) && !s.shuffle && s.repeat == Off
    ensures NextTrack(s, roll).currentTrack == Some(b)
    ensures NextTrack(NextTrack(s, roll), roll).currentTrack == Some(a)
    ensures NextTrack(NextTrack(NextTrack(s, roll), roll), roll).currentTrack == Some(b)
  {
    var s1 := NextTrack(s, roll);
    assert CurrentIndex(s) == 0;
    assert CurrentIndex(s1) == 1;
    var s2 := NextTrack(s1, roll);
    assert CurrentIndex(s2) == 0;
  }

  /** `prevTrack`: a no-op on an empty queue; past 3 seconds it only restarts the track;
      otherwise it steps back, wrapping from the head (or from no track) to the last entry. */
  function PrevTrack(s: PlayerState): (r: PlayerState)
    ensures |s.queue| == 0 ==> r == s
    ensures |s.queue| > 0 ==> r.progress == 0
    ensures |s.queue| > 0 && s.progress > 3 ==> r.currentTrack == s.currentTrack
    ensures r.queue == s.queue && SameTransport(s, r) && SamePrefs(s, r)
  {
    var n := |s.queue|;
    if n == 0 then s
    else if s.progress > 3 then s.(progress := 0)
    else
      var ci := if s.currentTrack.None? then 0 else FindIndex(s.queue, s.currentTrack.value.id);
      var pi := if ci == 0 then n - 1 else ci - 1;
      // `queue[-2]` is `undefined` in JavaScript: the current track is lost.
      s.(currentTrack := if 0 <= pi then Some(s.queue[pi]) else None, progress := 0)
  }

  /** Within the first 3 seconds, the head of the queue (or no track at all) wraps to the last entry. */
  lemma PrevTrackWraps(s: PlayerState)
    requires |s.queue| > 0 && s.progress <= 3
    requires s.currentTrack.None? || CurrentIndex(s) == 0
    ensures PrevTrack(s).currentTrack == Some(s.queue[|s.queue| - 1])
  {
  }

  /** Within the first 3 seconds, entry i > 0 steps back to entry i - 1. */
  lemma PrevTrackSteps(s: PlayerState)
    requires |s.queue| > 0 && s.progress <= 3 && CurrentIndex(s) > 0
    ensures PrevTrack(s).currentTrack == Some(s.queue[CurrentIndex(s) - 1])
  {
  }

  /** A current track that is not in the queue makes `prevTrack` read index -2: the track becomes undefined. */
  lemma PrevTrackLosesUnqueuedTrack(s: PlayerState)
    requires |s.queue| > 0 && s.progress <= 3
    requires s.currentTrack.Some? && CurrentIndex(s) == -1
    ensures PrevTrack(s).currentTrack.None?
  {
  }

  /** With distinct ids and shuffle off, `prevTrack` undoes `nextTrack`, wrap-around included. */
  lemma PrevUndoesNext(s: PlayerState, roll: real)
    requires 0.0 <= roll < 1.0 && !s.shuffle && DistinctIds(s.queue)
    requires 0 <= CurrentIndex(s) && (CurrentIndex(s) < |s.queue| - 1 || s.repeat == All)
    ensures PrevTrack(NextTrack(s, roll)).currentTrack == Some(s.queue[CurrentIndex(s)])
  {
    var n := |s.queue|;
    var ci := CurrentIndex(s);
    var i := NextIndex(s, roll);
    assert i == (if ci == n - 1 then 0 else ci + 1);
    var r := NextTrack(s, roll);
    assert r.currentTrack == Some(s.queue[i]) && r.progress == 0 && r.queue == s.queue;
    FindIndexDistinct(s.queue, i);
    assert FindIndex(r.queue, r.currentTrack.value.id) == i;
    assert (if i == 0 then n - 1 else i - 1) == ci;
  }

  /** Repeat mode cycles off, all, one. */
  function ToggleRepeat(s: PlayerState): (r: PlayerState)
    ensures r.repeat != s.repeat
    ensures r.volume == s.volume && r.shuffle == s.shuffle && r.isExpanded == s.isExpanded
    ensures SamePosition(s, r) && r.queue == s.queue && SameTransport(s, r)
  {
    s.(repeat := match s.repeat case Off => All case All => One case One => Off)
  }

  /** Three presses of the repeat button return to the starting mode, visiting all three. */
  lemma ToggleRepeatCycle(s: PlayerState)
    ensures ToggleRepeat(ToggleRepeat(ToggleRepeat(s))) == s
    ensures s.repeat == Off ==> ToggleRepeat(s).repeat == All && ToggleRepeat(ToggleRepeat(s)).repeat == One
  {
  }

  /** Shuffle flips the flag and never reorders the queue. */
  function ToggleShuffle(s: PlayerState): (r: PlayerState)
    ensures r.shuffle != s.shuffle
    ensures r.volume == s.volume && r.repeat == s.repeat && r.isExpanded == s.isExpanded
    ensures SamePosition(s, r) && r.queue == s.queue && SameTransport(s, r)
  {
    s.(shuffle := !s.shuffle)
  }

  lemma ToggleShuffleInvolution(s: PlayerState)
    ensures ToggleShuffle(ToggleShuffle(s)) == s
  {
  }

  /** Three in-order tracks without repeat: two skips reach the last, a third stays there. */
  lemma ThreeTrackWalk(t1: Track, t2: Track, t3: Track, roll: real)
    requires 0.0 <= roll < 1.0 && t1.id != t2.id && t2.id != t3.id && t1.id != t3.id
    ensures var s := Initial.(queue := [t1, t2, t3], currentTrack := Some(t1));
            var s2 := NextTrack(NextTrack(s, roll), roll);
            s2.currentTrack == Some(t3) && NextTrack(s2, roll).currentTrack == Some(t3)
  {
    var s := Initial.(queue := [t1, t2, t3], currentTrack := Some(t1));
    assert CurrentIndex(s) == 0;
    var s1 := NextTrack(s, roll);
    assert CurrentIndex(s1) == 1;
    var s2 := NextTrack(s1, roll);
    assert CurrentIndex(s2) == 2;
  }
}
