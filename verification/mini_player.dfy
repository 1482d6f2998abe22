/** The docked player: its backend rule, clock display, progress percentage, mute
    toggle, and how the audio element's `ended` event and a refused `play()` reach
    the store. The audio element itself is reduced to its current `src`. */
module MiniPlayer {
  import opened Wrappers
  import opened Text
  import opened Tracks
  import MusicPlayerStore
  import ExpandedPlayer
  import Playlists

  /** The mini player's rule: any YouTube id makes a YouTube track. */
  predicate IsYouTubeTrack(t: Option<Track>) {
    t.Some? && Truthy(t.value.youtubeId)
  }

  /** The two players agree except on a track carrying both a YouTube id and an audio URL,
      which the mini player hands to YouTube and the expanded player to the audio element. */
  lemma BackendRulesDisagree(t: Option<Track>)
    ensures ExpandedPlayer.IsYouTubeTrack(t) ==> IsYouTubeTrack(t)
    ensures IsYouTubeTrack(t) != ExpandedPlayer.IsYouTubeTrack(t) <==>
      t.Some? && Truthy(t.value.youtubeId) && Truthy(t.value.audioUrl)
  {
  }

  /** `formatTime`: "LIVE" for no positive length, `H:MM:SS` from one hour on, `M:SS` below. */
  function FormatTime(seconds: int): (s: string)
    ensures seconds <= 0 ==> s == "LIVE"
    ensures seconds > 0 ==> exists k :: 0 <= k < |s| && s[k] == ':'
  {
    if seconds <= 0 then "LIVE"
    else
      var hrs := seconds / 3600;
      var mins := (seconds % 3600) / 60;
      var secs := seconds % 60;
      if hrs > 0 then
        var h := IntToString(hrs);
        var r := h + ":" + Pad2(mins) + ":" + Pad2(secs);
        assert r[|h|] == ':';
        r
      else
        var m := IntToString(mins);
        var r := m + ":" + Pad2(secs);
        assert r[|m|] == ':';
        r
  }

  lemma ClockSplit(seconds: nat)
    ensures (seconds % 3600) / 60 < 60
    ensures seconds % 60 < 60
    ensures seconds == (seconds / 3600) * 3600 + ((seconds % 3600) / 60) * 60 + seconds % 60
  {
    var h := seconds / 3600;
    var rest := seconds % 3600;
    var m := rest / 60;
    assert seconds == h * 3600 + rest;
    assert rest == m * 60 + rest % 60;
    assert seconds == (h * 60 + m) * 60 + rest % 60;
    assert seconds % 60 == rest % 60;
  }

  lemma HoursReadBack(seconds: int)
    requires seconds >= 3600
    ensures ParseClock(FormatTime(seconds)) == Some(seconds)
  {
    var hrs, mins, secs := seconds / 3600, (seconds % 3600) / 60, seconds % 60;
    assert mins < 60 && secs < 60 && seconds == hrs * 3600 + mins * 60 + secs by {
      ClockSplit(seconds);
    }
    assert FormatTime(seconds) == NatToString(hrs) + ":" + Pad2(mins) + ":" + Pad2(secs);
    ParseThreeFields(hrs, mins, secs);
  }

  lemma MinutesReadBack(seconds: int)
    requires 0 < seconds < 3600
    ensures ParseClock(FormatTime(seconds)) == Some(seconds)
  {
    var mins, secs := seconds / 60, seconds % 60;
    assert seconds % 3600 == seconds && seconds / 3600 == 0;
    assert secs < 60 && seconds == mins * 60 + secs;
    assert FormatTime(seconds) == NatToString(mins) + ":" + Pad2(secs);
    ParseTwoFields(mins, secs);
  }

  /** Every positive time reads back from its display, whether or not it shows hours. */
  lemma FormatTimeReadsBack(seconds: int)
    requires seconds > 0
    ensures ParseClock(FormatTime(seconds)) == Some(seconds)
  {
    if seconds >= 3600 {
      HoursReadBack(seconds);
    } else {
      MinutesReadBack(seconds);
    }
  }

  /** The two players write the same clock for a positive time under an hour. */
  lemma ClocksAgreeUnderAnHour(seconds: int)
    requires 0 < seconds < 3600
    ensures FormatTime(seconds) == ExpandedPlayer.FormatTime(seconds)
  {
  }

  /** The filled share of the progress bar; no division when the duration is not positive. */
  function ProgressPercent(progress: int, duration: int): (p: real)
    ensures duration <= 0 ==> p == 0.0
    ensures duration > 0 && 0 <= progress <= duration ==> 0.0 <= p <= 100.0
    ensures duration > 0 ==> p * duration as real == progress as real * 100.0
  {
    if duration > 0 then (progress as real / duration as real) * 100.0 else 0.0
  }

  /** `toggleMute`: a silent player goes to full volume, any other volume to silence, routed like a slider change. */
  function ToggleMute(s: MusicPlayerStore.PlayerState, refs: ExpandedPlayer.Refs): (r: (MusicPlayerStore.PlayerState, Option<ExpandedPlayer.Command>))
    ensures s.volume == 0.0 ==> r.0.volume == 1.0
    ensures s.volume != 0.0 ==> r.0.volume == 0.0
    ensures r.0 == MusicPlayerStore.SetVolume(s, r.0.volume)
    ensures r.1 == HandleVolumeChange(s, r.0.volume, refs).1
  {
    HandleVolumeChange(s, if s.volume == 0.0 then 1.0 else 0.0, refs)
  }

  /** The mini player's own `handleVolumeChange`, which uses its own backend rule. */
  function HandleVolumeChange(s: MusicPlayerStore.PlayerState, v: real, refs: ExpandedPlayer.Refs): (r: (MusicPlayerStore.PlayerState, Option<ExpandedPlayer.Command>))
    ensures r.0 == MusicPlayerStore.SetVolume(s, v)
    ensures IsYouTubeTrack(s.currentTrack) ==> (r.1.Some? <==> refs.hasYouTube) && (r.1.Some? ==> r.1.value == ExpandedPlayer.YouTubeSetVolume(v * 100.0))
    ensures !IsYouTubeTrack(s.currentTrack) ==> (r.1.Some? <==> refs.hasAudio) && (r.1.Some? ==> r.1.value == ExpandedPlayer.AudioSetVolume(v))
  {
    var cmd :=
      if IsYouTubeTrack(s.currentTrack) then (if refs.hasYouTube then Some(ExpandedPlayer.YouTubeSetVolume(v * 100.0)) else None)
      else if refs.hasAudio then Some(ExpandedPlayer.AudioSetVolume(v))
      else None;
    (MusicPlayerStore.SetVolume(s, v), cmd)
  }

  /** Muting twice restores the volume only from silence or from full volume. */
  lemma MuteTwice(s: MusicPlayerStore.PlayerState, refs: ExpandedPlayer.Refs)
    ensures ToggleMute(ToggleMute(s, refs).0, refs).0.volume == (if s.volume == 0.0 then 0.0 else 1.0)
  {
  }

  /** What the play/pause effect does with the audio element: nothing for YouTube tracks or tracks without
      an audio URL; otherwise reload when the source differs, then play or pause. */
  datatype AudioAction = AudioAction(reload: bool, play: bool)

  function AudioEffect(t: Option<Track>, isPlaying: bool, currentSrc: string): (a: Option<AudioAction>)
    ensures a.Some? <==> !IsYouTubeTrack(t) && t.Some? && Truthy(t.value.audioUrl)
    ensures a.Some? ==> a.value.play == isPlaying && (a.value.reload <==> currentSrc != t.value.audioUrl.value)
  {
    if IsYouTubeTrack(t) || t.None? || !Truthy(t.value.audioUrl) then None
    else Some(AudioAction(currentSrc != t.value.audioUrl.value, isPlaying))
  }

  /** A refused `play()` leaves the store paused and changes nothing else. */
  function OnPlayRejected(s: MusicPlayerStore.PlayerState): (r: MusicPlayerStore.PlayerState)
    ensures !r.isPlaying
    ensures r == s.(isPlaying := false)
  {
    MusicPlayerStore.Pause(s)
  }

  /** A refused `play()` right after playing undoes exactly that play. */
  lemma RejectedPlayUndoesPlay(s: MusicPlayerStore.PlayerState)
    ensures OnPlayRejected(MusicPlayerStore.Play(s)) == MusicPlayerStore.Pause(s)
    ensures !s.isPlaying ==> OnPlayRejected(MusicPlayerStore.Play(s)) == s
  {
  }

  /** A playlist track is never a video, so a row with a stored URL always drives the audio element,
      and a row whose URL is null or empty leaves it alone. */
  lemma PlaylistRowsPlayAsAudio(row: Playlists.PlaylistRow, isPlaying: bool, currentSrc: string)
    ensures Truthy(row.trackUrl) ==>
      AudioEffect(Some(Playlists.RowToTrack(row)), isPlaying, currentSrc) == Some(AudioAction(currentSrc != row.trackUrl.value, isPlaying))
    ensures !Truthy(row.trackUrl) ==> AudioEffect(Some(Playlists.RowToTrack(row)), isPlaying, currentSrc).None?
  {
  }

  /** The audio `ended` event: always `nextTrack`, whatever the repeat mode. */
  function OnEnded(s: MusicPlayerStore.PlayerState, roll: real): (r: MusicPlayerStore.PlayerState)
    requires 0.0 <= roll < 1.0
    ensures |s.queue| > 0 ==> r.currentTrack.Some? && r.currentTrack.value in s.queue && r.progress == 0
    ensures |s.queue| == 0 ==> r == s
    ensures r.queue == s.queue && r.repeat == s.repeat && r.isPlaying == s.isPlaying
  {
    MusicPlayerStore.NextTrack(s, roll)
  }

  /** Repeat "one" does not replay: a track that ends before the last entry of a queue without repeated ids
      gives way to the next entry. */
  lemma EndedIgnoresRepeatOne(s: MusicPlayerStore.PlayerState, roll: real)
    requires 0.0 <= roll < 1.0 && s.repeat == MusicPlayerStore.One && !s.shuffle && DistinctIds(s.queue)
    requires 0 <= MusicPlayerStore.CurrentIndex(s) < |s.queue| - 1
    ensures OnEnded(s, roll).currentTrack.Some?
    ensures OnEnded(s, roll).currentTrack.value.id != s.currentTrack.value.id
  {
    MusicPlayerStore.NextTrackAdvances(s, roll);
  }
}
