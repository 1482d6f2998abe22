/** The full-screen player: its clock display, its choice of playback backend, and
    where it routes seek and volume changes. The two player refs are reduced to
    whether each one is mounted; the commands are what they would receive. */
module ExpandedPlayer {
  import opened Wrappers
  import opened Text
  import opened Tracks
  import MusicPlayerStore

  /** Durations above one day are shown as a live stream. */
  const LiveThreshold := 86400

  /** The expanded player's rule: a YouTube id and no audio URL. */
  predicate IsYouTubeTrack(t: Option<Track>) {
    t.Some? && Truthy(t.value.youtubeId) && !Truthy(t.value.audioUrl)
  }

  /** `formatTime`: "LIVE" above a day, otherwise floored minutes, ':' and the two-digit remainder. */
  function FormatTime(seconds: int): (s: string)
    ensures seconds > LiveThreshold ==> s == "LIVE"
    ensures seconds <= LiveThreshold ==> exists k :: 0 <= k < |s| && s[k] == ':'
  {
    if seconds > LiveThreshold then "LIVE"
    else
      var m := IntToString(seconds / 60);
      var r := m + ":" + Pad2(JsRem(seconds, 60));
      assert r[|m|] == ':';
      r
  }

  /** Up to a day, the display of a non-negative time reads back as that many seconds. */
  lemma FormatTimeReadsBack(seconds: int)
    requires 0 <= seconds <= LiveThreshold
    ensures ParseClock(FormatTime(seconds)) == Some(seconds)
  {
    ParseTwoFields(seconds / 60, seconds % 60);
  }

  /** The seek slider gives way to the LIVE badge exactly when the clock would read "LIVE". */
  predicate ShowsLiveBadge(duration: int) {
    duration > LiveThreshold
  }

  lemma LiveBadgeMatchesClock(duration: int)
    ensures ShowsLiveBadge(duration) <==> FormatTime(duration) == "LIVE"
  {
    if !ShowsLiveBadge(duration) {
      var s := FormatTime(duration);
      var k :| 0 <= k < |s| && s[k] == ':';
      assert forall j :: 0 <= j < |"LIVE"| ==> "LIVE"[j] != ':';
    }
  }

  /** Which player refs are mounted. */
  datatype Refs = Refs(hasYouTube: bool, hasAudio: bool)

  /** A call made on one of the two playback backends. */
  datatype Command =
    | YouTubeSeekTo(at: real)
    | AudioSeek(at: real)
    | YouTubeSetVolume(level: real)
    | AudioSetVolume(level: real)

  /** `handleSeek`: YouTube tracks go to `seekTo`, others to the audio element's `currentTime`. */
  function HandleSeek(t: Option<Track>, at: real, refs: Refs): (c: Option<Command>)
    ensures IsYouTubeTrack(t) ==> (c.Some? <==> refs.hasYouTube) && (c.Some? ==> c.value == YouTubeSeekTo(at))
    ensures !IsYouTubeTrack(t) ==> (c.Some? <==> refs.hasAudio) && (c.Some? ==> c.value == AudioSeek(at))
  {
    if IsYouTubeTrack(t) then (if refs.hasYouTube then Some(YouTubeSeekTo(at)) else None)
    else if refs.hasAudio then Some(AudioSeek(at))
    else None
  }

  /** `handleVolumeChange`: YouTube takes a 0-100 level, the audio element the 0-1 value; the store always keeps the 0-1 value. */
  function HandleVolumeChange(s: MusicPlayerStore.PlayerState, v: real, refs: Refs): (r: (MusicPlayerStore.PlayerState, Option<Command>))
    ensures r.0 == MusicPlayerStore.SetVolume(s, v)
    ensures IsYouTubeTrack(s.currentTrack) ==> (r.1.Some? <==> refs.hasYouTube) && (r.1.Some? ==> r.1.value == YouTubeSetVolume(v * 100.0))
    ensures !IsYouTubeTrack(s.currentTrack) ==> (r.1.Some? <==> refs.hasAudio) && (r.1.Some? ==> r.1.value == AudioSetVolume(v))
  {
    var cmd :=
      if IsYouTubeTrack(s.currentTrack) then (if refs.hasYouTube then Some(YouTubeSetVolume(v * 100.0)) else None)
      else if refs.hasAudio then Some(AudioSetVolume(v))
      else None;
    (MusicPlayerStore.SetVolume(s, v), cmd)
  }

  /** Whether a command goes to the YouTube player rather than the audio element. */
  predicate ToYouTube(c: Command) {
    c.YouTubeSeekTo? || c.YouTubeSetVolume?
  }

  /** Seeking and the volume slider follow one routing rule: for the current track both reach a
      backend or neither does, and both reach the same one. */
  lemma SeekAndVolumeAgree(s: MusicPlayerStore.PlayerState, at: real, v: real, refs: Refs)
    ensures HandleSeek(s.currentTrack, at, refs).Some? == HandleVolumeChange(s, v, refs).1.Some?
    ensures HandleSeek(s.currentTrack, at, refs).Some? ==>
      && ToYouTube(HandleSeek(s.currentTrack, at, refs).value) == ToYouTube(HandleVolumeChange(s, v, refs).1.value)
      && (ToYouTube(HandleSeek(s.currentTrack, at, refs).value) <==> IsYouTubeTrack(s.currentTrack))
  {
  }
}
