/** The video search panel: the empty-query guard, the outcome of a search
    request, and turning a chosen video into a playing track. The HTTP request is
    reduced to its outcome and `Date.now()` is a parameter. */
module YouTubeSearch {
  import opened Wrappers
  import opened Text
  import opened Tracks
  import MusicPlayerStore
  import MiniPlayer
  import ExpandedPlayer

  datatype Video = Video(id: string, title: string, channel: string, thumbnail: string, publishedAt: string)

  datatype Panel = Panel(query: string, results: seq<Video>, isSearching: bool, error: Option<string>, hasSearched: bool)

  /** What the search request came back with: a 2xx body, a non-2xx body, or an exception. */
  datatype Outcome =
    | Ok(videos: Option<seq<Video>>)
    | NotOk(error: Option<string>)
    | Threw

  const SearchFailed := "Search failed"
  const TryAgain := "Failed to search. Please try again."

  /** `handleSearch` once settled. A query that trims to nothing does nothing; otherwise the search is marked done,
      results come from a good body (missing list as empty), and any failure clears them and sets a message. */
  function HandleSearch(p: Panel, outcome: Outcome): (r: Panel)
    ensures Trim(p.query) == "" ==> r == p
    ensures Trim(p.query) != "" ==> !r.isSearching && r.hasSearched && r.query == p.query
    ensures Trim(p.query) != "" && outcome.Ok? ==> r.error.None? && r.results == outcome.videos.GetOr([])
    ensures Trim(p.query) != "" && !outcome.Ok? ==> r.error.Some? && r.results == []
    ensures Trim(p.query) != "" && outcome.NotOk? ==>
      r.error == Some(if Truthy(outcome.error) then outcome.error.value else SearchFailed)
    ensures Trim(p.query) != "" && outcome.Threw? ==> r.error == Some(TryAgain)
  {
    if Trim(p.query) == "" then p
    else
      var started := p.(isSearching := true, error := None, hasSearched := true);
      var settled :=
        match outcome
        case Ok(videos) => started.(results := videos.GetOr([]))
        case NotOk(e) => started.(error := Some(if Truthy(e) then e.value else SearchFailed), results := [])
        case Threw => started.(error := Some(TryAgain), results := []);
      settled.(isSearching := false)
  }

  /** A query of spaces alone leaves the panel as it was, whatever the network would have said. */
  lemma BlankQueryIsIgnored(p: Panel, o1: Outcome, o2: Outcome)
    requires forall i :: 0 <= i < |p.query| ==> IsSpace(p.query[i])
    ensures HandleSearch(p, o1) == p && HandleSearch(p, o2) == p
  {
    TrimEmptyIff(p.query);
  }

  /** The track built for a chosen video: a fresh id from the clock, a YouTube id, no audio and a live-style 0 duration. */
  function VideoTrack(v: Video, now: nat): (t: Track)
    ensures t.id == "yt-" + v.id + "-" + NatToString(now)
    ensures t.name == v.title && t.artist == v.channel && t.coverUrl == Some(v.thumbnail)
    ensures t.youtubeId == Some(v.id) && t.audioUrl.None? && t.album.None? && t.duration == 0
  {
    Track("yt-" + v.id + "-" + NatToString(now), v.title, v.channel, None, 0, Some(v.thumbnail), None, Some(v.id))
  }

  /** `handlePlayVideo`: the track becomes current from its start and playback begins; the queue is not touched.
      The track is also handed to `onTrackSelect`. */
  function HandlePlayVideo(s: MusicPlayerStore.PlayerState, v: Video, now: nat): (r: (MusicPlayerStore.PlayerState, Track))
    ensures r.1 == VideoTrack(v, now)
    ensures r.0.currentTrack == Some(r.1) && r.0.progress == 0 && r.0.isPlaying
    ensures r.0.queue == s.queue && r.0.volume == s.volume && r.0.repeat == s.repeat && r.0.shuffle == s.shuffle
    ensures r.0.duration == s.duration && r.0.isExpanded == s.isExpanded
  {
    var t := VideoTrack(v, now);
    (MusicPlayerStore.Play(MusicPlayerStore.SetCurrentTrack(s, Some(t))), t)
  }

  /** Both players send a search result to YouTube, except a video with an empty id, which neither does. */
  lemma PlayersAgreeOnVideos(v: Video, now: nat)
    ensures MiniPlayer.IsYouTubeTrack(Some(VideoTrack(v, now))) == ExpandedPlayer.IsYouTubeTrack(Some(VideoTrack(v, now)))
    ensures MiniPlayer.IsYouTubeTrack(Some(VideoTrack(v, now))) <==> v.id != ""
  {
  }

  /** Once a search result is playing, seeking and the volume slider go to the YouTube player in both
      players, as long as it is mounted; a result with an empty id goes to neither YouTube player. */
  lemma SearchResultDrivesYouTube(s: MusicPlayerStore.PlayerState, v: Video, now: nat, at: real, vol: real, refs: ExpandedPlayer.Refs)
    requires refs.hasYouTube
    ensures var p := HandlePlayVideo(s, v, now).0;
      && (v.id != "" ==> ExpandedPlayer.HandleSeek(p.currentTrack, at, refs) == Some(ExpandedPlayer.YouTubeSeekTo(at)))
      && (v.id != "" ==> ExpandedPlayer.HandleVolumeChange(p, vol, refs).1 == Some(ExpandedPlayer.YouTubeSetVolume(vol * 100.0)))
      && (v.id != "" ==> MiniPlayer.HandleVolumeChange(p, vol, refs).1 == Some(ExpandedPlayer.YouTubeSetVolume(vol * 100.0)))
      && (v.id == "" ==> ExpandedPlayer.HandleSeek(p.currentTrack, at, refs) != Some(ExpandedPlayer.YouTubeSeekTo(at)))
  {
  }

  /** Choosing the same video at two different times gives two different track ids. */
  lemma FreshIdPerSelection(v: Video, t1: nat, t2: nat)
    requires t1 != t2
    ensures VideoTrack(v, t1).id != VideoTrack(v, t2).id
  {
    var p := "yt-" + v.id + "-";
    var a := NatToString(t1);
    var b := NatToString(t2);
    ParseNatToString(t1);
    ParseNatToString(t2);
    assert a != b;
    assert (p + a)[|p|..] == a && (p + b)[|p|..] == b;
  }
}
