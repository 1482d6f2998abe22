/** The playlist hooks: the recently-played list kept in local storage and the
    mapping of playlist rows to tracks. Storage is a map from key to an optional
    track list (`None` when the stored text does not parse). */
module Playlists {
  import opened Wrappers
  import opened Tracks
  import Seqs

  /** Maximum length of the recently-played list. */
  const RecentCap := 10

  const RecentPrefix := "recently-played-"
  const RecentGuestKey := "recently-played-guest"

  /** Storage key of the list: per signed-in user (any user object is truthy), else the guest key. */
  function RecentKey(userId: Option<string>): (k: string)
    ensures userId.Some? ==> k == RecentPrefix + userId.value
    ensures userId.None? ==> k == RecentGuestKey
    ensures |k| >= |RecentPrefix| && k[..|RecentPrefix|] == RecentPrefix
  {
    match userId
    case Some(id) => RecentPrefix + id
    case None => RecentGuestKey
  }

  type RecentDisk = map<string, Option<seq<Track>>>

  /** The stored list; missing or unparseable storage reads as the empty list. */
  function LoadRecent(disk: RecentDisk, key: string): (r: seq<Track>)
    ensures key !in disk || disk[key].None? ==> r == []
    ensures key in disk && disk[key].Some? ==> r == disk[key].value
  {
    if key in disk && disk[key].Some? then disk[key].value else []
  }

  function OtherThan(id: string): Track -> bool
  {
    (t: Track) => t.id != id
  }

  /** The list after playing `t`: drop earlier copies, put `t` in front, keep the 10 newest. */
  function AddToRecent(recent: seq<Track>, t: Track): (r: seq<Track>)
    ensures 1 <= |r| <= RecentCap
    ensures r[0] == t
    ensures forall k :: 1 <= k < |r| ==> r[k].id != t.id
    ensures r[1..] == Seqs.Take(Seqs.Filter(recent, OtherThan(t.id)), RecentCap - 1)
  {
    var rest := Seqs.Filter(recent, OtherThan(t.id));
    var r := Seqs.Take([t] + rest, RecentCap);
    assert r[1..] == Seqs.Take(rest, RecentCap - 1);
    r
  }

  /** Exactly one entry carries the played track's id. */
  lemma AddToRecentSingleCopy(recent: seq<Track>, t: Track)
    ensures CountId(AddToRecent(recent, t), t.id) == 1
  {
    var r := AddToRecent(recent, t);
    CountIdZero(r[1..], t.id);
    assert r == [r[0]] + r[1..];
  }

  /** Entries other than the played one keep their relative order; the oldest fall off first. */
  lemma AddToRecentKeepsOrder(recent: seq<Track>, t: Track, a: seq<Track>, b: seq<Track>)
    requires recent == a + b
    requires |Seqs.Filter(a, OtherThan(t.id))| >= RecentCap - 1
    ensures AddToRecent(recent, t)[1..] == Seqs.Take(Seqs.Filter(a, OtherThan(t.id)), RecentCap - 1)
  {
    Seqs.FilterAppend(a, b, OtherThan(t.id));
  }

  /** Playing the same track twice in a row leaves the list as playing it once. */
  lemma AddToRecentIdempotent(recent: seq<Track>, t: Track)
    ensures AddToRecent(AddToRecent(recent, t), t) == AddToRecent(recent, t)
  {
    var r := AddToRecent(recent, t);
    var rest := Seqs.Filter(r, OtherThan(t.id));
    assert r == [t] + r[1..];
    Seqs.FilterAppend([t], r[1..], OtherThan(t.id));
    assert Seqs.Filter([t], OtherThan(t.id)) == [];
    Seqs.FilterKeepsAll(r[1..], OtherThan(t.id));
    assert rest == r[1..];
  }

  /** `addToRecentlyPlayed`: read the list under the user's key, update it, write it back. */
  function AddToRecentlyPlayed(disk: RecentDisk, userId: Option<string>, t: Track): (r: RecentDisk)
    ensures LoadRecent(r, RecentKey(userId)) == AddToRecent(LoadRecent(disk, RecentKey(userId)), t)
    ensures forall k :: k != RecentKey(userId) ==> LoadRecent(r, k) == LoadRecent(disk, k)
  {
    var key := RecentKey(userId);
    disk[key := Some(AddToRecent(LoadRecent(disk, key), t))]
  }

  /** A corrupted list is replaced by a one-entry list. */
  lemma CorruptListRestarts(disk: RecentDisk, userId: Option<string>, t: Track)
    requires RecentKey(userId) in disk && disk[RecentKey(userId)].None?
    ensures LoadRecent(AddToRecentlyPlayed(disk, userId, t), RecentKey(userId)) == [t]
  {
  }

  /** A `playlist_tracks` row. */
  datatype PlaylistRow = PlaylistRow(
    id: string,
    playlistId: string,
    trackName: string,
    artistName: string,
    durationSeconds: Option<int>,
    trackUrl: Option<string>)

  /** Row-to-track mapping of `usePlaylistTracks`: null duration reads 0, null URL reads "",
      album and cover are empty, and the row is never a video. */
  function RowToTrack(row: PlaylistRow): (t: Track)
    ensures t.id == row.id && t.name == row.trackName && t.artist == row.artistName
    ensures t.duration == row.durationSeconds.GetOr(0)
    ensures t.audioUrl == Some(row.trackUrl.GetOr(""))
    ensures t.album == Some("") && t.coverUrl == Some("") && t.youtubeId.None?
  {
    Track(row.id, row.trackName, row.artistName, Some(""), row.durationSeconds.GetOr(0), Some(""),
          Some(row.trackUrl.GetOr("")), None)
  }

  /** The fetched rows mapped one by one, in `added_at` order as the query returns them. */
  function RowsToTracks(rows: seq<PlaylistRow>): (ts: seq<Track>)
    ensures |ts| == |rows|
    ensures forall i :: 0 <= i < |rows| ==> ts[i] == RowToTrack(rows[i])
  {
    if |rows| == 0 then [] else [RowToTrack(rows[0])] + RowsToTracks(rows[1..])
  }
}
