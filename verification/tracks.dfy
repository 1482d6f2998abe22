/** The `MusicTrack` record shared by the player store, the players, the playlist
    hooks and the video search. */
module Tracks {
  import opened Wrappers

  /** A playable item. Durations are whole seconds; 0 and anything above a day mark a live stream. */
  datatype Track = Track(
    id: string,
    name: string,
    artist: string,
    album: Option<string>,
    duration: int,
    coverUrl: Option<string>,
    audioUrl: Option<string>,
    youtubeId: Option<string>)

  /** `queue.findIndex(t => t.id === id)`: the first position holding that id, or -1. */
  function FindIndex(q: seq<Track>, id: string): (i: int)
    ensures -1 <= i < |q|
    ensures i == -1 <==> forall k :: 0 <= k < |q| ==> q[k].id != id
    ensures i >= 0 ==> q[i].id == id && forall k :: 0 <= k < i ==> q[k].id != id
  {
    if |q| == 0 then -1
    else if q[0].id == id then 0
    else
      var j := FindIndex(q[1..], id);
      if j == -1 then -1 else j + 1
  }

  /** Number of entries carrying the id `id`. */
  function CountId(q: seq<Track>, id: string): nat
  {
    if |q| == 0 then 0 else (if q[0].id == id then 1 else 0) + CountId(q[1..], id)
  }

  lemma {:induction false} CountIdZero(q: seq<Track>, id: string)
    requires forall k :: 0 <= k < |q| ==> q[k].id != id
    ensures CountId(q, id) == 0
    decreases |q|
  {
    if |q| > 0 {
      CountIdZero(q[1..], id);
    }
  }

  lemma {:induction false} CountIdAppend(a: seq<Track>, b: seq<Track>, id: string)
    ensures CountId(a + b, id) == CountId(a, id) + CountId(b, id)
    decreases |a|
  {
    if |a| == 0 {
      assert a + b == b;
    } else {
      assert (a + b)[1..] == a[1..] + b;
      CountIdAppend(a[1..], b, id);
    }
  }

  /** No id occurs twice in the queue. */
  predicate DistinctIds(q: seq<Track>) {
    forall i, j :: 0 <= i < j < |q| ==> q[i].id != q[j].id
  }

  /** With distinct ids, looking an entry's id up finds that very entry. */
  lemma FindIndexDistinct(q: seq<Track>, i: int)
    requires DistinctIds(q) && 0 <= i < |q|
    ensures FindIndex(q, q[i].id) == i
  {
  }
}
