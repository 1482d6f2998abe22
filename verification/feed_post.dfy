/** The local like/save state of one feed card. The card keeps its own copy of the
    like flag and count, seeded from the post; `fired` tells whether `onLike` was called. */
module FeedPost {
  import Posts

  datatype Card = Card(isLiked: bool, likesCount: int, isSaved: bool, showHeart: bool)

  /** The card as first rendered for a post. */
  function Init(p: Posts.Post): (c: Card)
    ensures c.isLiked == p.isLiked && c.likesCount == p.likesCount && !c.isSaved && !c.showHeart
  {
    Card(p.isLiked, p.likesCount, false, false)
  }

  /** `handleLike`: flip the flag, move the count towards the new flag, and always call `onLike`. */
  function HandleLike(c: Card): (r: (Card, bool))
    ensures r.0.isLiked == !c.isLiked
    ensures r.0.likesCount == (if c.isLiked then c.likesCount - 1 else c.likesCount + 1)
    ensures r.0.isSaved == c.isSaved && r.0.showHeart == c.showHeart
    ensures r.1
  {
    (c.(isLiked := !c.isLiked, likesCount := if c.isLiked then c.likesCount - 1 else c.likesCount + 1), true)
  }

  /** `handleDoubleTap`: likes an unliked card (and calls `onLike`), never unlikes; the heart shows either way. */
  function HandleDoubleTap(c: Card): (r: (Card, bool))
    ensures r.0.isLiked
    ensures r.1 <==> !c.isLiked
    ensures !c.isLiked ==> r.0.likesCount == c.likesCount + 1
    ensures c.isLiked ==> r.0.likesCount == c.likesCount
    ensures r.0.isSaved == c.isSaved && r.0.showHeart
  {
    if !c.isLiked then (c.(isLiked := true, likesCount := c.likesCount + 1, showHeart := true), true)
    else (c.(showHeart := true), false)
  }

  /** The bookmark button. */
  function ToggleSave(c: Card): (r: Card)
    ensures r.isSaved == !c.isSaved
    ensures r.isLiked == c.isLiked && r.likesCount == c.likesCount && r.showHeart == c.showHeart
  {
    c.(isSaved := !c.isSaved)
  }

  /** The heart overlay's timeout. */
  function HideHeart(c: Card): (r: Card)
    ensures !r.showHeart && r.isLiked == c.isLiked && r.likesCount == c.likesCount && r.isSaved == c.isSaved
  {
    c.(showHeart := false)
  }

  /** Liking twice gives back the original card. */
  lemma LikeTwiceRestores(c: Card)
    ensures HandleLike(HandleLike(c).0).0 == c
  {
  }

  /** A second double tap changes nothing and fires nothing. */
  lemma DoubleTapIdempotent(c: Card)
    ensures HandleDoubleTap(HandleDoubleTap(c).0).0 == HandleDoubleTap(c).0
    ensures !HandleDoubleTap(HandleDoubleTap(c).0).1
  {
  }

  /** Saving twice gives back the original card. */
  lemma ToggleSaveInvolution(c: Card)
    ensures ToggleSave(ToggleSave(c)) == c
  {
  }

  /** The feed forwards the cached `is_liked` with the card's call, so a first like on a fresh card shows the
      same flag and count as the optimistic cache update for that post. */
  lemma FirstLikeAgreesWithCache(p: Posts.Post)
    ensures var c := HandleLike(Init(p)).0;
      var q := Posts.LikeUpdate(p.id, p.isLiked)(p);
      c.isLiked == q.isLiked && c.likesCount == q.likesCount
  {
  }
}
