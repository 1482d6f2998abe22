/** The feed query of `usePosts`: page ranges, the next-page rule, per-viewer flags,
    the optimistic like with its rollback, and the flattened post list. The cached
    infinite-query data is `Option<InfiniteData>` (`undefined` before the first fetch). */
module Posts {
  import opened Wrappers
  import Seqs

  const PostsPerPage := 10

  /** A `posts` row as the backend returns it. */
  datatype PostRow = PostRow(id: string, userId: string, likesCount: int, commentsCount: Option<int>)

  /** A post with the viewer-specific flags. */
  datatype Post = Post(
    id: string,
    userId: string,
    likesCount: int,
    commentsCount: Option<int>,
    isLiked: bool,
    isFollowing: bool,
    isOwnPost: bool)

  datatype InfiniteData = InfiniteData(pages: seq<seq<Post>>, pageParams: seq<int>)

  type PostsCache = Option<InfiniteData>

  /** Inclusive row range `[from, to]` requested for page `p`. */
  function PageRange(p: nat): (r: (nat, nat))
    ensures r.0 == p * PostsPerPage
    ensures r.1 - r.0 + 1 == PostsPerPage
  {
    var from := p * PostsPerPage;
    (from, from + PostsPerPage - 1)
  }

  /** Consecutive pages request adjacent, non-overlapping ranges. */
  lemma PageRangesTile(p: nat)
    ensures PageRange(p + 1).0 == PageRange(p).1 + 1
  {
  }

  /** `getNextPageParam`: a short last page ends the feed; otherwise the next page number is the count of loaded pages. */
  function NextPageParam(lastPage: seq<Post>, pages: seq<seq<Post>>): (r: Option<nat>)
    ensures r.None? <==> |lastPage| < PostsPerPage
    ensures r.Some? ==> r.value == |pages|
  {
    if |lastPage| < PostsPerPage then None else Some(|pages|)
  }

  predicate AllFull(pages: seq<seq<Post>>) {
    forall i :: 0 <= i < |pages| ==> |pages[i]| == PostsPerPage
  }

  lemma {:induction false} FlattenFullLength(pages: seq<seq<Post>>)
    requires AllFull(pages)
    ensures |Seqs.Flatten(pages)| == PostsPerPage * |pages|
    decreases |pages|
  {
    if |pages| > 0 {
      FlattenFullLength(pages[1..]);
    }
  }

  /** While every loaded page is full, the next page starts exactly after the posts already shown. */
  lemma NextPageContinues(pages: seq<seq<Post>>)
    requires |pages| > 0 && AllFull(pages)
    ensures NextPageParam(pages[|pages| - 1], pages) == Some(|pages|)
    ensures PageRange(|pages|).0 == |Seqs.Flatten(pages)|
  {
    FlattenFullLength(pages);
  }

  /** The viewer flags of one row. */
  function AnnotateOne(row: PostRow, viewer: Option<string>, liked: set<string>, followed: set<string>): (p: Post)
    ensures p.id == row.id && p.userId == row.userId && p.likesCount == row.likesCount && p.commentsCount == row.commentsCount
    ensures viewer.Some? ==> (p.isOwnPost <==> row.userId == viewer.value)
    ensures viewer.Some? ==> (p.isLiked <==> row.id in liked) && (p.isFollowing <==> row.userId in followed)
    ensures viewer.None? ==> !p.isLiked && !p.isFollowing && !p.isOwnPost
  {
    match viewer
    case Some(uid) => Post(row.id, row.userId, row.likesCount, row.commentsCount, row.id in liked, row.userId in followed, row.userId == uid)
    case None => Post(row.id, row.userId, row.likesCount, row.commentsCount, false, false, false)
  }

  /** A fetched page with the flags added, in the order the backend returned it. */
  function Annotate(rows: seq<PostRow>, viewer: Option<string>, liked: set<string>, followed: set<string>): (ps: seq<Post>)
    ensures |ps| == |rows|
    ensures forall i :: 0 <= i < |rows| ==> ps[i] == AnnotateOne(rows[i], viewer, liked, followed)
  {
    if |rows| == 0 then [] else [AnnotateOne(rows[0], viewer, liked, followed)] + Annotate(rows[1..], viewer, liked, followed)
  }

  /** `page.map(f)`. */
  function MapPage(page: seq<Post>, f: Post -> Post): (r: seq<Post>)
    ensures |r| == |page|
    ensures forall i :: 0 <= i < |page| ==> r[i] == f(page[i])
  {
    if |page| == 0 then [] else [f(page[0])] + MapPage(page[1..], f)
  }

  /** `pages.map(page => page.map(f))`. */
  function MapPages(pages: seq<seq<Post>>, f: Post -> Post): (r: seq<seq<Post>>)
    ensures |r| == |pages|
    ensures forall i :: 0 <= i < |pages| ==> r[i] == MapPage(pages[i], f)
  {
    if |pages| == 0 then [] else [MapPage(pages[0], f)] + MapPages(pages[1..], f)
  }

  /** A cache updater of the shape `old => old ? { ...old, pages: old.pages.map(...) } : old`. */
  function MapPosts(cache: PostsCache, f: Post -> Post): (r: PostsCache)
    ensures cache.None? ==> r.None?
    ensures cache.Some? ==>
      r.Some? && r.value.pageParams == cache.value.pageParams && r.value.pages == MapPages(cache.value.pages, f)
  {
    match cache
    case None => None
    case Some(d) => Some(d.(pages := MapPages(d.pages, f)))
  }

  /** The per-post step of the optimistic like. */
  function LikeUpdate(postId: string, isLiked: bool): Post -> Post
  {
    (p: Post) =>
      if p.id == postId then p.(isLiked := !isLiked, likesCount := if isLiked then p.likesCount - 1 else p.likesCount + 1)
      else p
  }

  /** `onMutate` of the like mutation: only posts with the id flip their like and move the count by one. */
  function OptimisticLike(cache: PostsCache, postId: string, isLiked: bool): (r: PostsCache)
    ensures cache.None? ==> r.None?
    ensures cache.Some? ==> r.Some? && |r.value.pages| == |cache.value.pages| && r.value.pageParams == cache.value.pageParams
    ensures cache.Some? ==> forall i :: 0 <= i < |cache.value.pages| ==> |r.value.pages[i]| == |cache.value.pages[i]|
    ensures cache.Some? ==> forall i, j :: 0 <= i < |cache.value.pages| && 0 <= j < |cache.value.pages[i]| ==>
      var p := cache.value.pages[i][j];
      var q := r.value.pages[i][j];
      (p.id != postId ==> q == p)
      && (p.id == postId ==> q == p.(isLiked := !isLiked, likesCount := if isLiked then p.likesCount - 1 else p.likesCount + 1))
  {
    MapPosts(cache, LikeUpdate(postId, isLiked))
  }

  /** `onError`: a snapshot that existed is written back; an absent one leaves the cache as it is. */
  function Rollback(current: PostsCache, snapshot: PostsCache): (r: PostsCache)
    ensures snapshot.Some? ==> r == snapshot
    ensures snapshot.None? ==> r == current
  {
    Override(current, snapshot)
  }

  /** A failed like leaves the cache exactly as it was before the optimistic update. */
  lemma FailedLikeRestores(cache: PostsCache, postId: string, isLiked: bool)
    ensures Rollback(OptimisticLike(cache, postId, isLiked), cache) == cache
  {
  }

  lemma {:induction false} MapPageInverse(page: seq<Post>, postId: string, isLiked: bool)
    requires forall i :: 0 <= i < |page| ==> page[i].id == postId ==> page[i].isLiked == isLiked
    ensures MapPage(MapPage(page, LikeUpdate(postId, isLiked)), LikeUpdate(postId, !isLiked)) == page
  {
    var once := MapPage(page, LikeUpdate(postId, isLiked));
    var twice := MapPage(once, LikeUpdate(postId, !isLiked));
    forall i | 0 <= i < |page| ensures twice[i] == page[i] {
      assert once[i] == LikeUpdate(postId, isLiked)(page[i]);
    }
  }

  /** Liking and then unliking a post (or the reverse) restores the cache, when the flag passed matches the cached one. */
  lemma LikeThenUnlikeRestores(cache: PostsCache, postId: string, isLiked: bool)
    requires cache.Some? ==> forall i, j :: 0 <= i < |cache.value.pages| && 0 <= j < |cache.value.pages[i]| ==>
      cache.value.pages[i][j].id == postId ==> cache.value.pages[i][j].isLiked == isLiked
    ensures OptimisticLike(OptimisticLike(cache, postId, isLiked), postId, !isLiked) == cache
  {
    if cache.Some? {
      var pages := cache.value.pages;
      var once := MapPages(pages, LikeUpdate(postId, isLiked));
      var twice := MapPages(once, LikeUpdate(postId, !isLiked));
      forall i | 0 <= i < |pages| ensures twice[i] == pages[i] {
        MapPageInverse(pages[i], postId, isLiked);
      }
      assert twice == pages;
    }
  }

  /** Unlike has no lower clamp: a post at 0 likes drops to -1. */
  lemma UnlikeCanGoNegative(p: Post)
    requires p.likesCount == 0
    ensures LikeUpdate(p.id, true)(p).likesCount == -1
  {
  }

  /** `data?.pages.flat() || []`. */
  function PostsList(cache: PostsCache): (ps: seq<Post>)
    ensures cache.None? ==> ps == []
    ensures cache.Some? ==> ps == Seqs.Flatten(cache.value.pages)
  {
    if cache.None? then [] else Seqs.Flatten(cache.value.pages)
  }

  lemma MapPageAppend(a: seq<Post>, b: seq<Post>, f: Post -> Post)
    ensures MapPage(a + b, f) == MapPage(a, f) + MapPage(b, f)
  {
  }

  lemma {:induction false} FlattenMapPages(pages: seq<seq<Post>>, f: Post -> Post)
    ensures Seqs.Flatten(MapPages(pages, f)) == MapPage(Seqs.Flatten(pages), f)
    decreases |pages|
  {
    if |pages| > 0 {
      FlattenMapPages(pages[1..], f);
      assert MapPages(pages, f)[1..] == MapPages(pages[1..], f);
      MapPageAppend(pages[0], Seqs.Flatten(pages[1..]), f);
    }
  }

  /** The flattened list sees a cache update post by post, in the same order. */
  lemma PostsListOfMap(cache: PostsCache, f: Post -> Post)
    ensures PostsList(MapPosts(cache, f)) == MapPage(PostsList(cache), f)
  {
    if cache.Some? {
      FlattenMapPages(cache.value.pages, f);
    }
  }
}
