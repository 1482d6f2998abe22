/** The cache updates of `useComments`: the hook's own comment list and the
    `comments_count` of its post in the feed cache. The hook is bound to one
    `postId: string | null`; every update below uses that bound id. */
module Comments {
  import opened Wrappers
  import Seqs
  import Posts

  datatype Comment = Comment(id: string, postId: string, userId: string, content: string)

  /** The cached list of the hook's post, `undefined` until loaded. */
  type CommentsCache = Option<seq<Comment>>

  /** The list the hook hands out: the cache, or empty while it is undefined. */
  function Visible(cache: CommentsCache): (r: seq<Comment>)
    ensures cache.Some? ==> r == cache.value
    ensures cache.None? ==> r == []
  {
    cache.GetOr([])
  }

  /** Add-success on the comment list: the new comment is appended after the loaded ones. */
  function AddToCache(cache: CommentsCache, c: Comment): (r: CommentsCache)
    ensures r.Some?
    ensures |r.value| == |Visible(cache)| + 1
    ensures r.value[..|Visible(cache)|] == Visible(cache) && r.value[|Visible(cache)|] == c
  {
    match cache
    case Some(cs) => Some(cs + [c])
    case None => Some([c])
  }

  function OtherThan(commentId: string): Comment -> bool
  {
    (c: Comment) => c.id != commentId
  }

  /** Delete-success on the comment list: every comment with the id goes, the rest keep their order. */
  function DeleteFromCache(cache: CommentsCache, commentId: string): (r: CommentsCache)
    ensures r.Some?
    ensures forall c :: c in r.value ==> c.id != commentId
    ensures forall c :: c in Visible(cache) && c.id != commentId ==> c in r.value
    ensures forall c :: c in r.value ==> c in Visible(cache)
    ensures cache.None? ==> r.value == []
    ensures forall c :: multiset(r.value)[c] == if c.id == commentId then 0 else multiset(Visible(cache))[c]
  {
    match cache
    case Some(cs) =>
      Seqs.FilterMultiset(cs, OtherThan(commentId));
      Some(Seqs.Filter(cs, OtherThan(commentId)))
    case None => Some([])
  }

  /** Deleting from a list split in two deletes from each part and keeps the parts in order. */
  lemma DeleteFromCacheKeepsOrder(a: seq<Comment>, b: seq<Comment>, commentId: string)
    ensures DeleteFromCache(Some(a + b), commentId).value
         == DeleteFromCache(Some(a), commentId).value + DeleteFromCache(Some(b), commentId).value
  {
    Seqs.FilterAppend(a, b, OtherThan(commentId));
  }

  /** Deleting a comment that was just added leaves the list as deleting it from the old list would. */
  lemma AddThenDelete(cache: CommentsCache, c: Comment)
    ensures DeleteFromCache(AddToCache(cache, c), c.id) == DeleteFromCache(cache, c.id)
  {
    var keep := OtherThan(c.id);
    var cs := Visible(cache);
    Seqs.FilterAppend(cs, [c], keep);
    assert !keep(c) && [c][1..] == [];
    assert Seqs.Filter([c], keep) == [];
    assert Seqs.Filter(cs + [c], keep) == Seqs.Filter(cs, keep);
    match cache
    case None =>
      assert Seqs.Filter(cs, keep) == [];
    case Some(loaded) =>
      assert AddToCache(cache, c) == Some(loaded + [c]);
  }

  /** When no loaded comment shares the new one's id, add then delete returns the loaded list. */
  lemma AddThenDeleteRestores(cs: seq<Comment>, c: Comment)
    requires forall i :: 0 <= i < |cs| ==> cs[i].id != c.id
    ensures DeleteFromCache(AddToCache(Some(cs), c), c.id) == Some(cs)
  {
    AddThenDelete(Some(cs), c);
    Seqs.FilterKeepsAll(cs, OtherThan(c.id));
  }

  /** The count change applied on add-success; a missing count is read as 0. */
  function Increment(postId: Option<string>): (f: Posts.Post -> Posts.Post)
    ensures forall p :: Bumped(postId, p, f(p))
  {
    (p: Posts.Post) =>
      if postId == Some(p.id) then p.(commentsCount := Some(p.commentsCount.GetOr(0) + 1)) else p
  }

  /** The count change applied on delete-success, clamped at 0. */
  function Decrement(postId: Option<string>): (f: Posts.Post -> Posts.Post)
    ensures forall p :: Lowered(postId, p, f(p))
  {
    (p: Posts.Post) =>
      if postId == Some(p.id) then p.(commentsCount := Some(if p.commentsCount.GetOr(0) - 1 < 0 then 0 else p.commentsCount.GetOr(0) - 1)) else p
  }

  /** `q` is `p` after add-success: the hook's post gains one comment, any other post is untouched. */
  predicate Bumped(postId: Option<string>, p: Posts.Post, q: Posts.Post) {
    (postId != Some(p.id) ==> q == p)
    && (postId == Some(p.id) ==> q == p.(commentsCount := Some(p.commentsCount.GetOr(0) + 1)))
  }

  /** `q` is `p` after delete-success: the hook's post loses one comment, and a count of 0 or a
      missing count becomes exactly 0. */
  predicate Lowered(postId: Option<string>, p: Posts.Post, q: Posts.Post) {
    (postId != Some(p.id) ==> q == p)
    && (postId == Some(p.id) ==>
      q == p.(commentsCount := Some(if p.commentsCount.GetOr(0) >= 1 then p.commentsCount.GetOr(0) - 1 else 0)))
  }

  /** Every post of page `b` is the matching post of page `a` after add-success. */
  predicate PageBumped(postId: Option<string>, a: seq<Posts.Post>, b: seq<Posts.Post>) {
    |a| == |b| && forall j :: 0 <= j < |a| ==> Bumped(postId, a[j], b[j])
  }

  /** Every post of page `b` is the matching post of page `a` after delete-success. */
  predicate PageLowered(postId: Option<string>, a: seq<Posts.Post>, b: seq<Posts.Post>) {
    |a| == |b| && forall j :: 0 <= j < |a| ==> Lowered(postId, a[j], b[j])
  }

  lemma BumpPage(postId: Option<string>, page: seq<Posts.Post>)
    ensures PageBumped(postId, page, Posts.MapPage(page, Increment(postId)))
  {
    var r := Posts.MapPage(page, Increment(postId));
    forall j | 0 <= j < |page| ensures Bumped(postId, page[j], r[j]) {
      assert r[j] == Increment(postId)(page[j]);
    }
  }

  lemma LowerPage(postId: Option<string>, page: seq<Posts.Post>)
    ensures PageLowered(postId, page, Posts.MapPage(page, Decrement(postId)))
  {
    var r := Posts.MapPage(page, Decrement(postId));
    forall j | 0 <= j < |page| ensures Lowered(postId, page[j], r[j]) {
      assert r[j] == Decrement(postId)(page[j]);
    }
  }

  /** The feed cache after a comment is added: only the hook's post gains one comment. */
  function CountAfterAdd(posts: Posts.PostsCache, postId: Option<string>): (r: Posts.PostsCache)
    ensures posts.None? <==> r.None?
    ensures posts.Some? ==> |r.value.pages| == |posts.value.pages| && r.value.pageParams == posts.value.pageParams
    ensures posts.Some? ==>
      forall i :: 0 <= i < |posts.value.pages| ==> PageBumped(postId, posts.value.pages[i], r.value.pages[i])
  {
    var r := Posts.MapPosts(posts, Increment(postId));
    assert posts.Some? ==> forall i :: 0 <= i < |posts.value.pages| ==>
      PageBumped(postId, posts.value.pages[i], r.value.pages[i]) by {
      if posts.Some? {
        forall i | 0 <= i < |posts.value.pages|
          ensures PageBumped(postId, posts.value.pages[i], r.value.pages[i])
        {
          BumpPage(postId, posts.value.pages[i]);
        }
      }
    }
    r
  }

  /** The feed cache after a comment is deleted: only the hook's post loses one comment, never below 0. */
  function CountAfterDelete(posts: Posts.PostsCache, postId: Option<string>): (r: Posts.PostsCache)
    ensures posts.None? <==> r.None?
    ensures posts.Some? ==> |r.value.pages| == |posts.value.pages| && r.value.pageParams == posts.value.pageParams
    ensures posts.Some? ==>
      forall i :: 0 <= i < |posts.value.pages| ==> PageLowered(postId, posts.value.pages[i], r.value.pages[i])
  {
    var r := Posts.MapPosts(posts, Decrement(postId));
    assert posts.Some? ==> forall i :: 0 <= i < |posts.value.pages| ==>
      PageLowered(postId, posts.value.pages[i], r.value.pages[i]) by {
      if posts.Some? {
        forall i | 0 <= i < |posts.value.pages|
          ensures PageLowered(postId, posts.value.pages[i], r.value.pages[i])
        {
          LowerPage(postId, posts.value.pages[i]);
        }
      }
    }
    r
  }

  /** A hook opened without a post changes no count. */
  lemma NoPostNoCountChange(posts: Posts.PostsCache)
    ensures CountAfterAdd(posts, None) == posts
    ensures CountAfterDelete(posts, None) == posts
  {
    if posts.Some? {
      var pages := posts.value.pages;
      forall i | 0 <= i < |pages|
        ensures Posts.MapPage(pages[i], Increment(None)) == pages[i]
        ensures Posts.MapPage(pages[i], Decrement(None)) == pages[i]
      {
      }
      assert Posts.MapPages(pages, Increment(None)) == pages;
      assert Posts.MapPages(pages, Decrement(None)) == pages;
    }
  }

  /** Add followed by delete gives back the count of any post whose count was present and non-negative. */
  lemma AddThenDeleteCount(p: Posts.Post, postId: string)
    requires p.id == postId && p.commentsCount.Some? && p.commentsCount.value >= 0
    ensures Decrement(Some(postId))(Increment(Some(postId))(p)) == p
  {
  }

  /** Unlike the like count, the comment count stays at 0 when deleted from 0 (or from a missing count). */
  lemma DeleteAtZeroStaysZero(p: Posts.Post)
    requires p.commentsCount.GetOr(0) == 0
    ensures Decrement(Some(p.id))(p).commentsCount == Some(0)
  {
  }
}
