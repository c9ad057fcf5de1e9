/**
 * The related-articles query of the post detail page
 * (src/pages/PostDetailPage.tsx): other posts sharing a tag with the
 * displayed one, at most three, in list order. The page's markup is not
 * modelled; the route parameter is taken as an integer id.
 */
module PostDetailPage {
  import opened Blog
  import opened Seqs
  import MockData

  /** The page shows at most this many related posts (`slice(0, 3)`). */
  const RelatedLimit := 3

  /** `p.tags.some(tag => post.tags.includes(tag))` */
  predicate SharesTag(p: Post, post: Post) {
    exists t :: t in p.tags && t in post.tags
  }

  /** The filter test applied to each candidate: another id, and a tag in common. */
  predicate IsRelated(p: Post, postId: int, post: Post) {
    p.id != postId && SharesTag(p, post)
  }

  /**
   * `getRelatedPosts()`: nothing when the page's post does not exist; otherwise
   * the first three posts, in list order, that have another id and share a tag
   * with it.
   */
  function RelatedPosts(posts: seq<Post>, postId: int): (r: seq<Post>)
    ensures MockData.PostById(posts, postId).None? ==> r == []
    ensures |r| <= RelatedLimit
    ensures IsSubsequence(r, posts)
    ensures forall p :: p in r ==>
      MockData.PostById(posts, postId).Some? && IsRelated(p, postId, MockData.PostById(posts, postId).value)
  {
    match MockData.PostById(posts, postId)
    case None => []
    case Some(post) =>
      var related := Filter(posts, (p: Post) => IsRelated(p, postId, post));
      if |related| <= RelatedLimit then related
      else
        SubsequencePrefix(related, posts, RelatedLimit);
        assert forall p :: p in related[..RelatedLimit] ==> p in related;
        related[..RelatedLimit]
  }

  /**
   * When the page's post exists it is never among its related posts, so there
   * are fewer related posts than posts in the list.
   */
  lemma RelatedExcludesSelf(posts: seq<Post>, postId: int)
    requires MockData.PostById(posts, postId).Some?
    ensures |RelatedPosts(posts, postId)| < |posts|
    ensures forall p :: p in RelatedPosts(posts, postId) ==> p.id != postId
  {
  }

  /**
   * A qualifying post is left out only when three qualifying posts before it
   * were returned: the result then has three posts, all taken from the part of
   * the list that precedes it.
   */
  lemma RelatedOmitsOnlyWhenFull(posts: seq<Post>, postId: int, i: nat)
    requires i < |posts|
    requires MockData.PostById(posts, postId).Some?
    requires IsRelated(posts[i], postId, MockData.PostById(posts, postId).value)
    requires posts[i] !in RelatedPosts(posts, postId)
    ensures |RelatedPosts(posts, postId)| == RelatedLimit
    ensures IsSubsequence(RelatedPosts(posts, postId), posts[..i])
  {
    var post := MockData.PostById(posts, postId).value;
    var f := (p: Post) => IsRelated(p, postId, post);
    var all := Filter(posts, f);
    var before, from := posts[..i], posts[i..];
    assert posts == before + from;
    FilterConcat(before, from, f);
    var early := Filter(before, f);
    assert from[0] == posts[i] && f(posts[i]);
    assert Filter(from, f)[0] == posts[i];
    assert all[|early|] == posts[i];
    if |early| < RelatedLimit {
      assert false;
    }
    assert all[..RelatedLimit] == early[..RelatedLimit];
    SubsequencePrefix(early, before, RelatedLimit);
  }
}
