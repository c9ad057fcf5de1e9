/**
 * Small fixture lists and what the article index answers on them. Tags are
 * parameters, so each scenario covers every choice of distinct names (for
 * instance "React", "JS" and "TS").
 */
module Scenarios {
  import opened Blog
  import opened Seqs
  import opened MockData
  import opened PostDetailPage

  /** A post with the given id and tags; its display fields are left empty. */
  function Article(id: int, tags: seq<string>): Post {
    Post(id, "", "", "", "", "", tags, "", "")
  }

  /**
   * Post 1 shares tag `shared` with post 3 and nothing with post 5: the detail
   * page of post 1 recommends post 3 alone.
   */
  lemma RelatedToPostOne(own: string, shared: string, other: string, unrelated: string)
    requires unrelated != own && unrelated != shared
    ensures var posts := [Article(1, [own, shared]), Article(3, [other, shared]), Article(5, [unrelated])];
      RelatedPosts(posts, 1) == [posts[1]]
  {
    var posts := [Article(1, [own, shared]), Article(3, [other, shared]), Article(5, [unrelated])];
    assert SharesTag(posts[1], posts[0]) by {
      assert shared in posts[1].tags && shared in posts[0].tags;
    }
    assert !SharesTag(posts[2], posts[0]);
    assert PostById(posts, 1) == Some(posts[0]);
    var f := (p: Post) => IsRelated(p, 1, posts[0]);
    assert posts[1..][1..] == posts[2..] && posts[2..][1..] == [];
    assert Filter(posts[2..], f) == [];
    assert Filter(posts[1..], f) == [posts[1]];
    assert Filter(posts, f) == [posts[1]];
  }

  /**
   * Two posts tagged `[a, b]` and `[a, c]`: the catalog lists `a` with count 2,
   * then `b` and `c` with count 1, in that order.
   */
  lemma CatalogOfTwoPosts(a: string, b: string, c: string)
    requires a != b && a != c && b != c
    ensures TagCatalog([Article(1, [a, b]), Article(2, [a, c])]) == [Tag(a, 2), Tag(b, 1), Tag(c, 1)]
  {
    var posts := [Article(1, [a, b]), Article(2, [a, c])];
    TagsOfTwo(posts[0], posts[1]);
    assert TagsOf(posts) == [a, b, a, c];
    DistinctOfTwoPosts(a, b, c);
    CatalogEntries(posts);
  }

  lemma TagsOfTwo(p: Post, q: Post)
    ensures TagsOf([p, q]) == p.tags + q.tags
  {
    assert [p, q][..1] == [p];
    assert [p][..0] == [];
    assert TagsOf([p]) == p.tags;
  }

  lemma DistinctOfTwoPosts(a: string, b: string, c: string)
    requires a != b && a != c && b != c
    ensures FirstOccurrences([a, b, a, c]) == [a, b, c]
    ensures Count([a, b, a, c], a) == 2 && Count([a, b, a, c], b) == 1 && Count([a, b, a, c], c) == 1
  {
    var all := [a, b, a, c];
    assert all[..3] == [a, b, a] && [a, b, a][..2] == [a, b] && [a, b][..1] == [a] && [a][..0] == [];
    FirstOccurrencesOfPrefixes(a, b);
    CountsOfPrefixes(a, b, c);
  }

  lemma FirstOccurrencesOfPrefixes(a: string, b: string)
    requires a != b
    ensures FirstOccurrences([a, b, a]) == [a, b]
  {
    assert [a, b, a][..2] == [a, b] && [a, b][..1] == [a] && [a][..0] == [];
    assert FirstOccurrences([a]) == [a];
    assert FirstOccurrences([a, b]) == [a, b];
  }

  lemma CountsOfPrefixes(a: string, b: string, c: string)
    requires a != b && a != c && b != c
    ensures Count([a, b, a], a) == 2 && Count([a, b, a], b) == 1 && Count([a, b, a], c) == 0
  {
    assert [a, b, a][..2] == [a, b] && [a, b][..1] == [a] && [a][..0] == [];
    assert Count([a], a) == 1 && Count([a], b) == 0 && Count([a], c) == 0;
    assert Count([a, b], a) == 1 && Count([a, b], b) == 1 && Count([a, b], c) == 0;
  }

  /** A tag repeated within one post is tallied twice although one post carries it. */
  lemma RepeatedTagCountedTwice(t: string)
    ensures TagCatalog([Article(1, [t, t])]) == [Tag(t, 2)]
    ensures |PostsByTag([Article(1, [t, t])], t)| == 1
  {
    CatalogOfRepeated(t);
    PostsOfRepeated(t);
  }

  lemma CatalogOfRepeated(t: string)
    ensures TagCatalog([Article(1, [t, t])]) == [Tag(t, 2)]
  {
    var posts := [Article(1, [t, t])];
    assert TagsOf(posts) == [t, t] by {
      assert posts[..0] == [];
    }
    DistinctOfRepeated(t);
    CatalogEntries(posts);
  }

  lemma PostsOfRepeated(t: string)
    ensures |PostsByTag([Article(1, [t, t])], t)| == 1
  {
    var posts := [Article(1, [t, t])];
    assert posts[1..] == [];
  }

  lemma DistinctOfRepeated(t: string)
    ensures FirstOccurrences([t, t]) == [t] && Count([t, t], t) == 2
  {
    assert [t, t][..1] == [t] && [t][..0] == [];
    assert FirstOccurrences([t]) == [t] && Count([t], t) == 1;
  }

  /** An id no post has finds nothing, and a tag no post carries selects nothing. */
  lemma AbsentIdAndTag(t: string, u: string, missing: string)
    requires missing != t && missing != u
    ensures PostById([Article(1, [t]), Article(2, [u])], 999) == None
    ensures PostsByTag([Article(1, [t]), Article(2, [u])], missing) == []
  {
  }
}
