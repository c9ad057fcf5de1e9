/**
 * The article index of src/data/mockData.ts: tag filter, lookup by id and the
 * tag catalog. The site runs these over the global list `mockPosts`; here the
 * list is the parameter `posts`.
 */
module MockData {
  import opened Blog
  import opened Seqs

  // ---------------------------------------------------------------------
  // getPostsByTag and getPostById
  // ---------------------------------------------------------------------

  /** `getPostsByTag(tag)`: the posts whose tag list includes `tag`, by exact string equality. */
  function PostsByTag(posts: seq<Post>, tag: string): (r: seq<Post>)
    ensures forall p :: p in r ==> p in posts && tag in p.tags
    ensures forall p :: p in posts && tag in p.tags ==> p in r
    ensures IsSubsequence(r, posts) && |r| <= |posts|
    ensures (forall p :: p in posts ==> tag !in p.tags) ==> r == []
    ensures forall p :: p in posts ==> Count(r, p) == if tag in p.tags then Count(posts, p) else 0
  {
    Filter(posts, (p: Post) => tag in p.tags)
  }

  /** `getPostById(id)`: the first post whose id is `id`, or `None` (TypeScript's `undefined`). */
  function PostById(posts: seq<Post>, id: int): (r: Option<Post>)
    ensures r.None? <==> forall i :: 0 <= i < |posts| ==> posts[i].id != id
    ensures r.Some? ==> r.value.id == id
    ensures r.Some? ==> exists i :: 0 <= i < |posts| && posts[i] == r.value &&
                                    (forall j :: 0 <= j < i ==> posts[j].id != id)
  {
    if posts == [] then None
    else if posts[0].id == id then Some(posts[0])
    else
      var r := PostById(posts[1..], id);
      assert forall i :: 1 <= i < |posts| ==> posts[i] == posts[1..][i - 1];
      r
  }

  /** With unique ids, the lookup returns the one post that has the id. */
  lemma PostByIdUnique(posts: seq<Post>, i: nat)
    requires UniqueIds(posts) && i < |posts|
    ensures PostById(posts, posts[i].id) == Some(posts[i])
  {
  }

  // ---------------------------------------------------------------------
  // getAllTags
  // ---------------------------------------------------------------------

  /**
   * The JavaScript `Map<string, number>` that getAllTags fills: its keys in
   * insertion order, and the number stored under each key.
   */
  datatype TagMap = TagMap(keys: seq<string>, values: map<string, int>) {

    predicate Valid() {
      && NoDuplicates(keys)
      && (forall t :: t in values ==> t in keys)
      && (forall t :: t in keys ==> t in values)
    }

    /**
     * `map.get(t) || 0`. A stored 0 would also give 0 through `||`; the tally
     * never stores 0, and either way the value is 0.
     */
    function GetOrZero(t: string): int {
      if t in values then values[t] else 0
    }

    /** `map.set(t, v)`: an existing key keeps its place, a new key goes last. */
    function Set(t: string, v: int): (m: TagMap)
      requires Valid()
      ensures m.Valid()
      ensures m.values == values[t := v]
      ensures m.keys == if t in values then keys else keys + [t]
    {
      if t in values then TagMap(keys, values[t := v])
      else TagMap(keys + [t], values[t := v])
    }

    /** `Array.from(map.entries()).map(([name, count]) => ({ name, count }))` */
    function Entries(): (r: seq<Tag>)
      requires Valid()
      ensures |r| == |keys|
      ensures forall i :: 0 <= i < |keys| ==> r[i] == Tag(keys[i], values[keys[i]])
    {
      seq(|keys|, i requires 0 <= i < |keys| => Tag(keys[i], values[keys[i]]))
    }
  }

  const EmptyTagMap := TagMap([], map[])

  /** One step of the tally: `tagMap.set(tag, (tagMap.get(tag) || 0) + 1)`. */
  function Bump(m: TagMap, tag: string): (m': TagMap)
    requires m.Valid()
    ensures m'.Valid()
  {
    m.Set(tag, m.GetOrZero(tag) + 1)
  }

  /** The map after bumping each tag of `tags` in turn, starting from `m`. */
  function Tally(m: TagMap, tags: seq<string>): (m': TagMap)
    requires m.Valid()
    ensures m'.Valid()
  {
    if tags == [] then m
    else Bump(Tally(m, tags[..|tags| - 1]), tags[|tags| - 1])
  }

  /** The number of tags over all posts, a post's repeated tags included. */
  function TotalTags(posts: seq<Post>): nat {
    if posts == [] then 0
    else TotalTags(posts[..|posts| - 1]) + |posts[|posts| - 1].tags|
  }

  /** Every tag of every post, posts in list order and each post's tags in order. */
  function TagsOf(posts: seq<Post>): (r: seq<string>)
    ensures |r| == TotalTags(posts)
    ensures forall t :: t in r ==> exists p :: p in posts && t in p.tags
    ensures forall p, t :: p in posts && t in p.tags ==> t in r
  {
    if posts == [] then []
    else
      var init, last := posts[..|posts| - 1], posts[|posts| - 1];
      assert posts == init + [last];
      TagsOf(init) + last.tags
  }

  /** The value `getAllTags()` returns for the post list `posts`. */
  function TagCatalog(posts: seq<Post>): (r: seq<Tag>)
    ensures forall i, j :: 0 <= i < j < |r| ==> r[i].name != r[j].name
  {
    Tally(EmptyTagMap, TagsOf(posts)).Entries()
  }

  /**
   * `getAllTags()`: fills a map with nested loops over the posts and their
   * tags, then lists its entries.
   */
  method AllTags(posts: seq<Post>) returns (r: seq<Tag>)
    ensures r == TagCatalog(posts)
  {
    var tagMap := TagMap([], map[]);
    for i := 0 to |posts|
      invariant tagMap == Tally(EmptyTagMap, TagsOf(posts[..i]))
    {
      TallyConcat(EmptyTagMap, TagsOf(posts[..i]), posts[i].tags);
      tagMap := AddTags(tagMap, posts[i].tags);
      TagsOfStep(posts, i);
    }
    assert posts[..|posts|] == posts;
    r := tagMap.Entries();
  }

  /** The inner loop of getAllTags: `post.tags.forEach(tag => tagMap.set(tag, (tagMap.get(tag) || 0) + 1))`. */
  method AddTags(tagMap: TagMap, tags: seq<string>) returns (m: TagMap)
    requires tagMap.Valid()
    ensures m == Tally(tagMap, tags)
  {
    m := tagMap;
    for j := 0 to |tags|
      invariant m == Tally(tagMap, tags[..j])
    {
      var tag := tags[j];
      ghost var before := m;
      m := m.Set(tag, m.GetOrZero(tag) + 1);
      assert m == before.Set(tags[j], before.GetOrZero(tags[j]) + 1);
      TallyNext(tagMap, tags, j);
    }
    assert tags[..|tags|] == tags;
  }

  lemma TallyNext(m: TagMap, tags: seq<string>, j: nat)
    requires m.Valid() && j < |tags|
    ensures Tally(m, tags[..j + 1]) == Bump(Tally(m, tags[..j]), tags[j])
  {
    assert tags[..j + 1][..j] == tags[..j];
  }

  /** Tallying two lists one after the other is tallying their concatenation. */
  lemma {:induction false} TallyConcat(m: TagMap, a: seq<string>, b: seq<string>)
    requires m.Valid()
    ensures Tally(Tally(m, a), b) == Tally(m, a + b)
  {
    if b == [] {
      assert a + b == a;
    } else {
      var init := b[..|b| - 1];
      assert (a + b)[..|a + b| - 1] == a + init;
      TallyConcat(m, a, init);
    }
  }

  /** The outer loop's step: the tags of one more post appended. */
  lemma TagsOfStep(posts: seq<Post>, i: nat)
    requires i < |posts|
    ensures TagsOf(posts[..i + 1]) == TagsOf(posts[..i]) + posts[i].tags
  {
    assert posts[..i + 1][..i] == posts[..i];
  }

  /**
   * The tally of `s` holds each distinct tag of `s` once, in order of first
   * occurrence, with the number of times it occurs in `s`.
   */
  lemma {:induction false} TallyCounts(s: seq<string>)
    ensures Tally(EmptyTagMap, s).keys == FirstOccurrences(s)
    ensures forall t :: t in Tally(EmptyTagMap, s).values ==> Tally(EmptyTagMap, s).values[t] == Count(s, t)
  {
    if s != [] {
      var init, last := s[..|s| - 1], s[|s| - 1];
      assert s == init + [last];
      TallyCounts(init);
    }
  }

  /**
   * Entry `i` of the catalog is the `i`-th distinct tag in first-occurrence
   * order, with the number of times it occurs across all posts' tag lists.
   */
  lemma CatalogEntries(posts: seq<Post>)
    ensures |TagCatalog(posts)| == |FirstOccurrences(TagsOf(posts))|
    ensures forall i :: 0 <= i < |TagCatalog(posts)| ==>
      TagCatalog(posts)[i] == Tag(FirstOccurrences(TagsOf(posts))[i], Count(TagsOf(posts), FirstOccurrences(TagsOf(posts))[i]))
  {
    TallyCounts(TagsOf(posts));
  }

  /** Catalog names are pairwise distinct, and they are exactly the tags some post carries. */
  lemma CatalogNames(posts: seq<Post>)
    ensures forall i, j :: 0 <= i < j < |TagCatalog(posts)| ==> TagCatalog(posts)[i].name != TagCatalog(posts)[j].name
    ensures forall e :: e in TagCatalog(posts) ==> exists p :: p in posts && e.name in p.tags
    ensures forall p, t :: p in posts && t in p.tags ==> exists e :: e in TagCatalog(posts) && e.name == t
  {
    var r, d := TagCatalog(posts), FirstOccurrences(TagsOf(posts));
    CatalogEntries(posts);
    forall p, t | p in posts && t in p.tags
      ensures exists e :: e in r && e.name == t
    {
      assert t in TagsOf(posts);
      assert t in d;
      var k :| 0 <= k < |d| && d[k] == t;
      assert r[k] in r && r[k].name == t;
    }
  }

  /**
   * Catalog names follow first occurrence: scanning posts in order and each
   * post's tags in order, an earlier entry's name is met before a later one's.
   */
  lemma CatalogOrder(posts: seq<Post>)
    ensures forall i :: 0 <= i < |TagCatalog(posts)| ==> TagCatalog(posts)[i].name in TagsOf(posts)
    ensures forall i, j :: 0 <= i < j < |TagCatalog(posts)| ==>
      FirstIndex(TagsOf(posts), TagCatalog(posts)[i].name) < FirstIndex(TagsOf(posts), TagCatalog(posts)[j].name)
  {
    CatalogEntries(posts);
    FirstOccurrencesOrdered(TagsOf(posts));
  }

  /** The sum of the counts of a catalog. */
  function SumCounts(entries: seq<Tag>): int {
    if entries == [] then 0
    else SumCounts(entries[..|entries| - 1]) + entries[|entries| - 1].count
  }

  lemma {:induction false} SumCountsUpdate(entries: seq<Tag>, k: nat, e: Tag)
    requires k < |entries|
    ensures SumCounts(entries[k := e]) == SumCounts(entries) - entries[k].count + e.count
  {
    var n := |entries| - 1;
    if k < n {
      assert entries[k := e][..n] == entries[..n][k := e];
      SumCountsUpdate(entries[..n], k, e);
    } else {
      assert entries[k := e][..n] == entries[..n];
    }
  }

  /** Setting an existing key rewrites its entry in place; setting a new key appends an entry. */
  lemma SetEntries(m: TagMap, t: string, v: int, k: nat)
    requires m.Valid()
    requires t in m.values ==> k < |m.keys| && m.keys[k] == t
    ensures t in m.values ==> m.Set(t, v).Entries() == m.Entries()[k := Tag(t, v)]
    ensures t !in m.values ==> m.Set(t, v).Entries() == m.Entries() + [Tag(t, v)]
  {
  }

  /** Bumping a tag raises the sum of the listed counts by one. */
  lemma BumpSum(m: TagMap, tag: string)
    requires m.Valid()
    ensures SumCounts(Bump(m, tag).Entries()) == SumCounts(m.Entries()) + 1
  {
    var e, v := m.Entries(), m.GetOrZero(tag) + 1;
    if tag in m.values {
      var k :| 0 <= k < |m.keys| && m.keys[k] == tag;
      SetEntries(m, tag, v, k);
      SumCountsUpdate(e, k, Tag(tag, v));
    } else {
      SetEntries(m, tag, v, 0);
      assert (e + [Tag(tag, v)])[..|e|] == e;
    }
  }

  lemma {:induction false} TallySum(s: seq<string>)
    ensures SumCounts(Tally(EmptyTagMap, s).Entries()) == |s|
  {
    if s != [] {
      TallySum(s[..|s| - 1]);
      BumpSum(Tally(EmptyTagMap, s[..|s| - 1]), s[|s| - 1]);
    }
  }

  /**
   * The counts add up to the number of tags over all posts, and an empty post
   * list gives an empty catalog.
   */
  lemma CatalogTotal(posts: seq<Post>)
    ensures SumCounts(TagCatalog(posts)) == TotalTags(posts)
    ensures posts == [] ==> TagCatalog(posts) == []
  {
    TallySum(TagsOf(posts));
  }

  /**
   * With no tag repeated within one post, the number of occurrences of a tag
   * is the number of posts that carry it.
   */
  lemma {:induction false} OccurrencesArePosts(posts: seq<Post>, t: string)
    requires forall p :: p in posts ==> NoDuplicates(p.tags)
    ensures Count(TagsOf(posts), t) == |PostsByTag(posts, t)|
  {
    if posts != [] {
      var init, last := posts[..|posts| - 1], posts[|posts| - 1];
      assert posts == init + [last];
      OccurrencesArePosts(init, t);
      CountConcat(TagsOf(init), last.tags, t);
      CountWithoutDuplicates(last.tags, t);
      FilterConcat(init, [last], (p: Post) => t in p.tags);
    }
  }

  /**
   * With no tag repeated within one post, each catalog count is the number of
   * posts carrying that tag, which is the length of `getPostsByTag` for it.
   */
  lemma CatalogCountsPosts(posts: seq<Post>)
    requires forall p :: p in posts ==> NoDuplicates(p.tags)
    ensures forall e :: e in TagCatalog(posts) ==> e.count == |PostsByTag(posts, e.name)|
  {
    CatalogEntries(posts);
    forall e | e in TagCatalog(posts)
      ensures e.count == |PostsByTag(posts, e.name)|
    {
      OccurrencesArePosts(posts, e.name);
    }
  }
}
