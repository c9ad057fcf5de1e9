# Blog article index, modelled in Dafny

The blog site keeps its articles in one static list and runs four read-only
queries over it:

- `getPostsByTag(tag)` selects the posts whose tag list includes `tag`.
- `getPostById(id)` finds the first post with an id, or nothing.
- `getAllTags()` tallies tag occurrences into `{name, count}` rows with a JavaScript `Map`.
- The post detail page's `getRelatedPosts()` lists up to three other posts that share a tag with the displayed post.

This project models those queries and proves what they return. The global
list `mockPosts` becomes a `seq<Post>` parameter.

Files:

- `blog.dfy` (module `Blog`): the `Post` and `Tag` records, `Option`, and the unique-id property of the data.
- `seqs.dfy` (module `Seqs`): the sequence vocabulary. It has `Filter` for `Array.prototype.filter`, the subsequence relation, occurrence counts and first-occurrence order.
- `mock_data.dfy` (module `MockData`): the three queries of the data file. The `Map` is a `TagMap` value made of insertion-ordered keys and a `map`. `AllTags` fills it with the source's nested loops and is proved equal to the pure fold `TagCatalog`. The properties of `TagCatalog` are lemmas.
- `post_detail_page.dfy` (module `PostDetailPage`): the related-posts query.
- `scenarios.dfy` (module `Scenarios`): small fixture lists with their answers. Tags are parameters, so each scenario holds for every choice of distinct names.

A tag count could be read as the number of articles carrying the tag. The
code adds one per occurrence of the tag in a tag list, and the model follows
the code. `CatalogCountsPosts` proves the two readings agree when no post
repeats a tag, which holds for the shipped data. `RepeatedTagCountedTwice`
shows a list where they differ. The page fixes the number of related posts at
3 (`RelatedLimit`).

## Model

| member | source | states |
|---|---|---|
| `MockData.PostsByTag` | src/data/mockData.ts:501-503 | Every returned post carries the tag and every post carrying it is returned; comparison is exact. The result keeps list order (a subsequence), holds each selected post as many times as the list does, and is empty when no post has the tag. |
| `MockData.PostById` | src/data/mockData.ts:505-507 | The result is absent iff no post has the id. Otherwise it is a post with that id, and no earlier post has the id. |
| `MockData.PostByIdUnique` | src/data/mockData.ts:505-507 | With unique ids, looking up any post's id returns exactly that post. |
| `MockData.TagMap.Set` | src/data/mockData.ts:514 | `Map.set` keeps the map well formed and stores the value under the key. An existing key keeps its place in the key order; a new key goes last. |
| `MockData.TagMap.Entries` | src/data/mockData.ts:518 | The entry listing has one `{name, count}` row per key, in key order, carrying that key's value. |
| `MockData.Bump` | src/data/mockData.ts:514 | One `set(tag, get-or-zero + 1)` step keeps the map well formed: distinct keys, and keys exactly the stored names. |
| `MockData.Tally` | src/data/mockData.ts:512-516 | Bumping each tag of a list in turn keeps the map well formed. |
| `MockData.TagCatalog` | src/data/mockData.ts:509-519 | The tag catalog (the fold the loops compute) never lists a name twice. |
| `MockData.AllTags` | src/data/mockData.ts:509-519 | The nested loops over posts and their tags, then the entry listing, return exactly the fold `TagCatalog` of the post list. |
| `MockData.AddTags` | src/data/mockData.ts:513-515 | The inner loop over one post's tags leaves the map equal to the fold over those tags. |
| `MockData.TallyConcat` | src/data/mockData.ts:512-516 | Tallying one tag list after another equals tallying their concatenation, so the per-post loops compose. |
| `MockData.TagsOf` | src/data/mockData.ts:512-513 | The scanned tag stream contains a tag iff some post carries it. Its length is the total number of tags over all posts, repeats included. |
| `MockData.TallyCounts` | src/data/mockData.ts:510-516 | After the tally, the map's keys are the distinct tags in first-occurrence order. Each value is the tag's number of occurrences. |
| `MockData.CatalogEntries` | src/data/mockData.ts:509-519 | Catalog entry i is the i-th distinct tag in scan order. Its count is the number of occurrences of that tag across all posts' tag lists. |
| `MockData.CatalogNames` | src/data/mockData.ts:510-518 | Catalog names are pairwise distinct. A name appears iff some post carries that tag. |
| `MockData.CatalogOrder` | src/data/mockData.ts:512-518 | Names appear in order of first occurrence, scanning posts in order and each post's tags in order. |
| `MockData.SetEntries` | src/data/mockData.ts:514-518 | `Map.set` on an existing key rewrites its entry in place. On a new key it appends an entry at the end. |
| `MockData.BumpSum` | src/data/mockData.ts:514 | One `set(tag, get(tag) + 1)` step raises the sum of the listed counts by exactly one. |
| `MockData.CatalogTotal` | src/data/mockData.ts:512-518 | The counts sum to the total number of tags over all posts, repeats included. An empty post list gives an empty catalog. |
| `MockData.OccurrencesArePosts` | src/data/mockData.ts:512-516 | If no post repeats a tag, the number of occurrences of a tag equals the number of posts `getPostsByTag` returns for it. |
| `MockData.CatalogCountsPosts` | src/data/mockData.ts:512-516 | If no post repeats a tag, every catalog count is the number of posts carrying that tag. |
| `Seqs.Filter` | src/data/mockData.ts:502 | `filter` keeps exactly the elements satisfying the predicate, in order (a subsequence). Each kept element occurs as often as in the input, each other element not at all, and the list never grows. |
| `Seqs.FirstOccurrences` | src/data/mockData.ts:514 | The key order of a `Map` filled by scanning a list has no duplicates. Its keys are exactly the list's elements. |
| `Seqs.FirstOccurrencesOrdered` | src/data/mockData.ts:514-518 | The keys appear in order of their first occurrence in the scanned list. |
| `PostDetailPage.RelatedPosts` | src/pages/PostDetailPage.tsx:9-18 | The list is empty when the page's post is not found, and has at most 3 posts. It keeps list order. Each returned post has another id and shares a tag with the page's post. |
| `PostDetailPage.RelatedExcludesSelf` | src/pages/PostDetailPage.tsx:13-17 | When the page's post exists, no returned post has its id. There are fewer related posts than posts. |
| `PostDetailPage.RelatedOmitsOnlyWhenFull` | src/pages/PostDetailPage.tsx:15-17 | A qualifying post is left out only if 3 posts were returned. All 3 lie before it in the list, so the result is the first three qualifying posts. |
| `Scenarios.RelatedToPostOne` | src/pages/PostDetailPage.tsx:12-18 | Posts 1, 3 and 5, where only post 3 shares a tag with post 1: post 1's page recommends post 3 alone. |
| `Scenarios.CatalogOfTwoPosts` | src/data/mockData.ts:509-519 | Posts tagged `[a, b]` and `[a, c]` give the catalog `[a:2, b:1, c:1]`, in that order. |
| `Scenarios.RepeatedTagCountedTwice` | src/data/mockData.ts:514 | A post tagged `[t, t]` gives `t` the count 2, while one post carries `t`. |
| `Scenarios.AbsentIdAndTag` | src/data/mockData.ts:501-507 | An id no post has finds nothing. A tag no post carries selects an empty list, not an error. |

## Left out

- All React components, JSX and styling: they render the query results and compute nothing that is checked here.
- The `slice(0, 3)` display truncations in the post card and home page: they are presentational.
- Dark mode, scroll state, routing and the GitHub Pages redirect: they depend on browser state (`localStorage`, `matchMedia`, `sessionStorage`, `window.history`).
- The code highlighting wrapper: it calls a library that is not part of this model.
- `parseInt(id || '0', 10)` on the route parameter: the page's id is taken as an `int`, so JavaScript's `NaN` and floating-point ids are not modelled.
- The literal article records and their HTML content: the queries take the list as a parameter, and the scenarios use small fixture lists.
- JavaScript numbers: ids and counts are unbounded integers, so float rounding of very large counts is not modelled.
