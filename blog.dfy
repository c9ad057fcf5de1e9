/** The records of the blog's data layer (src/types/blog.ts). */
module Blog {

  /** The result of a lookup that may find nothing (TypeScript's `T | undefined`). */
  datatype Option<T> = None | Some(value: T)

  /**
   * An article. Only `id` and `tags` are inspected by the article index; the
   * other fields are display text that no query looks at.
   */
  datatype Post = Post(
    id: int,
    title: string,
    excerpt: string,
    content: string,
    coverImage: string,
    category: string,
    tags: seq<string>,
    publishDate: string,
    readTime: string)

  /** One row of the tag catalog: a tag name and its tally. */
  datatype Tag = Tag(name: string, count: int)

  /** No two articles of the list carry the same id (true of the shipped data, ids 1 to 11). */
  predicate UniqueIds(posts: seq<Post>) {
    forall i, j :: 0 <= i < j < |posts| ==> posts[i].id != posts[j].id
  }
}
