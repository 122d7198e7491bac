/** The canonical results the client returns, whatever the booru's dialect.
    Their fields are filled by per-booru decoders, which are inputs of the
    model; the client itself only reads and rewrites the comment post id. */
module Records {
  import opened Common

  datatype Rating = General | Safe | Questionable | Explicit

  /** `Search.Post.SearchResult`; times are seconds since the Unix epoch. */
  datatype Post = Post(
    id: int,
    fileUrl: Option<string>,
    previewUrl: Option<string>,
    postUrl: string,
    rating: Rating,
    tags: seq<string>,
    md5: Option<string>,
    width: Option<int>,
    height: Option<int>,
    creation: Option<int>)

  /** `Search.Comment.SearchResult`. */
  datatype Comment = Comment(
    commentId: int,
    postId: int,
    authorId: Option<int>,
    creation: int,
    authorName: string,
    body: string)

  /** `Search.Wiki.SearchResult`. */
  datatype WikiEntry = WikiEntry(id: int, title: string, creation: int, lastUpdate: int, body: string)

  /** `Search.Related.SearchResult`. */
  datatype RelatedTag = RelatedTag(name: string, count: Option<int>)
}
