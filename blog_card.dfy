/** The post card on the home page: reading time, thumbnail and link target. */
module BlogCard {
  import opened Posts
  import ReadingTime

  const WordsPerMinute: nat := 200
  const DefaultThumbnail: string := "https://images.pexels.com/photos/1169754/pexels-photo-1169754.jpeg"
  const PostPathPrefix: string := "/post/"

  /** `post.content ? estimateReadingTime(post.content) : 0`: zero exactly
      for an empty body, otherwise the minutes at 200 words per minute. */
  function CardReadingTime(post: Post): (m: nat)
    ensures m == 0 <==> post.content == ""
    ensures post.content != "" ==> m == ReadingTime.Minutes(post.content, WordsPerMinute)
  {
    if post.content != "" then ReadingTime.Minutes(post.content, WordsPerMinute) else 0
  }

  /** The "N min read" label is shown when the reading time is positive,
      that is, exactly when the post has a body. */
  predicate ShowsReadingTime(post: Post)
  {
    CardReadingTime(post) > 0
  }

  /** A longer body never shows a shorter reading time. */
  lemma CardReadingTimeMonotone(p1: Post, p2: Post)
    requires p1.content != "" && p2.content != ""
    requires ReadingTime.WordCount(p1.content) <= ReadingTime.WordCount(p2.content)
    ensures CardReadingTime(p1) <= CardReadingTime(p2)
  {
    ReadingTime.MinutesMonotone(p1.content, p2.content, WordsPerMinute);
  }

  /** `post.images?.[0] || default`: the first image unless it is missing
      or empty. The result is never empty. */
  function Thumbnail(post: Post): (src: string)
    ensures src != ""
    ensures |post.images| > 0 && post.images[0] != "" ==> src == post.images[0]
    ensures (|post.images| == 0 || post.images[0] == "") ==> src == DefaultThumbnail
  {
    if |post.images| > 0 && post.images[0] != "" then post.images[0] else DefaultThumbnail
  }

  /** The card's link target `/post/<id>`; the id is recovered from it. */
  function PostPath(post: Post): (path: string)
    ensures |path| == |PostPathPrefix| + |post.id|
    ensures path[..|PostPathPrefix|] == PostPathPrefix && path[|PostPathPrefix|..] == post.id
  {
    PostPathPrefix + post.id
  }
}
