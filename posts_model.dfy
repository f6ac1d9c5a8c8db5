/** The shape of a stored post as the client receives it. */
module Posts {

  /** A blog post: `images[0]`, when present, is the thumbnail; the rest are
      placed inside the body. */
  datatype Post = Post(
    id: string,
    title: string,
    content: string,
    images: seq<string>,
    shortDescription: string,
    links: seq<string>,
    createdAt: string)
}
