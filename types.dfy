/** The entities of the blog's content store, as plain values.
    Users are identified by their (unique) username and groups by their
    (unique) slug, since every view looks them up by those keys. */
module Types {

  datatype Option<+T> = None | Some(value: T)

  type UserId = string
  type Slug = string
  type PostId = nat
  type CommentId = nat

  /** A post: exactly one author, at most one group, an optional image
      (kept as an opaque reference). */
  datatype Post = Post(id: PostId, author: UserId, text: string, group: Option<Slug>, image: Option<string>)

  /** A comment attached to exactly one post. */
  datatype Comment = Comment(id: CommentId, post: PostId, author: UserId, text: string)

  /** A follow row: `user` follows `author`. */
  datatype Follow = Follow(user: UserId, author: UserId)

  /** What a valid post form yields: the fields a create or an edit sets. */
  datatype PostFields = PostFields(text: string, group: Option<Slug>, image: Option<string>)
}
