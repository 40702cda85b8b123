/** The entities of the photo-sharing application, as the views see them.
    Users, posts and comments are values identified by their primary keys;
    the Like table, the only thing the views update in place, lives in
    module LikeStore. */
module Types {

  type UserId = nat
  type PostId = nat
  type CommentId = nat

  datatype Option<+T> = None | Some(value: T)

  /** HTTP status codes the views answer with. */
  const OK: nat := 200
  const CREATED: nat := 201
  const FOUND: nat := 302       // the redirect a successful create/update/delete view answers with
  const FORBIDDEN: nat := 403
  const NOT_FOUND: nat := 404
  const SERVER_ERROR: nat := 500 // an exception the view does not catch

  /** A registered user. `following` is the directed, non-reciprocal follow relation. */
  datatype User = User(
    id: UserId,
    email: string,
    firstName: string,
    lastName: string,
    following: set<UserId>,
    isSuperuser: bool)

  /** A post; `user` is its owner and `created` its creation timestamp (opaque integer). */
  datatype Post = Post(
    pk: PostId,
    user: UserId,
    content: string,
    image: Option<string>,
    created: int)

  /** A comment, owned by `user` and attached to the post `post`. */
  datatype Comment = Comment(
    pk: CommentId,
    user: UserId,
    post: PostId,
    content: string)
}
