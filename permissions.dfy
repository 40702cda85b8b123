/** Ownership rules of the post and comment views: the `test_func` predicates
    that gate update and delete, the gated operations themselves (404 for a
    missing object, 403 when the predicate fails, 500 when it raises, otherwise
    the change and a redirect), and the fields that creation forces. Authentication is taken
    for granted: `actor` is always the logged-in user. */
module Permissions {
  import opened Types

  /** UpdatePost.test_func: only the owner. */
  predicate UpdatePostAllowed(post: Post, actor: UserId)
  {
    post.user == actor
  }

  /** DeletePost.test_func: only the owner. */
  predicate DeletePostAllowed(post: Post, actor: UserId)
  {
    post.user == actor
  }

  /** UpdateComment.test_func as written: the owner, or any request whose own
      `is_superuser` attribute is set. That attribute is read from the request,
      not from the acting user, so it is a separate input here: None when the
      request has no such attribute, as a stock request does not. The `or`
      reads it only for a non-owner, and reading a missing attribute raises:
      the answer is None then. */
  function UpdateCommentTest(comment: Comment, actor: UserId, requestIsSuperuser: Option<bool>): (r: Option<bool>)
    ensures r.None? <==> comment.user != actor && requestIsSuperuser.None?
    ensures r == Some(true) <==> comment.user == actor || requestIsSuperuser == Some(true)
  {
    if comment.user == actor then Some(true) else requestIsSuperuser
  }

  /** DeleteComment.test_func: only the owner. */
  predicate DeleteCommentAllowed(comment: Comment, actor: UserId)
  {
    comment.user == actor
  }

  /** What a gated view answers and the table it leaves behind. */
  datatype PostsOutcome = PostsOutcome(status: nat, posts: map<PostId, Post>)
  datatype CommentsOutcome = CommentsOutcome(status: nat, comments: map<CommentId, Comment>)

  /** UpdatePost with a valid form: only the owner may replace the content
      and image; the owner, key and timestamp of every post stay as they were. */
  function UpdatePost(posts: map<PostId, Post>, pk: PostId, actor: UserId, content: string, image: Option<string>): (r: PostsOutcome)
    ensures r.status in {FOUND, FORBIDDEN, NOT_FOUND}
    ensures r.status == NOT_FOUND <==> pk !in posts
    ensures r.status == FORBIDDEN <==> pk in posts && posts[pk].user != actor
    ensures r.status != FOUND ==> r.posts == posts
    ensures r.posts.Keys == posts.Keys
    ensures forall k | k in posts ::
      r.posts[k].pk == posts[k].pk && r.posts[k].user == posts[k].user && r.posts[k].created == posts[k].created
    ensures forall k | k in posts && k != pk :: r.posts[k] == posts[k]
    ensures r.status == FOUND ==> r.posts[pk].content == content && r.posts[pk].image == image
  {
    if pk !in posts then PostsOutcome(NOT_FOUND, posts)
    else if !UpdatePostAllowed(posts[pk], actor) then PostsOutcome(FORBIDDEN, posts)
    else PostsOutcome(FOUND, posts[pk := posts[pk].(content := content, image := image)])
  }

  /** DeletePost: only the owner may delete; nothing else is removed here. */
  function DeletePost(posts: map<PostId, Post>, pk: PostId, actor: UserId): (r: PostsOutcome)
    ensures r.status in {FOUND, FORBIDDEN, NOT_FOUND}
    ensures r.status == NOT_FOUND <==> pk !in posts
    ensures r.status == FORBIDDEN <==> pk in posts && posts[pk].user != actor
    ensures r.status != FOUND ==> r.posts == posts
    ensures r.status == FOUND ==> r.posts.Keys == posts.Keys - {pk}
    ensures forall k | k in r.posts :: k in posts && r.posts[k] == posts[k]
  {
    if pk !in posts then PostsOutcome(NOT_FOUND, posts)
    else if !DeletePostAllowed(posts[pk], actor) then PostsOutcome(FORBIDDEN, posts)
    else PostsOutcome(FOUND, posts - {pk})
  }

  /** UpdateComment with a valid form: the owner, or a request flagged as
      superuser, may replace the content; owner and post never change. A
      non-owner's request without the attribute ends in a server error. */
  function UpdateComment(comments: map<CommentId, Comment>, pk: CommentId, actor: UserId, requestIsSuperuser: Option<bool>, content: string): (r: CommentsOutcome)
    ensures r.status in {FOUND, FORBIDDEN, NOT_FOUND, SERVER_ERROR}
    ensures r.status == NOT_FOUND <==> pk !in comments
    ensures r.status == SERVER_ERROR <==> pk in comments && comments[pk].user != actor && requestIsSuperuser.None?
    ensures r.status == FORBIDDEN <==> pk in comments && comments[pk].user != actor && requestIsSuperuser == Some(false)
    ensures r.status != FOUND ==> r.comments == comments
    ensures r.comments.Keys == comments.Keys
    ensures forall k | k in comments ::
      r.comments[k].pk == comments[k].pk && r.comments[k].user == comments[k].user && r.comments[k].post == comments[k].post
    ensures forall k | k in comments && k != pk :: r.comments[k] == comments[k]
    ensures r.status == FOUND ==> r.comments[pk].content == content
  {
    if pk !in comments then CommentsOutcome(NOT_FOUND, comments)
    else
      match UpdateCommentTest(comments[pk], actor, requestIsSuperuser)
      case None => CommentsOutcome(SERVER_ERROR, comments)
      case Some(false) => CommentsOutcome(FORBIDDEN, comments)
      case Some(true) => CommentsOutcome(FOUND, comments[pk := comments[pk].(content := content)])
  }

  /** DeleteComment: only the owner may delete. */
  function DeleteComment(comments: map<CommentId, Comment>, pk: CommentId, actor: UserId): (r: CommentsOutcome)
    ensures r.status in {FOUND, FORBIDDEN, NOT_FOUND}
    ensures r.status == NOT_FOUND <==> pk !in comments
    ensures r.status == FORBIDDEN <==> pk in comments && comments[pk].user != actor
    ensures r.status != FOUND ==> r.comments == comments
    ensures r.status == FOUND ==> r.comments.Keys == comments.Keys - {pk}
    ensures forall k | k in r.comments :: k in comments && r.comments[k] == comments[k]
  {
    if pk !in comments then CommentsOutcome(NOT_FOUND, comments)
    else if !DeleteCommentAllowed(comments[pk], actor) then CommentsOutcome(FORBIDDEN, comments)
    else CommentsOutcome(FOUND, comments - {pk})
  }

  /** A non-owner is refused every update and delete of a post, and of a
      comment when the request's flag is false; the table is left exactly as
      it was. On a request with no flag at all, the comment update fails with
      a server error instead, again with the table unchanged. */
  lemma NonOwnerForbidden(posts: map<PostId, Post>, comments: map<CommentId, Comment>,
                          postPk: PostId, commentPk: CommentId, actor: UserId,
                          content: string, image: Option<string>)
    requires postPk in posts && posts[postPk].user != actor
    requires commentPk in comments && comments[commentPk].user != actor
    ensures UpdatePost(posts, postPk, actor, content, image) == PostsOutcome(FORBIDDEN, posts)
    ensures DeletePost(posts, postPk, actor) == PostsOutcome(FORBIDDEN, posts)
    ensures UpdateComment(comments, commentPk, actor, Some(false), content) == CommentsOutcome(FORBIDDEN, comments)
    ensures UpdateComment(comments, commentPk, actor, None, content) == CommentsOutcome(SERVER_ERROR, comments)
    ensures DeleteComment(comments, commentPk, actor) == CommentsOutcome(FORBIDDEN, comments)
  {
  }

  /** The submitted fields of the post form, including an owner a client may
      try to forge. */
  datatype PostForm = PostForm(content: string, image: Option<string>, user: Option<UserId>)

  /** The submitted fields of the comment form, including a post and an owner
      a client may try to forge. */
  datatype CommentForm = CommentForm(content: string, post: Option<PostId>, user: Option<UserId>)

  /** CreatePost.form_valid: the new post belongs to the actor. The key and
      the timestamp are the store's. */
  function CreatePost(form: PostForm, actor: UserId, pk: PostId, now: int): (p: Post)
    ensures p.user == actor
    ensures p.pk == pk && p.created == now
    ensures p.content == form.content && p.image == form.image
  {
    Post(pk, actor, form.content, form.image, now)
  }

  /** CreateComment.form_valid: 404 when the post named in the path does not
      exist; otherwise the comment is attached to that post and belongs to the
      actor. */
  function CreateComment(posts: set<PostId>, pathPostPk: PostId, actor: UserId, form: CommentForm, pk: CommentId): (r: Option<Comment>)
    ensures r.None? <==> pathPostPk !in posts
    ensures r.Some? ==> r.value.post == pathPostPk && r.value.post in posts
    ensures r.Some? ==> r.value.user == actor && r.value.pk == pk && r.value.content == form.content
  {
    if pathPostPk !in posts then None
    else Some(Comment(pk, actor, pathPostPk, form.content))
  }

  /** Forged `user` and `post` fields change nothing about what is created. */
  lemma ForgedFieldsIgnored(f1: PostForm, f2: PostForm, c1: CommentForm, c2: CommentForm,
                            posts: set<PostId>, pathPostPk: PostId, actor: UserId, pk: nat, now: int)
    requires f1.content == f2.content && f1.image == f2.image
    requires c1.content == c2.content
    ensures CreatePost(f1, actor, pk, now) == CreatePost(f2, actor, pk, now)
    ensures CreateComment(posts, pathPostPk, actor, c1, pk) == CreateComment(posts, pathPostPk, actor, c2, pk)
  {
  }

  /** What the comments next to the other three predicates evidently intend:
      the privilege is the acting user's own `is_superuser`. */
  predicate UpdateCommentAllowedIntended(comment: Comment, actor: User)
  {
    comment.user == actor.id || actor.isSuperuser
  }

  /** UpdateComment with the privilege read from the acting user: a superuser
      may edit every comment, anyone else only their own. */
  function UpdateCommentIntended(comments: map<CommentId, Comment>, pk: CommentId, actor: User, content: string): (r: CommentsOutcome)
    ensures r.status in {FOUND, FORBIDDEN, NOT_FOUND}
    ensures r.status == NOT_FOUND <==> pk !in comments
    ensures actor.isSuperuser ==> r.status != FORBIDDEN
    ensures !actor.isSuperuser && pk in comments ==> (r.status == FOUND <==> comments[pk].user == actor.id)
    ensures r.status != FOUND ==> r.comments == comments
    ensures r.comments.Keys == comments.Keys
    ensures forall k | k in comments && k != pk :: r.comments[k] == comments[k]
    ensures r.status == FOUND ==> r.comments[pk] == comments[pk].(content := content)
  {
    if pk !in comments then CommentsOutcome(NOT_FOUND, comments)
    else if !UpdateCommentAllowedIntended(comments[pk], actor) then CommentsOutcome(FORBIDDEN, comments)
    else CommentsOutcome(FOUND, comments[pk := comments[pk].(content := content)])
  }

  /** The two readings agree whenever the request carries the actor's own flag. */
  lemma IntendedAgreesWhenFlagIsActors(comments: map<CommentId, Comment>, pk: CommentId, actor: User, content: string)
    ensures UpdateComment(comments, pk, actor.id, Some(actor.isSuperuser), content)
         == UpdateCommentIntended(comments, pk, actor, content)
  {
  }

  /** As written, a superuser editing someone else's comment gets a server
      error on a request without the attribute, and 403 on one whose attribute
      is false, while the intended reading lets them through. */
  lemma SuperuserRefusedAsWritten()
    ensures var c := Comment(1, 1, 1, "first");
      var admin := User(2, "admin@example.com", "Ada", "Min", {}, true);
      var comments := map[1 := c];
      && UpdateComment(comments, 1, admin.id, None, "edited").status == SERVER_ERROR
      && UpdateComment(comments, 1, admin.id, Some(false), "edited").status == FORBIDDEN
      && UpdateCommentIntended(comments, 1, admin, "edited").status == FOUND
  {
  }
}
