/** The rules of the Like table: what `like` and `dislike` do to it, and the
    two aggregates the post detail view computes from it. The table is keyed
    by the (user, post) pair, so it holds at most one row per pair; a row
    stores the boolean `like` flag and is never deleted, only flipped. */
module Likes {
  import opened Types

  /** The key of a Like row. */
  type Key = (UserId, PostId)

  /** The Like table: one flag per (user, post) pair that has a row. */
  type Rows = map<Key, bool>

  /** Foreign key: every Like row refers to a post that exists. */
  ghost predicate RowsReferTo(rows: Rows, posts: set<PostId>)
  {
    forall k | k in rows :: k.1 in posts
  }

  /** What a view answers and the table it leaves behind. */
  datatype Outcome = Outcome(status: nat, rows: Rows)

  /** `like`: 404 for a missing post; otherwise an upsert of the (user, post)
      row with flag true, answering 201 when it inserted the row and 200 when
      it updated an existing one (even one already true). */
  function LikeOutcome(posts: set<PostId>, rows: Rows, user: UserId, post: PostId): (r: Outcome)
    ensures r.status in {OK, CREATED, NOT_FOUND}
    ensures r.status == NOT_FOUND <==> post !in posts
    ensures r.status == CREATED <==> post in posts && (user, post) !in rows
    ensures r.status == NOT_FOUND ==> r.rows == rows
    ensures r.status != NOT_FOUND ==> (user, post) in r.rows && r.rows[(user, post)]
    ensures r.rows.Keys == if r.status == CREATED then rows.Keys + {(user, post)} else rows.Keys
    ensures |r.rows| == if r.status == CREATED then |rows| + 1 else |rows|
    ensures forall k | k in rows && k != (user, post) :: r.rows[k] == rows[k]
  {
    if post !in posts then Outcome(NOT_FOUND, rows)
    else if (user, post) in rows then Outcome(OK, rows[(user, post) := true])
    else Outcome(CREATED, rows[(user, post) := true])
  }

  /** `dislike`: 404 for a missing post or a missing row (no row is ever
      created); otherwise the row's flag becomes false and the answer is 200. */
  function DislikeOutcome(posts: set<PostId>, rows: Rows, user: UserId, post: PostId): (r: Outcome)
    ensures r.status in {OK, NOT_FOUND}
    ensures r.status == NOT_FOUND <==> post !in posts || (user, post) !in rows
    ensures r.status == NOT_FOUND ==> r.rows == rows
    ensures r.status == OK ==> (user, post) in r.rows && !r.rows[(user, post)]
    ensures r.rows.Keys == rows.Keys
    ensures forall k | k in rows && k != (user, post) :: r.rows[k] == rows[k]
  {
    if post !in posts then Outcome(NOT_FOUND, rows)
    else if (user, post) !in rows then Outcome(NOT_FOUND, rows)
    else Outcome(OK, rows[(user, post) := false])
  }

  /** The rows of `post` whose flag is true. */
  function ActiveRows(rows: Rows, post: PostId): set<Key>
  {
    set k | k in rows && k.1 == post && rows[k]
  }

  /** The `like_count` annotation: the post's rows with flag true. */
  function LikeCount(rows: Rows, post: PostId): nat
  {
    |ActiveRows(rows, post)|
  }

  /** The `liked_by_user` annotation: the actor's rows of the post with flag true. */
  function LikedByUser(rows: Rows, post: PostId, user: UserId): nat
  {
    |set k | k in ActiveRows(rows, post) && k.0 == user|
  }

  /** The users with an active like on `post`. */
  function Likers(rows: Rows, post: PostId): set<UserId>
  {
    set k | k in rows && k.1 == post && rows[k] :: k.0
  }

  /** Whether `user` has an active like on `post`. */
  predicate Active(rows: Rows, user: UserId, post: PostId)
  {
    (user, post) in rows && rows[(user, post)]
  }

  /** `liked_by_user` is 1 exactly when the actor's row for the post is active,
      and 0 otherwise: one row per pair makes the count a flag. */
  lemma LikedByUserIsFlag(rows: Rows, post: PostId, user: UserId)
    ensures LikedByUser(rows, post, user) == if Active(rows, user, post) then 1 else 0
    ensures LikedByUser(rows, post, user) <= LikeCount(rows, post)
  {
    var mine := set k | k in ActiveRows(rows, post) && k.0 == user;
    if Active(rows, user, post) {
      assert mine == {(user, post)};
    } else {
      assert mine == {};
    }
    assert mine <= ActiveRows(rows, post);
    SubsetCard(mine, ActiveRows(rows, post));
  }

  lemma SubsetCard<T>(a: set<T>, b: set<T>)
    requires a <= b
    ensures |a| <= |b|
  {
    assert b == a + (b - a);
  }

  /** What the post detail view shows about the likes of a post. */
  datatype Detail = Detail(post: Post, likeCount: nat, likedByUser: nat)

  /** The post detail query for the authenticated `user`: 404 (None) when the
      key matches no post; otherwise the post with its two like aggregates. */
  function PostDetail(posts: map<PostId, Post>, rows: Rows, pk: PostId, user: UserId): (r: Option<Detail>)
    ensures r.None? <==> pk !in posts
    ensures r.Some? ==> r.value.post == posts[pk]
    ensures r.Some? ==> r.value.likeCount == |Likers(rows, pk)|
    ensures r.Some? ==> r.value.likedByUser == if Active(rows, user, pk) then 1 else 0
    ensures r.Some? ==> r.value.likedByUser <= r.value.likeCount
  {
    if pk !in posts then None
    else
      LikedByUserIsFlag(rows, pk, user);
      LikeCountCountsUsers(rows, pk);
      Some(Detail(posts[pk], LikeCount(rows, pk), LikedByUser(rows, pk, user)))
  }

  /** One row per pair: the post's active rows are as many as the users who
      like it. */
  lemma LikeCountCountsUsers(rows: Rows, post: PostId)
    ensures LikeCount(rows, post) == |Likers(rows, post)|
  {
    var users := Likers(rows, post);
    var keys := ActiveRows(rows, post);
    assert keys == KeysOf(users, post);
    InjectiveImageCard(users, post);
  }

  /** The keys of `post`'s rows for the given users. */
  function KeysOf(users: set<UserId>, post: PostId): set<Key>
  {
    set u | u in users :: (u, post)
  }

  lemma {:induction false} InjectiveImageCard(users: set<UserId>, post: PostId)
    ensures |KeysOf(users, post)| == |users|
    decreases |users|
  {
    if users != {} {
      var u :| u in users;
      var rest := users - {u};
      InjectiveImageCard(rest, post);
      assert KeysOf(users, post) == KeysOf(rest, post) + {(u, post)};
    }
  }

  /** Setting one row's flag changes only that post's active rows, by that row. */
  lemma ActiveRowsAfterSet(rows: Rows, key: Key, flag: bool, p: PostId)
    ensures ActiveRows(rows[key := flag], p) ==
      if key.1 != p then ActiveRows(rows, p)
      else if flag then ActiveRows(rows, p) + {key}
      else ActiveRows(rows, p) - {key}
  {
  }

  /** After `like` on an existing post, its like count grows by one unless the
      actor's row was already active; every other post keeps its count. */
  lemma LikeCountAfterLike(posts: set<PostId>, rows: Rows, user: UserId, post: PostId, other: PostId)
    requires post in posts
    ensures var after := LikeOutcome(posts, rows, user, post).rows;
      LikeCount(after, post) == LikeCount(rows, post) + (if Active(rows, user, post) then 0 else 1)
    ensures other != post ==> LikeCount(LikeOutcome(posts, rows, user, post).rows, other) == LikeCount(rows, other)
  {
    var key := (user, post);
    assert LikeOutcome(posts, rows, user, post).rows == rows[key := true];
    ActiveRowsAfterSet(rows, key, true, post);
    ActiveRowsAfterSet(rows, key, true, other);
    if Active(rows, user, post) {
      assert ActiveRows(rows, post) + {key} == ActiveRows(rows, post);
    } else {
      assert key !in ActiveRows(rows, post);
    }
  }

  /** After a successful `dislike`, the post's like count drops by one when the
      actor's row was active and stays otherwise; other posts keep their count. */
  lemma LikeCountAfterDislike(posts: set<PostId>, rows: Rows, user: UserId, post: PostId, other: PostId)
    requires post in posts && (user, post) in rows
    ensures var after := DislikeOutcome(posts, rows, user, post).rows;
      LikeCount(after, post) == LikeCount(rows, post) - (if Active(rows, user, post) then 1 else 0)
    ensures other != post ==> LikeCount(DislikeOutcome(posts, rows, user, post).rows, other) == LikeCount(rows, other)
  {
    var key := (user, post);
    assert DislikeOutcome(posts, rows, user, post).rows == rows[key := false];
    ActiveRowsAfterSet(rows, key, false, post);
    ActiveRowsAfterSet(rows, key, false, other);
    if Active(rows, user, post) {
      assert key in ActiveRows(rows, post);
    } else {
      assert ActiveRows(rows, post) - {key} == ActiveRows(rows, post);
    }
  }

  /** Liking twice in a row from the same user leaves exactly one row, with
      flag true; the first call answers 201 and the second 200. */
  lemma LikeTwice(posts: set<PostId>, rows: Rows, user: UserId, post: PostId)
    requires post in posts && (user, post) !in rows
    ensures var first := LikeOutcome(posts, rows, user, post);
      var second := LikeOutcome(posts, first.rows, user, post);
      && first.status == CREATED
      && second.status == OK
      && second.rows == first.rows
      && second.rows.Keys == rows.Keys + {(user, post)}
      && |second.rows| == |rows| + 1
      && Active(second.rows, user, post)
  {
  }

  /** `like` is idempotent on the table. */
  lemma LikeIdempotent(posts: set<PostId>, rows: Rows, user: UserId, post: PostId)
    ensures var once := LikeOutcome(posts, rows, user, post).rows;
      LikeOutcome(posts, once, user, post).rows == once
  {
  }

  /** Re-liking after a dislike updates the existing row instead of adding a
      duplicate: the table has the same keys as before the dislike, with the
      flag true again, and the answer is 200. */
  lemma LikeAfterDislike(posts: set<PostId>, rows: Rows, user: UserId, post: PostId)
    requires post in posts && (user, post) in rows
    ensures var off := DislikeOutcome(posts, rows, user, post);
      var on := LikeOutcome(posts, off.rows, user, post);
      && off.status == OK && !Active(off.rows, user, post)
      && on.status == OK && Active(on.rows, user, post)
      && on.rows == rows[(user, post) := true]
  {
  }

  /** Disliking a post the user never liked is a 404 and adds no row. */
  lemma DislikeWithoutRow(posts: set<PostId>, rows: Rows, user: UserId, post: PostId)
    requires (user, post) !in rows
    ensures var r := DislikeOutcome(posts, rows, user, post);
      r.status == NOT_FOUND && r.rows == rows && (user, post) !in r.rows
  {
  }

  /** Neither view breaks the foreign key from Like rows to posts. */
  lemma OutcomesKeepRowsReferTo(posts: set<PostId>, rows: Rows, user: UserId, post: PostId)
    requires RowsReferTo(rows, posts)
    ensures RowsReferTo(LikeOutcome(posts, rows, user, post).rows, posts)
    ensures RowsReferTo(DislikeOutcome(posts, rows, user, post).rows, posts)
  {
  }
}
