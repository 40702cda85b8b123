/** The Like table as the `like` and `dislike` views update it: one object
    holding the keys of the existing posts and the Like rows, whose methods
    write a single row in place. Each method's new state is the one the rules
    in module Likes give, so every lemma proved there holds of the store. */
module LikeStore {
  import opened Types
  import opened Likes

  class LikeTable {
    /** Primary keys of the posts that exist. */
    var posts: set<PostId>
    /** The Like rows, one per (user, post) pair. */
    var rows: Rows

    /** Every row refers to an existing post. It is carried as an invariant
        of the store, mirroring the database's foreign key: the constructor
        establishes it and both methods keep it, but no other contract here
        depends on it. */
    ghost predicate Valid()
      reads this
    {
      RowsReferTo(rows, posts)
    }

    /** A table over the given posts with no Like rows yet. */
    constructor (posts: set<PostId>)
      ensures Valid()
      ensures this.posts == posts && rows == map[]
    {
      this.posts := posts;
      rows := map[];
    }

    /** The `like` view for the authenticated `user`: get-or-create the row,
        then set its flag. */
    method Like(user: UserId, post: PostId) returns (status: nat)
      requires Valid()
      modifies this`rows
      ensures Valid()
      ensures status == LikeOutcome(posts, old(rows), user, post).status
      ensures rows == LikeOutcome(posts, old(rows), user, post).rows
      ensures post !in posts ==> status == NOT_FOUND && rows == old(rows)
      ensures post in posts && (user, post) !in old(rows) ==>
        status == CREATED && rows == old(rows)[(user, post) := true]
      ensures post in posts && (user, post) in old(rows) ==>
        status == OK && rows == old(rows)[(user, post) := true]
    {
      if post !in posts {
        return NOT_FOUND;
      }
      var key := (user, post);
      var created := key !in rows;
      rows := rows[key := true];
      OutcomesKeepRowsReferTo(posts, old(rows), user, post);
      status := if created then CREATED else OK;
    }

    /** The `dislike` view for the authenticated `user`: look up the post and
        the row, each a 404 when missing, then clear the row's flag. */
    method Dislike(user: UserId, post: PostId) returns (status: nat)
      requires Valid()
      modifies this`rows
      ensures Valid()
      ensures status == DislikeOutcome(posts, old(rows), user, post).status
      ensures rows == DislikeOutcome(posts, old(rows), user, post).rows
      ensures post !in posts || (user, post) !in old(rows) ==>
        status == NOT_FOUND && rows == old(rows)
      ensures post in posts && (user, post) in old(rows) ==>
        status == OK && rows == old(rows)[(user, post) := false]
    {
      if post !in posts {
        return NOT_FOUND;
      }
      var key := (user, post);
      if key !in rows {
        return NOT_FOUND;
      }
      rows := rows[key := false];
      OutcomesKeepRowsReferTo(posts, old(rows), user, post);
      status := OK;
    }
  }

  /** Two likes from the same user through the store: 201, then 200, and one
      active row for the pair. */
  method LikeTwiceThroughStore(table: LikeTable, user: UserId, post: PostId)
    returns (first: nat, second: nat)
    requires table.Valid()
    requires post in table.posts && (user, post) !in table.rows
    modifies table
    ensures table.Valid()
    ensures first == CREATED && second == OK
    ensures table.rows == old(table.rows)[(user, post) := true]
  {
    first := table.Like(user, post);
    second := table.Like(user, post);
  }
}
