/** The feed query: the posts whose owner the actor follows, newest first.
    The post table is a sequence in the store's default order. */
module Feed {
  import opened Types

  /** Non-increasing creation timestamps. */
  ghost predicate NewestFirst(s: seq<Post>)
  {
    forall i, j :: 0 <= i < j < |s| ==> s[i].created >= s[j].created
  }

  /** The `filter(user__in=following)` part: the posts owned by a followed
      user, each as often as the table holds it, in table order. */
  function Followed(posts: seq<Post>, following: set<UserId>): (r: seq<Post>)
    ensures forall p :: multiset(r)[p] == if p.user in following then multiset(posts)[p] else 0
    ensures forall p :: p in r <==> p in posts && p.user in following
  {
    if posts == [] then []
    else
      var rest := Followed(posts[1..], following);
      assert posts == [posts[0]] + posts[1..];
      if posts[0].user in following then [posts[0]] + rest else rest
  }

  /** Puts `p` into a newest-first sequence, before the posts no newer than it. */
  function Insert(p: Post, s: seq<Post>): (r: seq<Post>)
    requires NewestFirst(s)
    ensures NewestFirst(r)
    ensures multiset(r) == multiset(s) + multiset{p}
  {
    if s == [] then [p]
    else if p.created >= s[0].created then [p] + s
    else
      var rest := Insert(p, s[1..]);
      assert s == [s[0]] + s[1..];
      InsertKeepsHead(p, s, rest);
      [s[0]] + rest
  }

  /** The head of a newest-first `s` may precede what inserting an older `p`
      into the rest of `s` gives. */
  lemma InsertKeepsHead(p: Post, s: seq<Post>, rest: seq<Post>)
    requires s != [] && NewestFirst(s) && p.created < s[0].created
    requires NewestFirst(rest) && multiset(rest) == multiset(s[1..]) + multiset{p}
    ensures NewestFirst([s[0]] + rest)
  {
    forall i | 0 <= i < |rest|
      ensures rest[i].created <= s[0].created
    {
      assert rest[i] in multiset(rest);
      if rest[i] != p {
        assert rest[i] in multiset(s[1..]);
        var j :| 0 <= j < |s[1..]| && s[1..][j] == rest[i];
        assert s[j + 1] == rest[i];
      }
    }
  }

  /** The `order_by("-created_timestamp")` part: a stable sort, newest first. */
  function SortNewestFirst(s: seq<Post>): (r: seq<Post>)
    ensures NewestFirst(r)
    ensures multiset(r) == multiset(s)
  {
    if s == [] then []
    else
      assert s == [s[0]] + s[1..];
      Insert(s[0], SortNewestFirst(s[1..]))
  }

  /** FeedView's query for the authenticated `actor`. */
  function FeedOf(posts: seq<Post>, actor: User): (r: seq<Post>)
    ensures NewestFirst(r)
    ensures forall p :: multiset(r)[p] == if p.user in actor.following then multiset(posts)[p] else 0
  {
    SortNewestFirst(Followed(posts, actor.following))
  }

  /** A post is in the feed exactly when it is in the table and its owner is
      followed by the actor. */
  lemma FeedMembership(posts: seq<Post>, actor: User, p: Post)
    ensures p in FeedOf(posts, actor) <==> p in posts && p.user in actor.following
  {
  }

  /** The actor's own posts are never in the feed unless the actor follows
      itself. */
  lemma FeedExcludesOwnPosts(posts: seq<Post>, actor: User, p: Post)
    requires actor.id !in actor.following
    requires p.user == actor.id
    ensures p !in FeedOf(posts, actor)
  {
  }

  /** Following nobody gives an empty feed, not an error. */
  lemma FeedOfNoFollowing(posts: seq<Post>, actor: User)
    requires actor.following == {}
    ensures FeedOf(posts, actor) == []
  {
  }
}
