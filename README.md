# Photo-sharing views: a Dafny model

This project models the request logic of a small Django photo-sharing
application (users follow each other, post images, comment, and like posts)
together with the cookie lookup its page script uses to fetch the CSRF token.

- **Like table** (`likes.dfy`, `like_store.dfy`). The Like table is keyed by
  the (user, post) pair and stores a boolean flag. `like` is an upsert: it
  inserts a row with flag true (201) or sets an existing row's flag to true
  (200). `dislike` only clears the flag of an existing row (200). A missing
  post, or for `dislike` a missing row, gives 404 and changes nothing.
  `LikeStore.LikeTable` is the table as an object whose `Like` and `Dislike`
  methods write one row of a `map` in place. Their new state is the one given
  by the pure rules in module `Likes`, and the lemmas there are proved about
  those rules. The post detail aggregates `like_count` and `liked_by_user` are
  functions of the table.
- **Feed** (`feed.dfy`). This is the posts whose owner the actor follows,
  newest first: a filter over the post table followed by a stable insertion
  sort.
- **Search** (`search.dfy`). An absent `q` gives no users. A present phrase
  keeps the users whose email, first name or last name contains it, ignoring
  ASCII case.
- **Ownership and creation** (`permissions.dfy`). These are the `test_func`
  predicates of the update and delete views. The gated operations answer 404
  for a missing object, 403 when the predicate fails, and otherwise make the
  change and redirect (302). Creating a post or a comment forces the owner to
  the actor, and forces a comment's post to the one named in the URL.
- **getCookie** (`cookie.dfy`). The `document.cookie` string is split on `;`
  and each piece is trimmed. The value comes from the first piece that starts
  with `name=`, passed through `decodeURIComponent`; the result is null if no
  piece matches. `split`, `trim` and `substring` are written out with their
  ECMAScript meaning. `GetCookie` is the imperative loop with its early
  `break`, proved against the function `CookieValue`.

Points where the code behaves differently from what a reader might expect:

- The search code special-cases only an absent `q`. A present empty phrase
  therefore matches every user, not none (`Search.EmptyPhraseKeepsEveryone`).
- Updating or deleting a post, and deleting a comment, are allowed to the
  owner only. The superuser clauses at photos/views.py:188, 200 and 251 are
  commented out.
- Updating a comment reads `self.request.is_superuser`, an attribute of the
  request rather than of the acting user (photos/views.py:239). The model
  takes it as a separate input of type `Option<bool>` and keeps this reading
  in `Permissions.UpdateComment`. A stock Django request object has no such
  attribute (None). Because `or` short-circuits, the attribute is read only
  for a non-owner. On such a request a non-owner's edit raises
  `AttributeError`, which the model answers as a server error (500),
  superuser or not. A 403 comes only from a request whose attribute is false.

## Model

| member | source | states |
|---|---|---|
| `Likes.LikeOutcome` | photos/views.py:122-146 | 404 and an unchanged table exactly when the post is missing. Otherwise the (user, post) row exists afterwards with flag true. The answer is 201 exactly when that row was new, in which case the table gains exactly one key. Every other row keeps its flag. |
| `Likes.DislikeOutcome` | photos/views.py:149-156 | 404 and an unchanged table when the post or the (user, post) row is missing. Otherwise 200 with that row's flag false. The set of keys never changes (no row is created or deleted), and every other row keeps its flag. |
| `Likes.PostDetail` | photos/views.py:64-71 | 404 (None) exactly when the key matches no post. Otherwise it gives the post, `like_count` equal to the number of users with an active like on it, and `liked_by_user` equal to 1 if the actor's row is active and 0 otherwise, never more than `like_count`. |
| `Likes.LikedByUserIsFlag` | photos/views.py:65-71 | With one row per pair, the `liked_by_user` count is exactly the actor's flag (0 or 1) and at most the `like_count`. |
| `Likes.LikeCountCountsUsers` | photos/views.py:70 | `like_count` (active rows of the post) equals the number of distinct users who like the post. |
| `Likes.LikeCountAfterLike` | photos/views.py:135-144 | A `like` on an existing post raises its like count by one unless the actor's row was already active. Every other post's count is unchanged. |
| `Likes.LikeCountAfterDislike` | photos/views.py:152-156 | A successful `dislike` lowers the post's like count by one if the actor's row was active and leaves it otherwise. Every other post's count is unchanged. |
| `Likes.LikeTwice` | photos/views.py:135-146 | Liking twice with no prior row answers 201 then 200. The result is exactly one new row, flag true; the second call changes nothing. |
| `Likes.LikeIdempotent` | photos/views.py:141-144 | A second `like` leaves the table as the first one left it. |
| `Likes.LikeAfterDislike` | photos/views.py:141-144 | Re-liking after a dislike answers 200 and reactivates the same row; no duplicate row is created. |
| `Likes.DislikeWithoutRow` | photos/views.py:153 | Disliking without a row is 404 and creates no row. |
| `Likes.OutcomesKeepRowsReferTo` | photos/views.py:126-139 | Neither view creates a Like row for a post that does not exist. |
| `LikeStore.LikeTable.Like` | photos/views.py:122-146 | Writes the table in place. 404 with the table unchanged for a missing post; 201 after inserting the row with flag true; 200 after setting an existing row to true. The posts and the foreign-key invariant are kept. |
| `LikeStore.LikeTable.Dislike` | photos/views.py:149-156 | Writes the table in place. 404 with the table unchanged for a missing post or row; otherwise 200 with only that row's flag set to false. |
| `LikeStore.LikeTwiceThroughStore` | photos/views.py:135-146 | Through the object, two likes from one user answer 201 then 200 and leave exactly one active row for the pair. |
| `Feed.Followed` | photos/views.py:55-56 | Holds each post owned by a followed user exactly as often as the table does, and no other post. |
| `Feed.SortNewestFirst` | photos/views.py:57 | The result is a permutation of its input, in non-increasing creation-timestamp order. |
| `Feed.FeedOf` | photos/views.py:54-57 | The feed is in non-increasing timestamp order and holds exactly the table's posts whose owner the actor follows, with their multiplicity. |
| `Feed.FeedMembership` | photos/views.py:55-56 | A post is in the feed if and only if it is in the table and its owner is followed by the actor. |
| `Feed.FeedExcludesOwnPosts` | photos/views.py:55-56 | An actor who does not follow themself never sees their own posts in the feed. |
| `Feed.FeedOfNoFollowing` | photos/views.py:55-56 | Following nobody gives an empty feed. |
| `Search.Contains` | photos/views.py:110-112 | True if and only if the needle occurs at some index of the haystack. |
| `Search.SearchUsers` | photos/views.py:102-114 | An absent phrase gives no users. A present phrase gives exactly the table's users whose email, first name or last name contains it ignoring case, each as often as the table holds it (no duplicates are introduced). It never gives more users than the table holds. |
| `Search.Filter` | photos/views.py:109-114 | Keeps exactly the users matching the phrase on one of the three fields, each with its multiplicity in the table, and no others. |
| `Search.EmptyPhraseKeepsEveryone` | photos/views.py:104-114 | A present empty phrase returns every user, in table order. |
| `Search.SearchIgnoresCase` | photos/views.py:110-112 | Two phrases that are equal up to ASCII case find the same users. |
| `Search.FieldCaseIgnored` | photos/views.py:110-112 | Lower-casing a user's field does not change whether it matches. |
| `Permissions.UpdatePost` | photos/views.py:185-187 | 404 exactly when the post is missing. 403 exactly when it exists and the actor is not its owner. On refusal the table is unchanged. On success only that post's content and image change. No post's key, owner or timestamp ever changes. |
| `Permissions.DeletePost` | photos/views.py:197-199 | 404 when missing and 403 for a non-owner, with the table unchanged. Otherwise exactly that post is removed and every other post is untouched. |
| `Permissions.UpdateCommentTest` | photos/views.py:237-239 | Raises (None) exactly when the actor is not the owner and the request has no `is_superuser` attribute. Allows exactly the owner, or a request whose attribute is true. |
| `Permissions.UpdateComment` | photos/views.py:237-239 | 404 when missing. 500 exactly when a non-owner's request has no `is_superuser` attribute. 403 exactly when a non-owner's request has the attribute false. In both refusals the table is unchanged. On success only the content changes, and no comment's owner or post changes. |
| `Permissions.DeleteComment` | photos/views.py:248-250 | 404 when missing and 403 for a non-owner, with the table unchanged. Otherwise exactly that comment is removed. |
| `Permissions.NonOwnerForbidden` | photos/views.py:185-250 | A non-owner gets 403 from all four gated views, and each table is left exactly as it was. For the comment update this holds when the request's attribute is false; without the attribute the answer is 500, also with the table unchanged. |
| `Permissions.CreatePost` | photos/views.py:169-171 | The new post's owner is the actor. Content and image come from the form. |
| `Permissions.CreateComment` | photos/views.py:218-221 | 404 (None) exactly when the post named in the path does not exist. Otherwise the comment is attached to that post and owned by the actor. |
| `Permissions.ForgedFieldsIgnored` | photos/views.py:169-221 | Forged `user` or `post` values in the submitted form change nothing about the created post or comment. |
| `Permissions.UpdateCommentIntended` | photos/views.py:239 | Corrected gate that reads the acting user's own flag. A superuser is never refused; anyone else succeeds exactly on their own comment; a refusal leaves the table unchanged. |
| `Permissions.IntendedAgreesWhenFlagIsActors` | photos/views.py:239 | The as-written and corrected gates agree whenever the request's attribute exists and equals the actor's own superuser flag. |
| `Permissions.SuperuserRefusedAsWritten` | photos/views.py:239 | A superuser editing someone else's comment is allowed by the corrected gate. As written, the edit fails with 500 on a request without the attribute and with 403 on a request whose attribute is false. |
| `Cookie.GetCookie` | photos/static/photos/style.js:1-15 | The loop with early exit returns exactly `CookieValue` of the header. |
| `Cookie.CookieValue` | photos/static/photos/style.js:2-14 | Null for an empty header. Otherwise null if and only if no trimmed piece matches; a match never yields null. |
| `Cookie.FirstMatch` | photos/static/photos/style.js:5-11 | Gives the index of a matching trimmed piece such that no earlier piece matches, or None if and only if no piece matches. |
| `Cookie.FirstMatchWins` | photos/static/photos/style.js:5-11 | When piece i is the first match, the result is the decoding of that trimmed piece with its `name=` removed. |
| `Cookie.Matches` | photos/static/photos/style.js:8 | The clamped `substring(0, name.length + 1) === name + '='` test holds exactly when `name=` is a prefix of the piece. |
| `Cookie.Rest` | photos/static/photos/style.js:9 | For a matching piece, the piece is `name=` followed by the returned value. |
| `Cookie.Decode` | photos/static/photos/style.js:9 | Decoding a found value never yields null: it gives a value or the decoder's URIError. |
| `Cookie.LongerNameDoesNotMatch` | photos/static/photos/style.js:8 | A piece that starts with the name followed by anything other than `=` does not match. |
| `Cookie.CsrftokenXIsNotCsrftoken` | photos/static/photos/style.js:8 | `csrftokenX=abc` is not the `csrftoken` cookie. |
| `Cookie.Split` | photos/static/photos/style.js:4 | Gives at least one piece, and no piece contains the separator. |
| `Cookie.JoinSplit` | photos/static/photos/style.js:4 | Joining the pieces with the separator gives back the header. |
| `Cookie.SplitJoin` | photos/static/photos/style.js:4 | Splitting a join of separator-free pieces gives back the pieces. |
| `Cookie.Trim` | photos/static/photos/style.js:6 | The result is a slice of the input that starts after its leading white space and neither begins nor ends with white space. Everything after it in the input is white space, so only leading and trailing white space is dropped. |
| `Cookie.LeadingSpaceIgnored` | photos/static/photos/style.js:4-6 | White space before a piece, as after `; `, does not change the trimmed piece, so it does not prevent a match. |
| `Cookie.EmptyCookieIsNull` | photos/static/photos/style.js:2-3 | An empty header gives null. |

## Findings

| source | as written | input that shows it | evidently intended | confidence | as-written member | corrected member |
|---|---|---|---|---|---|---|
| photos/views.py:239 | the superuser privilege is read from `self.request.is_superuser`, an attribute of the request, not of the acting user | a superuser updates another user's comment. On a stock request, which has no such attribute, the view raises `AttributeError`: 500. On a request whose attribute is false: 403 | `self.request.user.is_superuser`, as the commented-out clauses at lines 188, 200 and 251 read | not executed; medium | `Permissions.SuperuserRefusedAsWritten` | `Permissions.UpdateCommentIntended` |

`Permissions.UpdateComment` keeps the as-written reading, because callers may
depend on it. `Permissions.IntendedAgreesWhenFlagIsActors` shows that the two
readings differ only when the request's attribute is missing or differs from
the actor's own flag.

## Left out

- Django plumbing is not modelled: class-based view dispatch, template rendering, `render`, `redirect`, `reverse_lazy`, success URLs, `get_context_data` titles, and `select_related` / `prefetch_related` (including the comments shown on the post detail page).
- `RegisterView`, `index` and the user profile view are not modelled. Authentication, login and sessions are external.
- `login_required` and `require_POST` are not modelled as behaviour. Every actor is an authenticated `UserId`, and only POST requests reach `like` and `dislike`. The `request.method == "POST"` test at photos/views.py:125 is therefore always true, and its missing else branch is not modelled.
- The post detail view for an anonymous visitor is not modelled, because the aggregates take an authenticated actor.
- Atomicity of `get_or_create` and the database uniqueness constraint are not modelled. One request is processed at a time, and the `map` keyed by (user, post) gives one row per pair by construction.
- Cascade deletion of a post's comments and likes is not modelled. It is a schema rule, not code in the views; `Permissions.DeletePost` removes only the post row.
- Form validation is not modelled. The gated updates and the creations model only the valid-form path. The cleaned content and image replace the old ones, so the rule that an omitted upload keeps the stored file is not modelled.
- Primary keys and creation timestamps are assigned by the store, so they are parameters. Timestamps are opaque integers.
- `icontains` uses ASCII case folding only; Unicode case folding is not modelled.
- `decodeURIComponent` is a foreign call, modelled as a parameter `decode`; None stands for the URIError it throws.
- String lengths in `Cookie` count code points, whereas JavaScript counts UTF-16 code units. The two agree for cookie names without astral characters.
- The rest of style.js is not modelled: DOM lookups, event listeners, the `fetch` in `like_request` and `console.log`. These are UI and network code.
- `Feed.FeedOf` does not state the order of posts that have equal timestamps. The database leaves that order unspecified; the model's sort keeps table order.
