# Yatube content rules in Dafny

A model of the content logic of the Yatube blog (a Django app). It covers
the posts views and the page slicing helper. The content store holds posts,
comments and follow rows. It is a Dafny class, `Blog.Blog`, whose methods
mirror the views that write: `post_create`, `post_edit`, `add_comment`,
`profile_follow` and `profile_unfollow`. The reading views (`group_posts`,
`profile`, `post_detail`, `follow_index`) are functions over that state,
built on pure selection functions. The index view is a method because it
updates its 20-second page cache. The cache uses an explicit integer clock.

Modules, leaf to root:

- `Types` (types.dfy): posts, comments, follow rows, post-form fields, `Option`.
- `Paging` (paging.dfy): `POSTS_COUNT` and the page slice. Pages are
  1-based. Page k is the slice that starts at (k - 1) * 10. `Chunks` is an
  independent reference for the whole pagination.
- `FollowGraph` (follow_graph.dfy): the follow table as a sequence of rows,
  so that "no self-follow" and "at most one row per pair" are invariants the
  views must keep, and `Follow.objects.count()` is the length of the table.
  It also holds the effect of following and of unfollowing, and the
  profile's `following` flag.
- `Feeds` (feeds.dfy): the selection behind each listing, the following feed,
  the relational join the following feed runs (one copy of a post per
  matching follow row), post lookup by id, the comments of a post, the
  shortened title and the `imposter` flag.
- `Blog` (blog.dfy): the store class, its invariant `Valid()`, and the views.
- `Scenarios` (scenarios.dfy): sequences of requests that reproduce what the
  repository's tests expect. They cover follow counts, feeds after a new
  post, group listings, comments, index staleness and the eleven-post
  paging.

A request is reduced to the parts the views read:

- the requester, `None` for an anonymous visitor;
- whether the form was submitted (`request.method == 'POST'`);
- the fields a form yields, and whether it validated (an input boolean);
- the page number;
- for the index, the current time.

`login_required` becomes the `RedirectToLogin` response, or `LoginPage` for
the following feed. `get_object_or_404` becomes `NotFound` or `NotFoundPage`.
An authenticated requester is required to be a registered user. Users and
groups are given to the constructor. Creating them (sign-up, admin) is
outside this model.

## Model

| member | source | states |
|---|---|---|
| Paging.NumPages | yatube/posts/utils.py:3-9 | a listing of n items has at least one page and just enough pages of 10 to hold it |
| Paging.Page | yatube/posts/utils.py:6-10 | page k holds at most 10 items; all pages except the last are full; item i of page k is item (k-1)*10+i of the listing |
| Paging.ChunksCount | yatube/posts/utils.py:7-9 | the reference chunking has exactly one chunk per page |
| Paging.ChunksArePages | yatube/posts/utils.py:7-9 | page k equals the k-th chunk of 10 consecutive items |
| Paging.PagesCoverListing | yatube/posts/utils.py:7-9 | the pages read one after another give back the listing: each item once, in order |
| Paging.IndexOnExactlyOnePage | yatube/posts/utils.py:7-9 | item i lies on page k exactly when k = i/10 + 1, so the pages are disjoint and cover every item |
| Paging.OneMoreThanAPage | yatube/posts/utils.py:3-9 | 11 items give 2 pages: page 1 holds 10 and page 2 holds the last item |
| Paging.NumPagesShift | yatube/posts/utils.py:7 | dropping the first full page of a longer listing drops one page |
| FollowGraph.Followed | yatube/posts/views.py:129 | an author is followed by a user exactly when that (user, author) row exists |
| FollowGraph.AddFollow | yatube/posts/views.py:139-148 | a row is added only if the user and the author differ and no such row exists; the row count grows by exactly that; other rows are unchanged |
| FollowGraph.RemoveFollow | yatube/posts/views.py:154-157 | afterwards no (user, author) row is left, and every other row that was there still is |
| FollowGraph.RemoveFollowCount | yatube/posts/views.py:154-157 | every other row is kept with its multiplicity, none of the pair's rows survives, and the table shrinks by exactly the number of deleted rows |
| FollowGraph.FollowingFlag | yatube/posts/views.py:35-42 | the `following` flag is true iff the requester is signed in and the (requester, author) row exists; false for an anonymous visitor |
| FollowGraph.UniqueCountAtMostOne | yatube/posts/views.py:140-148 | in a table without duplicate rows, a pair occurs at most once |
| FollowGraph.RemoveFollowAppend | yatube/posts/views.py:154-157 | unfollowing distributes over concatenated tables |
| FollowGraph.RemoveFollowAbsent | yatube/posts/views.py:154-157 | unfollowing a pair that has no row changes nothing |
| FollowGraph.AddFollowIdempotent | yatube/posts/views.py:140-148 | a repeated follow request is a no-op |
| FollowGraph.RemoveFollowIdempotent | yatube/posts/views.py:154-157 | a repeated unfollow request is a no-op |
| FollowGraph.NoSelfFollowCreated | yatube/posts/views.py:144 | a follow request on oneself never creates a row |
| FollowGraph.FollowThenUnfollowRestores | yatube/posts/views.py:140-157 | following someone new adds one row, and unfollowing them restores the exact table |
| FollowGraph.UnfollowDeletesAtMostOne | yatube/posts/views.py:154-157 | with unique rows, an unfollow deletes one row if the pair was following and none otherwise |
| FollowGraph.AddFollowPreservesValid | yatube/posts/views.py:139-148 | following keeps the table free of self-follows and duplicates, with both ends registered |
| FollowGraph.RemoveFollowPreservesValid | yatube/posts/views.py:154-157 | unfollowing keeps the table free of self-follows and duplicates, with both ends registered |
| FollowGraph.FlagFollowsRequests | yatube/posts/views.py:35-42 | after following another author the profile flag is set; after unfollowing it is cleared; a self-follow request leaves it as it was |
| Feeds.Select | yatube/posts/views.py:22-33 | a listing holds exactly the store's posts that its scope selects (all, one group, one author, followed authors), no longer than the store |
| Feeds.SelectCount | yatube/posts/views.py:22-33 | a selected post occurs in the listing as often as in the store; an unselected post does not occur |
| Feeds.SelectAppend | yatube/posts/views.py:22-33 | selection distributes over concatenation, so store order is kept |
| Feeds.SelectAfterNewPost | yatube/posts/views.py:22-33 | a new post joins exactly the listings whose scope selects it, adding one post at the end |
| Feeds.SelectKeepsAll | yatube/posts/views.py:17 | a scope that selects every post gives the whole store |
| Feeds.SelectKeepsNone | yatube/posts/views.py:129 | a scope that selects no post gives an empty listing |
| Feeds.FollowFeed | yatube/posts/views.py:129 | the following feed holds exactly the posts whose author the user follows |
| Feeds.FollowFeedOfNobody | yatube/posts/views.py:129 | someone who follows no one has an empty following feed |
| Feeds.FollowJoin | yatube/posts/views.py:129 | the literal join: one copy of a post per follow row of the user on its author, so a post appears exactly when its author is followed; equal to FollowFeed when rows are unique (FollowJoinIsFeed) |
| Feeds.FollowJoinIsFeed | yatube/posts/views.py:129 | when no pair has two rows, the relational join gives exactly the filtered feed, with no duplicated post |
| Feeds.FollowFeedAfterNewPost | yatube/posts/views.py:129 | a new post grows the feed of each of its author's followers by that post and no other feed; the author's own feed is unchanged when there is no self-follow |
| Feeds.Lookup | yatube/posts/views.py:52 | finds the store position of the post with the given id, or reports that no post has it |
| Feeds.CommentsOf | yatube/posts/views.py:61 | a post's page lists exactly the comments attached to that post |
| Feeds.CommentsOfCount | yatube/posts/views.py:61 | each comment of the post occurs as often as in the store |
| Feeds.CommentsOfAppend | yatube/posts/views.py:61 | comment selection distributes over concatenation |
| Feeds.CommentsAfterNewComment | yatube/posts/views.py:115-122 | a new comment on a post adds one comment to that post's page and none to any other post's page |
| Feeds.ShortPost | yatube/posts/views.py:53-55 | the first 30 characters, followed by "..." exactly when the text has at least 30 characters; otherwise the text itself |
| Feeds.Imposter | yatube/posts/views.py:57-58 | true iff the requester is not the post's author; always true for an anonymous visitor |
| Blog.Blog.IndexListing | yatube/posts/views.py:16-19 | the uncached index shows every post, and the requested page of at most 10 |
| Blog.Blog.Index | yatube/posts/views.py:15-19 | a stored rendering younger than 20 seconds is served unchanged; otherwise the page is rendered from the store and stored with the current time |
| Blog.Blog.ClearCache | yatube/posts/tests/test_views.py:259 | an explicit flush empties the page cache |
| Blog.Blog.GroupPosts | yatube/posts/views.py:22-29 | an unknown slug is not found; otherwise exactly the posts of that group, and the requested page of them |
| Blog.Blog.Profile | yatube/posts/views.py:32-47 | an unknown username is not found; otherwise exactly that author's posts, the page, and the flag that is true iff the signed-in requester follows the author |
| Blog.Blog.PostDetail | yatube/posts/views.py:50-70 | an unknown id is not found; otherwise the post with that id, all posts of its author, its short title, the imposter flag, and exactly its comments |
| Blog.Blog.FollowIndex | yatube/posts/views.py:125-134 | anonymous visitors are sent to log in; otherwise the feed holds exactly the posts of followed authors, each once, and the page |
| Blog.Blog.PostCreate | yatube/posts/views.py:73-88 | anonymous: log in; GET or invalid form: the form again and nothing changes; valid: exactly one post appended with a fresh id and the requester as author, then a redirect to the requester's profile |
| Blog.Blog.PostEdit | yatube/posts/views.py:91-110 | anonymous: log in; unknown id: not found; a non-author goes to the detail view and the store is unchanged; the author with a valid form has text, group and image replaced and stays the author |
| Blog.Blog.AddComment | yatube/posts/views.py:113-122 | anonymous: log in; unknown post: not found; otherwise always a redirect to the post's page; a valid form appends exactly one comment on that post by the requester |
| Blog.Blog.ProfileFollow | yatube/posts/views.py:136-149 | anonymous: log in; unknown author: not found; otherwise the table becomes AddFollow of the old one (invariant kept) and the redirect goes to the profile |
| Blog.Blog.ProfileUnfollow | yatube/posts/views.py:151-158 | anonymous: log in; unknown author: not found; otherwise the table becomes RemoveFollow of the old one and the redirect goes to the profile |
| Scenarios.FollowThenUnfollow | yatube/posts/tests/test_views.py:264-287 | follow redirects to the profile and adds one row; unfollow redirects there too and restores the table |
| Scenarios.FollowTwice | yatube/posts/views.py:140-148 | two follow requests leave the table as one does; a self-follow leaves it unchanged |
| Scenarios.NewPostReachesFollower | yatube/posts/tests/test_views.py:289-319 | after following B, one new post by B adds exactly one post to the follower's feed |
| Scenarios.NewPostSkipsAuthor | yatube/posts/tests/test_views.py:289-319 | a new post by B leaves B's own feed unchanged, and empty when B follows no one |
| Scenarios.NewPostSkipsNonFollower | yatube/posts/tests/test_views.py:289-319 | a new post by B leaves the feed of someone not following B unchanged |
| Scenarios.AuthorFeedSkipsOwnPost | yatube/posts/views.py:129 | when the author does not follow themselves, another user's follow and the author's own new post leave the author's feed exactly as it was |
| Scenarios.FollowPostsUnchanged | yatube/posts/views.py:129 | two tables in which a user follows the same authors give that user the same feed |
| Scenarios.PostAppearsInItsGroup | yatube/posts/tests/test_views.py:200-225 | a new post in group A adds one post to A's listing and none to group B's |
| Scenarios.CommentAppearsOnPost | yatube/posts/tests/test_views.py:321-341 | a valid comment adds one comment to the post's page |
| Scenarios.StaleIndexUntilFlush | yatube/posts/tests/test_views.py:246-262 | within 20 seconds of a rendering, the index served after a new post is identical; after a flush it shows the new post |
| Scenarios.IndexRefreshedAfterTimeout | yatube/posts/views.py:15 | without a flush, the index shows the new post once 20 seconds have passed |
| Scenarios.ElevenPostsMakeTwoPages | yatube/posts/tests/test_views.py:344-392 | with 11 posts by one author in one group, the index, group and profile listings each show 10 posts on page 1 and 1 on page 2 |

## Left out

- Templates, `render`, the URLs that `redirect` builds, `messages.success` and HTTP status codes: each view's outcome is a `Response` or a `ReadResult` value instead.
- The login redirect's `next` parameter: an anonymous request to a login-only view yields `RedirectToLogin` (or `LoginPage`) and nothing more.
- `PostForm` and `CommentForm` validation and image upload: the fields a valid form yields and its validity are inputs. The forms module is not part of this model.
- Django's `Paginator.get_page` for a missing, non-integer or out-of-range page number: only pages 1 to `NumPages` are modelled, as a precondition. The paginator library is not part of this model.
- Feed ordering: `models.py` (with the `Post` ordering) is not part of this model. Listings keep store (insertion) order and make no newest-first claim. Creation timestamps are not modelled.
- Cache keys beyond the page number: the cache is a map from page number to a stored page and its time. `key_prefix`, the `Vary` headers and HTTP cache headers are not modelled.
- Concurrency: every operation runs to completion on its own.
- `Follow.objects.count()` at yatube/posts/views.py:130 is display-only. It is the length of `follows`; the follow views' contracts state it.
- The empty `CommentForm()` that `post_detail` builds for the page, and the group object and author object that the listings pass to their templates (only the author's username is kept).
- yatube/users/views.py: class-based view configuration with no logic.
- The `__str__` methods asserted by the model tests: `models.py` is not part of this model.
- Registration of users and groups (sign-up, admin): the constructor receives them.
- Blog.Blog.Index: the index is cached per page number, and the cache does not vary by requester.
- The model follows the code: it does not claim that a page past the last one is empty, nor that listings are newest-first; unfollow deletes every matching row, as the code's `filter(...).delete()` does.
