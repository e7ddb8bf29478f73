/** Sequences of requests against the store and what the views promise for
    them: follow counts, feeds after a new post, group listings, the
    staleness of the cached index, and the paging of eleven posts. */
module Scenarios {
  import opened Types
  import opened Paging
  import opened FollowGraph
  import opened Feeds
  import opened Blog

  /** Following a new author raises the number of follow rows by one, and
      unfollowing them gives back the table there was. */
  method FollowThenUnfollow(b: Blog, user: UserId, author: UserId)
    returns (followed: Response, unfollowed: Response, afterFollow: nat)
    requires b.Valid() && user in b.users && author in b.users
    requires user != author && !IsFollowing(b.follows, user, author)
    modifies b
    ensures b.Valid()
    ensures followed == RedirectProfile(author) && unfollowed == RedirectProfile(author)
    ensures afterFollow == old(|b.follows|) + 1
    ensures b.follows == old(b.follows)
  {
    FollowThenUnfollowRestores(b.follows, user, author);
    followed := b.ProfileFollow(Some(user), author);
    afterFollow := |b.follows|;
    unfollowed := b.ProfileUnfollow(Some(user), author);
  }

  /** Following twice leaves the table as following once does. */
  method FollowTwice(b: Blog, user: UserId, author: UserId) returns (once: seq<Follow>)
    requires b.Valid() && user in b.users && author in b.users
    modifies b
    ensures b.Valid()
    ensures once == AddFollow(old(b.follows), user, author) && b.follows == once
    ensures user == author ==> b.follows == old(b.follows)
  {
    var _ := b.ProfileFollow(Some(user), author);
    once := b.follows;
    var _ := b.ProfileFollow(Some(user), author);
    AddFollowIdempotent(old(b.follows), user, author);
  }

  /** `user` follows `author`, then `author` publishes: the requester's
      following feed grows by exactly that one post. */
  method NewPostReachesFollower(b: Blog, user: UserId, author: UserId, fields: PostFields)
    returns (before: nat, after: nat)
    requires b.Valid() && user in b.users && author in b.users && user != author
    modifies b
    ensures b.Valid()
    ensures after == before + 1
  {
    var _ := b.ProfileFollow(Some(user), author);
    before := |b.FollowIndex(Some(user), 1).value.posts|;
    ghost var posts := b.posts;
    var _ := b.PostCreate(Some(author), true, fields, true);
    FollowFeedAfterNewPost(posts, b.follows, user, b.posts[|b.posts| - 1]);
    assert b.posts == posts + [b.posts[|b.posts| - 1]];
    after := |b.FollowIndex(Some(user), 1).value.posts|;
  }

  /** The same sequence leaves the author's own feed as it was, and empty
      when the author follows no one. */
  method NewPostSkipsAuthor(b: Blog, user: UserId, author: UserId, fields: PostFields)
    returns (authorBefore: nat, authorAfter: nat)
    requires b.Valid() && user in b.users && author in b.users && user != author
    modifies b
    ensures b.Valid()
    ensures authorAfter == authorBefore
    ensures Followed(old(b.follows), author) == {} ==> authorAfter == 0
  {
    FollowFeedOfNobody(b.posts, b.follows, author);
    authorBefore := |b.FollowIndex(Some(author), 1).value.posts|;
    assert !IsFollowing(b.follows, author, author) by {
      assert NoSelfFollow(b.follows);
    }
    ghost var unfollowed := b.follows;
    ghost var posts := b.posts;
    var _ := b.ProfileFollow(Some(user), author);
    var _ := b.PostCreate(Some(author), true, fields, true);
    AuthorFeedSkipsOwnPost(posts, unfollowed, user, author, b.posts[|b.posts| - 1]);
    authorAfter := |b.FollowIndex(Some(author), 1).value.posts|;
  }

  /** Without a self-follow, someone else following `author` and a new
      post by `author` leave `author`'s own feed as it was. */
  lemma AuthorFeedSkipsOwnPost(posts: seq<Post>, fs: seq<Follow>, user: UserId, author: UserId, p: Post)
    requires user != author && !IsFollowing(fs, author, author) && p.author == author
    ensures FollowFeed(posts + [p], AddFollow(fs, user, author), author) == FollowFeed(posts, fs, author)
  {
    FollowPostsUnchanged(posts, fs, AddFollow(fs, user, author), author);
    FollowFeedAfterNewPost(posts, AddFollow(fs, user, author), author, p);
  }

  /** The same sequence leaves the feed of anyone not following the author
      as it was. */
  method NewPostSkipsNonFollower(b: Blog, user: UserId, author: UserId, other: UserId, fields: PostFields)
    returns (otherBefore: nat, otherAfter: nat)
    requires b.Valid() && user in b.users && author in b.users && other in b.users
    requires user != author && other != user && !IsFollowing(b.follows, other, author)
    modifies b
    ensures b.Valid()
    ensures otherAfter == otherBefore
  {
    otherBefore := |b.FollowIndex(Some(other), 1).value.posts|;
    ghost var unfollowed := b.follows;
    var _ := b.ProfileFollow(Some(user), author);
    FollowPostsUnchanged(b.posts, unfollowed, b.follows, other);
    ghost var posts := b.posts;
    var _ := b.PostCreate(Some(author), true, fields, true);
    assert b.posts == posts + [b.posts[|b.posts| - 1]];
    FollowFeedAfterNewPost(posts, b.follows, other, b.posts[|b.posts| - 1]);
    otherAfter := |b.FollowIndex(Some(other), 1).value.posts|;
  }

  /** Feeds read over the same posts agree when `user` follows the same
      authors under both tables. */
  lemma FollowPostsUnchanged(posts: seq<Post>, fs: seq<Follow>, gs: seq<Follow>, user: UserId)
    requires forall a :: Follow(user, a) in fs <==> Follow(user, a) in gs
    ensures FollowFeed(posts, fs, user) == FollowFeed(posts, gs, user)
  {
    assert Followed(fs, user) == Followed(gs, user);
  }

  /** A new post in group `slug` adds one post to that group's listing and
      none to another group's. */
  method PostAppearsInItsGroup(b: Blog, author: UserId, slug: Slug, otherSlug: Slug, text: string)
    returns (before: nat, after: nat, otherBefore: nat, otherAfter: nat)
    requires b.Valid() && author in b.users && slug in b.groups && otherSlug in b.groups && slug != otherSlug
    modifies b
    ensures b.Valid()
    ensures after == before + 1 && otherAfter == otherBefore
  {
    before := |b.GroupPosts(slug, 1).value.posts|;
    otherBefore := |b.GroupPosts(otherSlug, 1).value.posts|;
    ghost var oldPosts := b.posts;
    var _ := b.PostCreate(Some(author), true, PostFields(text, Some(slug), None), true);
    var created := b.posts[|b.posts| - 1];
    assert b.posts == oldPosts + [created];
    SelectAfterNewPost(oldPosts, created, InGroup(slug));
    SelectAfterNewPost(oldPosts, created, InGroup(otherSlug));
    after := |b.GroupPosts(slug, 1).value.posts|;
    otherAfter := |b.GroupPosts(otherSlug, 1).value.posts|;
  }

  /** A valid comment on a post shows up among that post's comments. */
  method CommentAppearsOnPost(b: Blog, user: UserId, id: PostId, text: string)
    returns (before: nat, after: nat)
    requires b.Valid() && user in b.users && Lookup(b.posts, id).Some?
    modifies b
    ensures b.Valid()
    ensures after == before + 1
  {
    before := |b.PostDetail(id, Some(user)).value.comments|;
    ghost var oldComments := b.comments;
    var resp := b.AddComment(Some(user), id, text, true);
    CommentsAfterNewComment(oldComments, b.comments[|b.comments| - 1], id);
    after := |b.PostDetail(id, Some(user)).value.comments|;
  }

  /** The cached index survives a new post within the timeout, and after a
      flush the index shows the new post. */
  method StaleIndexUntilFlush(b: Blog, author: UserId, fields: PostFields, t0: int)
    returns (first: Listing, second: Listing, third: Listing)
    requires b.Valid() && author in b.users && |b.posts| < PostsCount && 1 !in b.indexCache
    modifies b
    ensures b.Valid()
    ensures second == first
    ensures third.pageObj == b.posts && third.pageObj != first.pageObj
    ensures |b.posts| == old(|b.posts|) + 1
  {
    first := b.Index(t0, 1);
    assert b.indexCache[1] == CacheEntry(t0, first);
    var _ := b.PostCreate(Some(author), true, fields, true);
    second := b.Index(t0 + 5, 1);
    b.ClearCache();
    third := b.Index(t0 + 6, 1);
  }

  /** Without a flush, the index shows the new post once the timeout has
      passed. */
  method IndexRefreshedAfterTimeout(b: Blog, author: UserId, fields: PostFields, t0: int)
    returns (first: Listing, later: Listing)
    requires b.Valid() && author in b.users && |b.posts| < PostsCount && 1 !in b.indexCache
    modifies b
    ensures b.Valid()
    ensures first.pageObj == old(b.posts)
    ensures later.pageObj == b.posts && later.pageObj != first.pageObj
  {
    first := b.Index(t0, 1);
    var _ := b.PostCreate(Some(author), true, fields, true);
    later := b.Index(t0 + IndexTimeout, 1);
  }

  /** Eleven posts by one author in one group: the index, the group listing
      and the profile each show ten posts on page 1 and one on page 2. */
  lemma ElevenPostsMakeTwoPages(b: Blog, author: UserId, slug: Slug)
    requires |b.posts| == PostsCount + 1 && author in b.users && slug in b.groups
    requires forall p :: p in b.posts ==> p.author == author && p.group == Some(slug)
    ensures Select(b.posts, InGroup(slug)) == b.posts && Select(b.posts, ByAuthor(author)) == b.posts
    ensures |b.IndexListing(1).pageObj| == PostsCount && |b.IndexListing(2).pageObj| == 1
    ensures |b.GroupPosts(slug, 1).value.pageObj| == PostsCount && |b.GroupPosts(slug, 2).value.pageObj| == 1
    ensures |b.Profile(author, None, 1).value.pageObj| == PostsCount && |b.Profile(author, None, 2).value.pageObj| == 1
  {
    SelectKeepsAll(b.posts, InGroup(slug));
    SelectKeepsAll(b.posts, ByAuthor(author));
    OneMoreThanAPage(b.posts);
  }
}
