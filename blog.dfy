/** The blog's content store and its views: the listings (index, group,
    profile, following feed), the post page, and the views that create or
    edit posts, add comments and follow or unfollow authors.

    A request is reduced to what the views use: the requester (None for an
    anonymous visitor), whether the form was submitted, the form's fields
    and whether the form validated, and the page number. */
module Blog {
  import opened Types
  import opened Paging
  import opened FollowGraph
  import opened Feeds

  /** Seconds the index page stays cached. */
  const IndexTimeout: int := 20

  /** Where a mutating view sends the browser. */
  datatype Response =
    | RedirectToLogin
    | NotFound
    | RedirectProfile(username: UserId)
    | RedirectDetail(postId: PostId)
    | RenderForm

  /** The outcome of a reading view. */
  datatype ReadResult<+T> = Rendered(value: T) | NotFoundPage | LoginPage

  /** A listing's context: the selected posts and the requested page of them. */
  datatype Listing = Listing(posts: seq<Post>, pageObj: seq<Post>)

  datatype ProfilePage = ProfilePage(author: UserId, posts: seq<Post>, pageObj: seq<Post>, following: bool)

  datatype DetailPage = DetailPage(post: Post, authorPosts: seq<Post>, shortPost: string, imposter: bool, comments: seq<Comment>)

  /** A cached rendering of one index page and the time it was stored. */
  datatype CacheEntry = CacheEntry(storedAt: int, content: Listing)

  /** The cached index page `key` may be served at time `now`. */
  predicate CacheHit(cache: map<nat, CacheEntry>, key: nat, now: int)
  {
    key in cache && now < cache[key].storedAt + IndexTimeout
  }

  class Blog {
    var users: set<UserId>
    var groups: set<Slug>
    var posts: seq<Post>
    var comments: seq<Comment>
    var follows: seq<Follow>
    var nextPostId: PostId
    var nextCommentId: CommentId
    var indexCache: map<nat, CacheEntry>

    /** The store's invariant: ids are fresh and increasing, every post and
        comment has a registered author, every comment belongs to a stored
        post, and the follow table has no self-follow and no duplicate. */
    ghost predicate Valid()
      reads this`users, this`posts, this`comments, this`follows, this`nextPostId, this`nextCommentId
    {
      && (forall i :: 0 <= i < |posts| ==> posts[i].id < nextPostId && posts[i].author in users)
      && (forall i, j :: 0 <= i < j < |posts| ==> posts[i].id < posts[j].id)
      && (forall i :: 0 <= i < |comments| ==>
            comments[i].id < nextCommentId && comments[i].author in users && Lookup(posts, comments[i].post).Some?)
      && (forall i, j :: 0 <= i < j < |comments| ==> comments[i].id < comments[j].id)
      && GraphValid(follows, users)
    }

    /** An authenticated requester is a registered user. */
    predicate KnownRequester(requester: Option<UserId>)
      reads this
    {
      requester.Some? ==> requester.value in users
    }

    /** An empty store over the given registered users and groups. */
    constructor (registered: set<UserId>, topics: set<Slug>)
      ensures Valid()
      ensures users == registered && groups == topics
      ensures posts == [] && comments == [] && follows == [] && indexCache == map[]
    {
      users, groups := registered, topics;
      posts, comments, follows := [], [], [];
      nextPostId, nextCommentId := 0, 0;
      indexCache := map[];
    }

    // ---------------------------------------------------------------
    // Listings

    /** The index page as rendered from the current store. */
    function IndexListing(page: nat): (r: Listing)
      reads this`posts
      requires 1 <= page <= NumPages(|posts|)
      ensures r.posts == posts
      ensures r.pageObj == Page(posts, page)
      ensures |r.pageObj| <= PostsCount
    {
      Listing(posts, Page(posts, page))
    }

    /** The index page, served from the cache while the stored rendering
        is younger than IndexTimeout seconds, rendered and stored
        otherwise. Writes to the store do not touch the cache. */
    method Index(now: int, page: nat) returns (content: Listing)
      requires 1 <= page <= NumPages(|posts|)
      modifies this`indexCache
      ensures CacheHit(old(indexCache), page, now) ==>
                content == old(indexCache)[page].content && indexCache == old(indexCache)
      ensures !CacheHit(old(indexCache), page, now) ==>
                content == IndexListing(page) && indexCache == old(indexCache)[page := CacheEntry(now, content)]
    {
      if page in indexCache && now < indexCache[page].storedAt + IndexTimeout {
        content := indexCache[page].content;
      } else {
        content := IndexListing(page);
        indexCache := indexCache[page := CacheEntry(now, content)];
      }
    }

    /** An explicit flush of the page cache. */
    method ClearCache()
      modifies this`indexCache
      ensures indexCache == map[]
    {
      indexCache := map[];
    }

    /** The posts of one group; an unknown slug is not found. */
    function GroupPosts(slug: Slug, page: nat): (r: ReadResult<Listing>)
      reads this`groups, this`posts
      requires 1 <= page <= NumPages(|Select(posts, InGroup(slug))|)
      ensures r.NotFoundPage? <==> slug !in groups
      ensures !r.LoginPage?
      ensures r.Rendered? ==> forall p :: p in r.value.posts <==> p in posts && p.group == Some(slug)
      ensures r.Rendered? ==> r.value.posts == Select(posts, InGroup(slug)) && r.value.pageObj == Page(r.value.posts, page)
    {
      if slug !in groups then NotFoundPage
      else
        var selected := Select(posts, InGroup(slug));
        Rendered(Listing(selected, Page(selected, page)))
    }

    /** An author's profile: their posts and whether the requester follows
        them; an unknown username is not found. */
    function Profile(username: UserId, requester: Option<UserId>, page: nat): (r: ReadResult<ProfilePage>)
      reads this`users, this`posts, this`follows
      requires 1 <= page <= NumPages(|Select(posts, ByAuthor(username))|)
      ensures r.NotFoundPage? <==> username !in users
      ensures !r.LoginPage?
      ensures r.Rendered? ==> r.value.author == username
      ensures r.Rendered? ==> forall p :: p in r.value.posts <==> p in posts && p.author == username
      ensures r.Rendered? ==> (r.value.following <==> requester.Some? && Follow(requester.value, username) in follows)
      ensures r.Rendered? ==> r.value.posts == Select(posts, ByAuthor(username)) && r.value.pageObj == Page(r.value.posts, page)
    {
      if username !in users then NotFoundPage
      else
        var selected := Select(posts, ByAuthor(username));
        Rendered(ProfilePage(username, selected, Page(selected, page), FollowingFlag(follows, requester, username)))
    }

    /** A post's page: the post, every post of its author, its
        shortened title, the `imposter` flag and its comments. */
    function PostDetail(id: PostId, requester: Option<UserId>): (r: ReadResult<DetailPage>)
      reads this`posts, this`comments
      ensures r.NotFoundPage? <==> forall i :: 0 <= i < |posts| ==> posts[i].id != id
      ensures !r.LoginPage?
      ensures r.Rendered? ==> r.value.post in posts && r.value.post.id == id
      ensures r.Rendered? ==> (r.value.imposter <==> requester != Some(r.value.post.author))
      ensures r.Rendered? ==> r.value.shortPost == ShortPost(r.value.post.text)
      ensures r.Rendered? ==> forall p :: p in r.value.authorPosts <==> p in posts && p.author == r.value.post.author
      ensures r.Rendered? ==> forall c :: c in r.value.comments <==> c in comments && c.post == id
    {
      match Lookup(posts, id)
      case None => NotFoundPage
      case Some(k) =>
        var post := posts[k];
        Rendered(DetailPage(post, Select(posts, ByAuthor(post.author)), ShortPost(post.text),
                            Imposter(post.author, requester), CommentsOf(comments, id)))
    }

    /** The following feed, read as the relational query does: one copy of
        a post per follow row of the requester on its author. Thanks to the
        table's invariant that is exactly the posts of followed authors. */
    function FollowIndex(requester: Option<UserId>, page: nat): (r: ReadResult<Listing>)
      reads this`users, this`posts, this`comments, this`follows, this`nextPostId, this`nextCommentId
      requires Valid()
      requires requester.Some? ==> 1 <= page <= NumPages(|FollowFeed(posts, follows, requester.value)|)
      ensures r.LoginPage? <==> requester.None?
      ensures !r.NotFoundPage?
      ensures r.Rendered? ==> r.value.posts == FollowFeed(posts, follows, requester.value)
      ensures r.Rendered? ==> forall p :: p in r.value.posts <==> p in posts && Follow(requester.value, p.author) in follows
      ensures r.Rendered? ==> r.value.pageObj == Page(r.value.posts, page)
    {
      match requester
      case None => LoginPage
      case Some(u) =>
        FollowJoinIsFeed(posts, follows, u);
        var selected := FollowJoin(posts, follows, u);
        Rendered(Listing(selected, Page(selected, page)))
    }

    // ---------------------------------------------------------------
    // Writes

    /** A new post by the requester from a valid submitted form; the
        browser is sent to the requester's profile. */
    method PostCreate(requester: Option<UserId>, submitted: bool, form: PostFields, formValid: bool)
      returns (resp: Response)
      requires Valid() && KnownRequester(requester)
      modifies this`posts, this`nextPostId
      ensures Valid()
      ensures requester.None? ==> resp == RedirectToLogin
      ensures requester.Some? && !(submitted && formValid) ==> resp == RenderForm
      ensures !(requester.Some? && submitted && formValid) ==>
                posts == old(posts) && nextPostId == old(nextPostId)
      ensures requester.Some? && submitted && formValid ==>
                && resp == RedirectProfile(requester.value)
                && posts == old(posts) + [Post(old(nextPostId), requester.value, form.text, form.group, form.image)]
                && nextPostId == old(nextPostId) + 1
    {
      if requester.None? {
        return RedirectToLogin;
      }
      if submitted && formValid {
        var created := Post(nextPostId, requester.value, form.text, form.group, form.image);
        posts := posts + [created];
        nextPostId := nextPostId + 1;
        assert forall i :: 0 <= i < |comments| ==> Lookup(posts, comments[i].post).Some? by {
          forall i | 0 <= i < |comments| ensures Lookup(posts, comments[i].post).Some? {
            var k := Lookup(old(posts), comments[i].post).value;
            assert posts[k] == old(posts)[k];
          }
        }
        resp := RedirectProfile(requester.value);
      } else {
        resp := RenderForm;
      }
    }

    /** An edit of post `id`: only its author may change it, and only a
        valid submitted form replaces its text, group and image. Anyone else
        is sent to the post's page with the post untouched. */
    method PostEdit(requester: Option<UserId>, id: PostId, submitted: bool, form: PostFields, formValid: bool)
      returns (resp: Response)
      requires Valid() && KnownRequester(requester)
      modifies this`posts
      ensures Valid()
      ensures requester.None? ==> resp == RedirectToLogin && posts == old(posts)
      ensures requester.Some? && Lookup(old(posts), id).None? ==> resp == NotFound && posts == old(posts)
      ensures requester.Some? && Lookup(old(posts), id).Some? ==>
                var k := Lookup(old(posts), id).value;
                && (old(posts)[k].author != requester.value ==> resp == RedirectDetail(id) && posts == old(posts))
                && (old(posts)[k].author == requester.value && !(submitted && formValid) ==>
                      resp == RenderForm && posts == old(posts))
                && (old(posts)[k].author == requester.value && submitted && formValid ==>
                      && resp == RedirectDetail(id)
                      && posts == old(posts)[k := Post(id, requester.value, form.text, form.group, form.image)])
    {
      if requester.None? {
        return RedirectToLogin;
      }
      var found := Lookup(posts, id);
      if found.None? {
        return NotFound;
      }
      var k := found.value;
      if posts[k].author != requester.value {
        return RedirectDetail(id);
      }
      if submitted && formValid {
        posts := posts[k := posts[k].(text := form.text, group := form.group, image := form.image, author := requester.value)];
        assert forall i :: 0 <= i < |posts| ==> posts[i].id == old(posts)[i].id;
        assert forall i :: 0 <= i < |comments| ==> Lookup(posts, comments[i].post).Some? by {
          forall i | 0 <= i < |comments| ensures Lookup(posts, comments[i].post).Some? {
            var j := Lookup(old(posts), comments[i].post).value;
            assert posts[j].id == old(posts)[j].id;
          }
        }
        resp := RedirectDetail(id);
      } else {
        resp := RenderForm;
      }
    }

    /** A comment by the requester on post `id`, added when the form is
        valid; the browser always goes back to the post's page. */
    method AddComment(requester: Option<UserId>, id: PostId, text: string, formValid: bool)
      returns (resp: Response)
      requires Valid() && KnownRequester(requester)
      modifies this`comments, this`nextCommentId
      ensures Valid()
      ensures requester.None? ==> resp == RedirectToLogin
      ensures requester.Some? && Lookup(posts, id).None? ==> resp == NotFound
      ensures requester.Some? && Lookup(posts, id).Some? ==> resp == RedirectDetail(id)
      ensures requester.Some? && Lookup(posts, id).Some? && formValid ==>
                && comments == old(comments) + [Comment(old(nextCommentId), id, requester.value, text)]
                && nextCommentId == old(nextCommentId) + 1
      ensures !(requester.Some? && Lookup(posts, id).Some? && formValid) ==>
                comments == old(comments) && nextCommentId == old(nextCommentId)
    {
      if requester.None? {
        return RedirectToLogin;
      }
      if Lookup(posts, id).None? {
        return NotFound;
      }
      if formValid {
        comments := comments + [Comment(nextCommentId, id, requester.value, text)];
        nextCommentId := nextCommentId + 1;
      }
      resp := RedirectDetail(id);
    }

    /** The requester follows `username`, unless that is themselves or they
        already do; the browser goes to that profile. */
    method ProfileFollow(requester: Option<UserId>, username: UserId) returns (resp: Response)
      requires Valid() && KnownRequester(requester)
      modifies this`follows
      ensures Valid()
      ensures requester.None? ==> resp == RedirectToLogin && follows == old(follows)
      ensures requester.Some? && username !in users ==> resp == NotFound && follows == old(follows)
      ensures requester.Some? && username in users ==>
                resp == RedirectProfile(username) && follows == AddFollow(old(follows), requester.value, username)
    {
      if requester.None? {
        return RedirectToLogin;
      }
      if username !in users {
        return NotFound;
      }
      var user := requester.value;
      AddFollowPreservesValid(follows, users, user, username);
      if user != username && !IsFollowing(follows, user, username) {
        follows := follows + [Follow(user, username)];
      }
      resp := RedirectProfile(username);
    }

    /** The requester stops following `username`: every such row goes, every
        other row stays; the browser goes to that profile. */
    method ProfileUnfollow(requester: Option<UserId>, username: UserId) returns (resp: Response)
      requires Valid() && KnownRequester(requester)
      modifies this`follows
      ensures Valid()
      ensures requester.None? ==> resp == RedirectToLogin && follows == old(follows)
      ensures requester.Some? && username !in users ==> resp == NotFound && follows == old(follows)
      ensures requester.Some? && username in users ==>
                resp == RedirectProfile(username) && follows == RemoveFollow(old(follows), requester.value, username)
    {
      if requester.None? {
        return RedirectToLogin;
      }
      if username !in users {
        return NotFound;
      }
      RemoveFollowPreservesValid(follows, users, requester.value, username);
      follows := RemoveFollow(follows, requester.value, username);
      resp := RedirectProfile(username);
    }
  }
}
