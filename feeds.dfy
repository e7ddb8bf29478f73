/** Feed selection and the post-detail helpers: which posts each listing
    shows, the following feed, the lookup of a post by id, the comments of
    a post, the truncated title and the `imposter` flag. */
module Feeds {
  import opened Types
  import opened FollowGraph

  /** Length of the title shown on a post's page before it is cut. */
  const TitleLength: nat := 30

  /** The listings: every post, the posts of one group, the posts of one
      author, the posts of any author in a set. */
  datatype Scope = All | InGroup(slug: Slug) | ByAuthor(author: UserId) | AuthorsIn(authors: set<UserId>)

  predicate Selects(sc: Scope, p: Post)
  {
    match sc
    case All => true
    case InGroup(slug) => p.group == Some(slug)
    case ByAuthor(a) => p.author == a
    case AuthorsIn(authors) => p.author in authors
  }

  /** The posts a scope keeps, in store order. */
  function Select(posts: seq<Post>, sc: Scope): (r: seq<Post>)
    ensures |r| <= |posts|
    ensures forall p :: p in r <==> p in posts && Selects(sc, p)
  {
    if posts == [] then []
    else
      assert posts == [posts[0]] + posts[1..];
      (if Selects(sc, posts[0]) then [posts[0]] else []) + Select(posts[1..], sc)
  }

  /** A listing holds each selected post as many times as the store does,
      and no other post. */
  lemma {:induction false} SelectCount(posts: seq<Post>, sc: Scope, p: Post)
    ensures multiset(Select(posts, sc))[p] == if Selects(sc, p) then multiset(posts)[p] else 0
  {
    if posts != [] {
      assert posts == [posts[0]] + posts[1..];
      SelectCount(posts[1..], sc, p);
    }
  }

  /** Selection distributes over concatenation. */
  lemma {:induction false} SelectAppend(s: seq<Post>, t: seq<Post>, sc: Scope)
    ensures Select(s + t, sc) == Select(s, sc) + Select(t, sc)
  {
    if s == [] {
      assert s + t == t;
    } else {
      assert (s + t)[0] == s[0] && (s + t)[1..] == s[1..] + t;
      SelectAppend(s[1..], t, sc);
      var head := if Selects(sc, s[0]) then [s[0]] else [];
      assert Select(s + t, sc) == head + Select(s[1..] + t, sc);
      assert Select(s, sc) == head + Select(s[1..], sc);
    }
  }

  /** A new post at the end of the store joins exactly the listings whose
      scope selects it, by one post at the end. */
  lemma SelectAfterNewPost(posts: seq<Post>, p: Post, sc: Scope)
    ensures Select(posts + [p], sc) == Select(posts, sc) + (if Selects(sc, p) then [p] else [])
    ensures |Select(posts + [p], sc)| == |Select(posts, sc)| + (if Selects(sc, p) then 1 else 0)
  {
    SelectAppend(posts, [p], sc);
  }

  /** A listing whose scope selects every post is the whole store. */
  lemma {:induction false} SelectKeepsAll(posts: seq<Post>, sc: Scope)
    requires forall p :: p in posts ==> Selects(sc, p)
    ensures Select(posts, sc) == posts
  {
    if posts != [] {
      assert posts == [posts[0]] + posts[1..];
      SelectKeepsAll(posts[1..], sc);
    }
  }

  /** A listing whose scope selects no post is empty. */
  lemma SelectKeepsNone(posts: seq<Post>, sc: Scope)
    requires forall p :: p in posts ==> !Selects(sc, p)
    ensures Select(posts, sc) == []
  {
  }

  /** The following feed of `user`: posts whose author `user` follows. */
  function FollowFeed(posts: seq<Post>, fs: seq<Follow>, user: UserId): (r: seq<Post>)
    ensures forall p :: p in r <==> p in posts && Follow(user, p.author) in fs
  {
    Select(posts, AuthorsIn(Followed(fs, user)))
  }

  /** Someone who follows nobody has an empty following feed. */
  lemma FollowFeedOfNobody(posts: seq<Post>, fs: seq<Follow>, user: UserId)
    ensures Followed(fs, user) == {} ==> FollowFeed(posts, fs, user) == []
  {
    if Followed(fs, user) == {} {
      SelectKeepsNone(posts, AuthorsIn(Followed(fs, user)));
    }
  }

  /** The relational query behind the following feed read literally: every
      post is paired with every follow row of `user` on its author, so a
      post appears once per matching row. */
  function FollowJoin(posts: seq<Post>, fs: seq<Follow>, user: UserId): (r: seq<Post>)
    ensures forall p :: p in r <==> p in posts && Follow(user, p.author) in fs
  {
    if posts == [] then []
    else
      var copies := seq(multiset(fs)[Follow(user, posts[0].author)], _ => posts[0]);
      assert forall i :: 0 <= i < |copies| ==> copies[i] == posts[0];
      assert |copies| > 0 ==> copies[0] == posts[0] && copies[0] in copies;
      assert posts == [posts[0]] + posts[1..];
      copies + FollowJoin(posts[1..], fs, user)
  }

  /** With at most one row per pair, the join is exactly the filtered feed:
      no post is duplicated. */
  lemma {:induction false} FollowJoinIsFeed(posts: seq<Post>, fs: seq<Follow>, user: UserId)
    requires UniqueEdges(fs)
    ensures FollowJoin(posts, fs, user) == FollowFeed(posts, fs, user)
  {
    if posts != [] {
      var p := posts[0];
      UniqueCountAtMostOne(fs, Follow(user, p.author));
      FollowJoinIsFeed(posts[1..], fs, user);
      if Follow(user, p.author) in fs {
        assert seq(multiset(fs)[Follow(user, p.author)], _ => p) == [p];
      } else {
        assert seq(multiset(fs)[Follow(user, p.author)], _ => p) == [];
      }
    }
  }

  /** A new post by `author` grows the feed of everyone who follows
      `author` by that one post, and leaves every other feed, the author's
      own included when the table has no self-follow, as it was. */
  lemma FollowFeedAfterNewPost(posts: seq<Post>, fs: seq<Follow>, user: UserId, p: Post)
    ensures FollowFeed(posts + [p], fs, user)
         == FollowFeed(posts, fs, user) + (if Follow(user, p.author) in fs then [p] else [])
    ensures NoSelfFollow(fs) && user == p.author ==> FollowFeed(posts + [p], fs, user) == FollowFeed(posts, fs, user)
  {
    SelectAfterNewPost(posts, p, AuthorsIn(Followed(fs, user)));
  }

  /** Where in the store the post with this id is (the lookup that fails
      with not-found). */
  function Lookup(posts: seq<Post>, id: PostId): (r: Option<nat>)
    ensures r.Some? ==> r.value < |posts| && posts[r.value].id == id
    ensures r.None? <==> forall i :: 0 <= i < |posts| ==> posts[i].id != id
  {
    if posts == [] then None
    else if posts[0].id == id then Some(0)
    else match Lookup(posts[1..], id)
      case None => None
      case Some(k) => Some(k + 1)
  }

  /** The comments attached to post `id`, in store order. */
  function CommentsOf(comments: seq<Comment>, id: PostId): (r: seq<Comment>)
    ensures |r| <= |comments|
    ensures forall c :: c in r <==> c in comments && c.post == id
  {
    if comments == [] then []
    else
      assert comments == [comments[0]] + comments[1..];
      (if comments[0].post == id then [comments[0]] else []) + CommentsOf(comments[1..], id)
  }

  lemma {:induction false} CommentsOfCount(comments: seq<Comment>, id: PostId, c: Comment)
    ensures multiset(CommentsOf(comments, id))[c] == if c.post == id then multiset(comments)[c] else 0
  {
    if comments != [] {
      assert comments == [comments[0]] + comments[1..];
      CommentsOfCount(comments[1..], id, c);
    }
  }

  lemma {:induction false} CommentsOfAppend(s: seq<Comment>, t: seq<Comment>, id: PostId)
    ensures CommentsOf(s + t, id) == CommentsOf(s, id) + CommentsOf(t, id)
  {
    if s == [] {
      assert s + t == t;
    } else {
      assert (s + t)[1..] == s[1..] + t;
      CommentsOfAppend(s[1..], t, id);
    }
  }

  /** A new comment on post `id` adds one comment to that post's page and
      none to any other post's. */
  lemma CommentsAfterNewComment(comments: seq<Comment>, c: Comment, id: PostId)
    ensures |CommentsOf(comments + [c], id)| == |CommentsOf(comments, id)| + (if c.post == id then 1 else 0)
    ensures c.post == id ==> CommentsOf(comments + [c], id) == CommentsOf(comments, id) + [c]
  {
    CommentsOfAppend(comments, [c], id);
  }

  /** The title of a post's page: the first TitleLength characters of its
      text, followed by "..." when that prefix is TitleLength long. */
  function ShortPost(text: string): (r: string)
    ensures |text| >= TitleLength ==> r == text[..TitleLength] + "..."
    ensures |text| < TitleLength ==> r == text
    ensures |r| <= TitleLength + 3
  {
    var prefix := if |text| <= TitleLength then text else text[..TitleLength];
    if |prefix| == TitleLength then prefix + "..." else prefix
  }

  /** True when the viewer is not the post's author; an anonymous viewer is
      never the author. */
  function Imposter(author: UserId, requester: Option<UserId>): (r: bool)
    ensures r <==> requester != Some(author)
    ensures requester.None? ==> r
  {
    match requester
    case None => true
    case Some(u) => u != author
  }
}
