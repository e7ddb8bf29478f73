/** The follow relation: a sequence of follow rows, the effect of following
    and unfollowing an author, and the profile page's `following` flag. */
module FollowGraph {
  import opened Types

  predicate IsFollowing(fs: seq<Follow>, user: UserId, author: UserId)
  {
    Follow(user, author) in fs
  }

  /** Nobody follows themselves. */
  ghost predicate NoSelfFollow(fs: seq<Follow>)
  {
    forall i :: 0 <= i < |fs| ==> fs[i].user != fs[i].author
  }

  /** At most one row per (user, author) pair. */
  ghost predicate UniqueEdges(fs: seq<Follow>)
  {
    forall i, j :: 0 <= i < j < |fs| ==> fs[i] != fs[j]
  }

  /** The invariant of the follow table: no self-follow, no duplicate pair,
      and both ends are registered users. */
  ghost predicate GraphValid(fs: seq<Follow>, users: set<UserId>)
  {
    && NoSelfFollow(fs)
    && UniqueEdges(fs)
    && forall i :: 0 <= i < |fs| ==> fs[i].user in users && fs[i].author in users
  }

  /** The authors `user` follows. */
  function Followed(fs: seq<Follow>, user: UserId): (r: set<UserId>)
    ensures forall a :: a in r <==> Follow(user, a) in fs
  {
    set i | 0 <= i < |fs| && fs[i].user == user :: fs[i].author
  }

  /** The rows after `user` asks to follow `author`: a row is created only
      when the two differ and no such row exists yet. */
  function AddFollow(fs: seq<Follow>, user: UserId, author: UserId): (r: seq<Follow>)
    ensures IsFollowing(r, user, author) <==> user != author || IsFollowing(fs, user, author)
    ensures forall e :: e != Follow(user, author) ==> (e in r <==> e in fs)
    ensures |r| == |fs| + (if user != author && !IsFollowing(fs, user, author) then 1 else 0)
    ensures fs <= r
  {
    if user != author && !IsFollowing(fs, user, author) then fs + [Follow(user, author)] else fs
  }

  /** The rows after `user` unfollows `author`: every (user, author) row is
      deleted, every other row is kept in place. */
  function RemoveFollow(fs: seq<Follow>, user: UserId, author: UserId): (r: seq<Follow>)
    ensures forall e :: e in r <==> e in fs && e != Follow(user, author)
  {
    if fs == [] then []
    else
      (if fs[0] == Follow(user, author) then [] else [fs[0]]) + RemoveFollow(fs[1..], user, author)
  }

  /** Unfollowing keeps every other row as often as it was there, and
      shortens the table by the number of (user, author) rows. */
  lemma {:induction false} RemoveFollowCount(fs: seq<Follow>, user: UserId, author: UserId)
    ensures forall e :: e != Follow(user, author) ==> multiset(RemoveFollow(fs, user, author))[e] == multiset(fs)[e]
    ensures multiset(RemoveFollow(fs, user, author))[Follow(user, author)] == 0
    ensures |RemoveFollow(fs, user, author)| == |fs| - multiset(fs)[Follow(user, author)]
  {
    if fs != [] {
      assert fs == [fs[0]] + fs[1..];
      RemoveFollowCount(fs[1..], user, author);
    }
  }

  /** The `following` flag of a profile page: true exactly when the
      requester is signed in and follows the author. */
  function FollowingFlag(fs: seq<Follow>, requester: Option<UserId>, author: UserId): (r: bool)
    ensures r <==> requester.Some? && Follow(requester.value, author) in fs
    ensures requester.None? ==> !r
  {
    match requester
    case None => false
    case Some(u) => IsFollowing(fs, u, author)
  }

  lemma {:induction false} UniqueCountAtMostOne(fs: seq<Follow>, e: Follow)
    requires UniqueEdges(fs)
    ensures multiset(fs)[e] <= 1
    ensures multiset(fs)[e] == 1 <==> e in fs
  {
    if fs != [] {
      assert fs == [fs[0]] + fs[1..];
      assert UniqueEdges(fs[1..]) by {
        forall i, j | 0 <= i < j < |fs[1..]| ensures fs[1..][i] != fs[1..][j] {
          assert fs[1..][i] == fs[i + 1] && fs[1..][j] == fs[j + 1];
        }
      }
      UniqueCountAtMostOne(fs[1..], e);
      if fs[0] == e {
        assert e !in fs[1..] by {
          forall j | 0 <= j < |fs[1..]| ensures fs[1..][j] != e {
            assert fs[1..][j] == fs[j + 1];
          }
        }
      }
    }
  }

  lemma {:induction false} RemoveFollowAppend(s: seq<Follow>, t: seq<Follow>, user: UserId, author: UserId)
    ensures RemoveFollow(s + t, user, author) == RemoveFollow(s, user, author) + RemoveFollow(t, user, author)
  {
    if s != [] {
      assert (s + t)[1..] == s[1..] + t;
      RemoveFollowAppend(s[1..], t, user, author);
    } else {
      assert s + t == t;
    }
  }

  /** Unfollowing someone one does not follow changes nothing. */
  lemma {:induction false} RemoveFollowAbsent(fs: seq<Follow>, user: UserId, author: UserId)
    requires !IsFollowing(fs, user, author)
    ensures RemoveFollow(fs, user, author) == fs
  {
    if fs != [] {
      assert fs == [fs[0]] + fs[1..];
      RemoveFollowAbsent(fs[1..], user, author);
    }
  }

  /** Following is idempotent: a repeated request creates nothing. */
  lemma AddFollowIdempotent(fs: seq<Follow>, user: UserId, author: UserId)
    ensures AddFollow(AddFollow(fs, user, author), user, author) == AddFollow(fs, user, author)
  {
  }

  /** Unfollowing is idempotent. */
  lemma RemoveFollowIdempotent(fs: seq<Follow>, user: UserId, author: UserId)
    ensures RemoveFollow(RemoveFollow(fs, user, author), user, author) == RemoveFollow(fs, user, author)
  {
    RemoveFollowAbsent(RemoveFollow(fs, user, author), user, author);
  }

  /** A self-follow request never creates a row. */
  lemma NoSelfFollowCreated(fs: seq<Follow>, user: UserId)
    ensures AddFollow(fs, user, user) == fs
  {
  }

  /** Following someone new adds one row; unfollowing them again gives back
      exactly the rows there were before. */
  lemma FollowThenUnfollowRestores(fs: seq<Follow>, user: UserId, author: UserId)
    requires user != author && !IsFollowing(fs, user, author)
    ensures |AddFollow(fs, user, author)| == |fs| + 1
    ensures RemoveFollow(AddFollow(fs, user, author), user, author) == fs
  {
    RemoveFollowAppend(fs, [Follow(user, author)], user, author);
    RemoveFollowAbsent(fs, user, author);
  }

  /** Under the table invariant, an unfollow deletes at most one row, and
      one exactly when the pair was following. */
  lemma UnfollowDeletesAtMostOne(fs: seq<Follow>, user: UserId, author: UserId)
    requires UniqueEdges(fs)
    ensures |RemoveFollow(fs, user, author)| == |fs| - (if IsFollowing(fs, user, author) then 1 else 0)
  {
    RemoveFollowCount(fs, user, author);
    UniqueCountAtMostOne(fs, Follow(user, author));
  }

  lemma AddFollowPreservesValid(fs: seq<Follow>, users: set<UserId>, user: UserId, author: UserId)
    requires GraphValid(fs, users) && user in users && author in users
    ensures GraphValid(AddFollow(fs, user, author), users)
  {
  }

  lemma {:induction false} RemoveFollowPreservesValid(fs: seq<Follow>, users: set<UserId>, user: UserId, author: UserId)
    requires GraphValid(fs, users)
    ensures GraphValid(RemoveFollow(fs, user, author), users)
  {
    if fs != [] {
      var rest := fs[1..];
      assert GraphValid(rest, users) by {
        forall i, j | 0 <= i < j < |rest| ensures rest[i] != rest[j] {
          assert rest[i] == fs[i + 1] && rest[j] == fs[j + 1];
        }
        forall i | 0 <= i < |rest| ensures rest[i] == fs[i + 1] { }
      }
      RemoveFollowPreservesValid(rest, users, user, author);
      assert fs[0] !in rest by {
        forall j | 0 <= j < |rest| ensures rest[j] != fs[0] {
          assert rest[j] == fs[j + 1];
        }
      }
      var r := RemoveFollow(fs, user, author);
      var tail := RemoveFollow(rest, user, author);
      if fs[0] != Follow(user, author) {
        assert r == [fs[0]] + tail;
        forall i, j | 0 <= i < j < |r| ensures r[i] != r[j] {
          if i == 0 {
            assert r[j] == tail[j - 1] && r[j] in rest;
          } else {
            assert r[i] == tail[i - 1] && r[j] == tail[j - 1];
          }
        }
        forall i | 0 <= i < |r| ensures r[i].user != r[i].author && r[i].user in users && r[i].author in users {
          if i > 0 { assert r[i] == tail[i - 1]; }
        }
      } else {
        assert r == tail;
      }
    }
  }

  /** After `user` follows someone else, the flag on that profile is set;
      after unfollowing, it is cleared; a self-follow request leaves it as
      it was. */
  lemma FlagFollowsRequests(fs: seq<Follow>, user: UserId, author: UserId)
    ensures user != author ==> FollowingFlag(AddFollow(fs, user, author), Some(user), author)
    ensures !FollowingFlag(RemoveFollow(fs, user, author), Some(user), author)
    ensures FollowingFlag(AddFollow(fs, user, user), Some(user), user) == FollowingFlag(fs, Some(user), user)
  {
  }
}
