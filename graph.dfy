/** The follow graph: the relationships table seen as a directed graph
    from followers to the users they follow. */
module Graph {
  import opened Wrappers
  import opened Models
  import opened Sequences

  /** `following?`: some row goes from `a` to `b`. */
  predicate IsFollowing(rels: seq<Relationship>, a: UserId, b: UserId) {
    BuildRelationship(a, b) in rels
  }

  /** `followed_users`: the targets of `a`'s outgoing rows. */
  function FollowedUsers(rels: seq<Relationship>, a: UserId): (r: set<UserId>)
    ensures forall b :: b in r <==> IsFollowing(rels, a, b)
  {
    set rel | rel in rels && rel.followerId == Some(a) && rel.followedId.Some? :: rel.followedId.value
  }

  /** `followers`: the sources of `b`'s incoming rows. */
  function Followers(rels: seq<Relationship>, b: UserId): (r: set<UserId>)
    ensures forall a :: a in r <==> IsFollowing(rels, a, b)
  {
    set rel | rel in rels && rel.followedId == Some(b) && rel.followerId.Some? :: rel.followerId.value
  }

  /** `follow!`: one new row from `a` to `b`. */
  function Link(rels: seq<Relationship>, a: UserId, b: UserId): seq<Relationship> {
    rels + [BuildRelationship(a, b)]
  }

  /** `unfollow!`: the first row from `a` to `b` is destroyed. */
  function Unlink(rels: seq<Relationship>, a: UserId, b: UserId): seq<Relationship> {
    RemoveFirst(rels, BuildRelationship(a, b))
  }

  /** The rows left once user `u` is destroyed: none with `u` at either end. */
  function WithoutUser(rels: seq<Relationship>, u: UserId): (r: seq<Relationship>)
    ensures forall a, b :: IsFollowing(r, a, b) <==> IsFollowing(rels, a, b) && a != u && b != u
  {
    Filter(rels, (rel: Relationship) => rel.followerId != Some(u) && rel.followedId != Some(u))
  }

  /** `b` is among `a`'s followed users exactly when `a` is among `b`'s followers. */
  lemma FollowedFollowersDual(rels: seq<Relationship>, a: UserId, b: UserId)
    ensures b in FollowedUsers(rels, a) <==> a in Followers(rels, b)
  {
  }

  /** After `follow!`, `a` follows `b`, `b` is a followed user of `a`, `a` is a
      follower of `b`, and no other pair changes. */
  lemma FollowEffect(rels: seq<Relationship>, a: UserId, b: UserId)
    ensures IsFollowing(Link(rels, a, b), a, b)
    ensures b in FollowedUsers(Link(rels, a, b), a)
    ensures a in Followers(Link(rels, a, b), b)
    ensures FollowedUsers(Link(rels, a, b), a) == FollowedUsers(rels, a) + {b}
    ensures forall x: UserId, y: UserId :: (x, y) != (a, b) ==> (IsFollowing(Link(rels, a, b), x, y) <==> IsFollowing(rels, x, y))
  {
  }

  /** `unfollow!` of a pair that had at most one row ends that pair and no other. */
  lemma UnlinkPairs(rels: seq<Relationship>, a: UserId, b: UserId)
    requires multiset(rels)[BuildRelationship(a, b)] <= 1
    ensures forall x: UserId, y: UserId ::
      IsFollowing(Unlink(rels, a, b), x, y) <==> IsFollowing(rels, x, y) && (x, y) != (a, b)
  {
    var r := Unlink(rels, a, b);
    forall x: UserId, y: UserId
      ensures IsFollowing(r, x, y) <==> IsFollowing(rels, x, y) && (x, y) != (a, b)
    {
      var z := BuildRelationship(x, y);
      assert z in r <==> multiset(r)[z] > 0;
      assert z in rels <==> multiset(rels)[z] > 0;
    }
  }

  /** After `unfollow!` of a pair that had at most one row, `a` no longer
      follows `b`, `b` leaves `a`'s followed users, `a` leaves `b`'s
      followers, and no other pair changes. */
  lemma UnfollowEffect(rels: seq<Relationship>, a: UserId, b: UserId)
    requires multiset(rels)[BuildRelationship(a, b)] <= 1
    ensures !IsFollowing(Unlink(rels, a, b), a, b)
    ensures FollowedUsers(Unlink(rels, a, b), a) == FollowedUsers(rels, a) - {b}
    ensures Followers(Unlink(rels, a, b), b) == Followers(rels, b) - {a}
    ensures forall x: UserId, y: UserId :: (x, y) != (a, b) ==> (IsFollowing(Unlink(rels, a, b), x, y) <==> IsFollowing(rels, x, y))
  {
    UnlinkPairs(rels, a, b);
    var r := Unlink(rels, a, b);
    assert FollowedUsers(r, a) == FollowedUsers(rels, a) - {b};
    assert Followers(r, b) == Followers(rels, b) - {a};
  }

  /** `unfollow!` right after `follow!` restores the relationships table. */
  lemma UnfollowUndoesFollow(rels: seq<Relationship>, a: UserId, b: UserId)
    requires !IsFollowing(rels, a, b)
    ensures Unlink(Link(rels, a, b), a, b) == rels
  {
    RemoveFirstAppended(rels, BuildRelationship(a, b));
  }
}
