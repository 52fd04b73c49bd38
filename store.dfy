/** The database behind the three models: the users, microposts and
    relationships tables, and the operations that change them — `save`,
    `follow!`, `unfollow!`, `destroy` and micropost creation — with the
    queries the models answer over the current rows. */
module Persistence {
  import opened Wrappers
  import opened Text
  import opened Models
  import opened Sequences
  import Graph
  import Timeline

  /** Saved users pass their validations, hold a lower-case email that no
      other saved user holds, and have ids below the next one to be given. */
  ghost predicate UsersTable(users: map<UserId, User>, nextUserId: UserId) {
    && (forall id :: id in users ==> id < nextUserId)
    && (forall id {:trigger SavedUser(users[id])} :: id in users ==> SavedUser(users[id]))
    && (forall a, b :: a in users && b in users && a != b ==> users[a].email != users[b].email)
  }

  /** A stored user passes its validations and holds a lower-case email. */
  predicate SavedUser(u: User) {
    ValidUserFields(u) && IsLowerCase(u.email)
  }

  /** Saved microposts are valid, belong to saved users, and carry ids that
      grow along the table and stay below the next one to be given. */
  ghost predicate MicropostsTable(posts: seq<Micropost>, users: map<UserId, User>, nextPostId: PostId) {
    && Timeline.IdsIncreasing(posts)
    && (forall m :: m in posts ==>
          ValidMicropost(m) && m.userId.value in users && m.id.Some? && m.id.value < nextPostId)
  }

  /** Saved relationships are valid and join two saved users. */
  ghost predicate RelationshipsTable(rels: seq<Relationship>, users: map<UserId, User>) {
    forall r :: r in rels ==> ValidRelationship(r) && r.followerId.value in users && r.followedId.value in users
  }

  /** Some user in `users` has `email`, ignoring case. */
  predicate EmailIn(users: map<UserId, User>, email: string) {
    exists id :: id in users && Downcase(users[id].email) == Downcase(email)
  }

  /** A user that passes its validations still does once its email is down-cased. */
  lemma DowncasedUserValid(u: User)
    requires ValidUserFields(u)
    ensures SavedUser(u.(email := Downcase(u.email)))
  {
    DowncaseEmail(u.email);
    DowncasePreservesBlank(u.email);
    DowncaseIsLowerCase(u.email);
  }

  /** An email not taken, ignoring case, differs from every stored (lower-case) email once down-cased. */
  lemma UntakenEmailIsNew(users: map<UserId, User>, next: UserId, email: string)
    requires UsersTable(users, next) && !EmailIn(users, email)
    ensures forall w :: w in users ==> users[w].email != Downcase(email)
  {
    forall w | w in users ensures users[w].email != Downcase(email) {
      DowncaseFixedPoint(users[w].email);
    }
  }

  /** Once a user is stored with the down-cased `email`, that email is taken. */
  lemma StoredEmailIsTaken(users: map<UserId, User>, id: UserId, u: User)
    ensures EmailIn(users[id := u.(email := Downcase(u.email))], u.email)
  {
    DowncaseIdempotent(u.email);
    var stored := users[id := u.(email := Downcase(u.email))];
    assert id in stored && Downcase(stored[id].email) == Downcase(u.email);
  }

  /** Whether an email is taken does not depend on its case. */
  lemma EmailInIgnoresCase(users: map<UserId, User>, e: string, f: string)
    requires Downcase(e) == Downcase(f)
    ensures EmailIn(users, e) <==> EmailIn(users, f)
  {
  }

  lemma UsersTableAdd(users: map<UserId, User>, next: UserId, stored: User)
    requires UsersTable(users, next)
    requires SavedUser(stored)
    requires forall w :: w in users ==> users[w].email != stored.email
    ensures UsersTable(users[next := stored], next + 1)
  {
  }

  lemma UsersTableRemove(users: map<UserId, User>, next: UserId, u: UserId)
    requires UsersTable(users, next)
    ensures UsersTable(users - {u}, next)
  {
  }

  lemma MicropostsTableMoreUsers(posts: seq<Micropost>, users: map<UserId, User>, more: map<UserId, User>, next: PostId)
    requires MicropostsTable(posts, users, next) && users.Keys <= more.Keys
    ensures MicropostsTable(posts, more, next)
  {
  }

  lemma RelationshipsTableMoreUsers(rels: seq<Relationship>, users: map<UserId, User>, more: map<UserId, User>)
    requires RelationshipsTable(rels, users) && users.Keys <= more.Keys
    ensures RelationshipsTable(rels, more)
  {
  }

  lemma MicropostsTableAppend(posts: seq<Micropost>, users: map<UserId, User>, next: PostId, m: Micropost)
    requires MicropostsTable(posts, users, next)
    requires ValidMicropost(m) && m.userId.value in users && m.id == Some(next)
    ensures MicropostsTable(posts + [m], users, next + 1)
  {
    var s := posts + [m];
    forall i, j | 0 <= i < j < |s| ensures s[i].id.value < s[j].id.value {
      if j == |posts| {
        assert s[i] in posts;
      }
    }
  }

  lemma MicropostsTableWithoutUser(posts: seq<Micropost>, users: map<UserId, User>, next: PostId, u: UserId)
    requires MicropostsTable(posts, users, next)
    ensures MicropostsTable(Timeline.WithoutOwner(posts, u), users - {u}, next)
  {
  }

  lemma RelationshipsTableWithoutUser(rels: seq<Relationship>, users: map<UserId, User>, u: UserId)
    requires RelationshipsTable(rels, users)
    ensures RelationshipsTable(Graph.WithoutUser(rels, u), users - {u})
  {
  }

  lemma RelationshipsTableSubset(rels: seq<Relationship>, fewer: seq<Relationship>, users: map<UserId, User>)
    requires RelationshipsTable(rels, users)
    requires forall r :: r in fewer ==> r in rels
    ensures RelationshipsTable(fewer, users)
  {
  }

  class Store {
    var users: map<UserId, User>
    var microposts: seq<Micropost>
    var relationships: seq<Relationship>
    var nextUserId: UserId
    var nextPostId: PostId

    ghost predicate Valid()
      reads this
    {
      && UsersTable(users, nextUserId)
      && MicropostsTable(microposts, users, nextPostId)
      && RelationshipsTable(relationships, users)
    }

    constructor ()
      ensures Valid()
      ensures users == map[] && microposts == [] && relationships == []
    {
      users, microposts, relationships := map[], [], [];
      nextUserId, nextPostId := 0, 0;
    }

    // -------------------------------------------------------------------
    // Queries over the current rows.

    /** Some saved user has `email`, ignoring case. */
    predicate EmailTaken(email: string)
      reads this
    {
      EmailIn(users, email)
    }

    /** `valid?` for a user that is not yet saved. */
    predicate ValidUser(u: User)
      reads this
    {
      ValidUserFields(u) && !EmailTaken(u.email)
    }

    predicate IsFollowing(a: UserId, b: UserId)
      reads this
    {
      Graph.IsFollowing(relationships, a, b)
    }

    function FollowedUsers(a: UserId): set<UserId>
      reads this
    {
      Graph.FollowedUsers(relationships, a)
    }

    function Followers(b: UserId): set<UserId>
      reads this
    {
      Graph.Followers(relationships, b)
    }

    function MicropostsOf(u: UserId): seq<Micropost>
      reads this
    {
      Timeline.MicropostsOf(microposts, u)
    }

    function Feed(u: UserId): seq<Micropost>
      reads this
    {
      Timeline.Feed(microposts, u, FollowedUsers(u))
    }

    function FindMicropost(id: PostId): Option<Micropost>
      reads this
    {
      Timeline.FindMicropost(microposts, id)
    }

    // -------------------------------------------------------------------
    // Operations that change the rows.

    /** `save` of a new user: when every validation passes, the user is
        stored under a fresh id with its email down-cased; otherwise nothing
        changes. Afterwards no user with that email, in any case, is valid. */
    method Save(u: User) returns (id: Option<UserId>)
      requires Valid()
      modifies this
      ensures Valid()
      ensures id.Some? <==> old(ValidUser(u))
      ensures id.Some? ==> id.value !in old(users) && users == old(users)[id.value := u.(email := Downcase(u.email))]
      ensures id.None? ==> users == old(users)
      ensures microposts == old(microposts) && relationships == old(relationships)
      ensures id.Some? ==> EmailTaken(u.email)
    {
      if ValidUserFields(u) && !EmailTaken(u.email) {
        var stored := u.(email := Downcase(u.email));
        var more := users[nextUserId := stored];
        assert UsersTable(more, nextUserId + 1) by {
          DowncasedUserValid(u);
          UntakenEmailIsNew(users, nextUserId, u.email);
          UsersTableAdd(users, nextUserId, stored);
        }
        assert MicropostsTable(microposts, more, nextPostId) by {
          MicropostsTableMoreUsers(microposts, users, more, nextPostId);
        }
        assert RelationshipsTable(relationships, more) by {
          RelationshipsTableMoreUsers(relationships, users, more);
        }
        assert EmailIn(more, u.email) by {
          StoredEmailIsTaken(users, nextUserId, u);
        }
        id := Some(nextUserId);
        users := more;
        nextUserId := nextUserId + 1;
      } else {
        id := None;
      }
    }

    /** `user.microposts.create!` at time `now`: a valid post from a saved
        user is appended under a fresh id; otherwise nothing changes. */
    method Post(owner: UserId, content: string, now: int) returns (id: Option<PostId>)
      requires Valid()
      modifies this
      ensures Valid()
      ensures id.Some? <==> owner in users && ValidMicropost(BuildMicropost(owner, content, now))
      ensures id.Some? ==> microposts == old(microposts) + [BuildMicropost(owner, content, now).(id := id)]
      ensures id.Some? ==> forall m :: m in old(microposts) ==> m.id != id
      ensures id.None? ==> microposts == old(microposts)
      ensures users == old(users) && relationships == old(relationships)
    {
      var m := BuildMicropost(owner, content, now);
      if owner in users && ValidMicropost(m) {
        id := Some(nextPostId);
        MicropostsTableAppend(microposts, users, nextPostId, m.(id := id));
        microposts := microposts + [m.(id := id)];
        nextPostId := nextPostId + 1;
      } else {
        id := None;
      }
    }

    /** `follow!`: a row from `a` to `b` is added when both are saved users. */
    method Follow(a: UserId, b: UserId) returns (ok: bool)
      requires Valid()
      modifies this
      ensures Valid()
      ensures ok <==> a in users && b in users
      ensures relationships == if ok then Graph.Link(old(relationships), a, b) else old(relationships)
      ensures ok ==> IsFollowing(a, b) && b in FollowedUsers(a) && a in Followers(b)
      ensures users == old(users) && microposts == old(microposts)
    {
      ok := a in users && b in users;
      if ok {
        relationships := Graph.Link(relationships, a, b);
        Graph.FollowEffect(old(relationships), a, b);
      }
    }

    /** `unfollow!`: the first row from `a` to `b` is destroyed. When there
        was at most one, `a` no longer follows `b`. */
    method Unfollow(a: UserId, b: UserId)
      requires Valid()
      modifies this
      ensures Valid()
      ensures relationships == Graph.Unlink(old(relationships), a, b)
      ensures multiset(old(relationships))[BuildRelationship(a, b)] <= 1 ==>
        !IsFollowing(a, b) && b !in FollowedUsers(a) && a !in Followers(b)
      ensures users == old(users) && microposts == old(microposts)
    {
      var before := relationships;
      RelationshipsTableSubset(before, Graph.Unlink(before, a, b), users);
      relationships := Graph.Unlink(before, a, b);
      if multiset(before)[BuildRelationship(a, b)] <= 1 {
        Graph.UnfollowEffect(before, a, b);
        assert !Graph.IsFollowing(relationships, a, b);
        assert b !in Graph.FollowedUsers(relationships, a);
        assert a !in Graph.Followers(relationships, b);
      }
    }

    /** `destroy`: the user, its microposts and every relationship with the
        user at either end are deleted. What that leaves the user with is
        proved of the new tables by `Timeline.NoPostsLeft`,
        `Timeline.DeletedPostsNotFound` and `Graph.WithoutUser`. */
    method Destroy(u: UserId)
      requires Valid()
      modifies this
      ensures Valid()
      ensures users == old(users) - {u}
      ensures microposts == Timeline.WithoutOwner(old(microposts), u)
      ensures relationships == Graph.WithoutUser(old(relationships), u)
      ensures nextUserId == old(nextUserId) && nextPostId == old(nextPostId)
    {
      var fewer, kept, rels := users - {u}, Timeline.WithoutOwner(microposts, u), Graph.WithoutUser(relationships, u);
      assert UsersTable(fewer, nextUserId) by {
        UsersTableRemove(users, nextUserId, u);
      }
      assert MicropostsTable(kept, fewer, nextPostId) by {
        MicropostsTableWithoutUser(microposts, users, nextPostId, u);
      }
      assert RelationshipsTable(rels, fewer) by {
        RelationshipsTableWithoutUser(relationships, users, u);
      }
      users, microposts, relationships := fewer, kept, rels;
    }
  }
}
