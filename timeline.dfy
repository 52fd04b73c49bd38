/** The microposts table seen per user: a user's own posts newest-first,
    the feed of own and followed users' posts, and lookup by id. */
module Timeline {
  import opened Wrappers
  import opened Models
  import opened Sequences

  /** Every post is at least as new as every post after it. */
  predicate NewestFirst(s: seq<Micropost>) {
    forall i, j :: 0 <= i < j < |s| ==> s[i].createdAt >= s[j].createdAt
  }

  /** Saved posts carry ids, and the ids grow along the table. */
  predicate IdsIncreasing(s: seq<Micropost>) {
    && (forall i :: 0 <= i < |s| ==> s[i].id.Some?)
    && (forall i, j :: 0 <= i < j < |s| ==> s[i].id.value < s[j].id.value)
  }

  /** `m` placed before the first post strictly older than it. */
  function Insert(m: Micropost, s: seq<Micropost>): (r: seq<Micropost>)
    ensures multiset(r) == multiset(s) + multiset{m}
    ensures |r| == |s| + 1
  {
    if s == [] || m.createdAt >= s[0].createdAt then [m] + s
    else
      assert s == [s[0]] + s[1..];
      [s[0]] + Insert(m, s[1..])
  }

  /** The posts of `Insert(m, s)` are `m` and the posts of `s`. */
  lemma InsertMembers(m: Micropost, s: seq<Micropost>)
    ensures forall x :: x in Insert(m, s) <==> x == m || x in s
  {
    var r := Insert(m, s);
    assert forall x :: x in r <==> x in multiset(r);
    assert forall x :: x in s <==> x in multiset(s);
  }

  /** Inserting into a newest-first sequence keeps it newest-first. */
  lemma {:induction false} InsertNewestFirst(m: Micropost, s: seq<Micropost>)
    requires NewestFirst(s)
    ensures NewestFirst(Insert(m, s))
  {
    if s == [] || m.createdAt >= s[0].createdAt {
      assert Insert(m, s) == [m] + s;
    } else {
      var t := Insert(m, s[1..]);
      InsertNewestFirst(m, s[1..]);
      InsertMembers(m, s[1..]);
      forall k | 0 <= k < |t| ensures s[0].createdAt >= t[k].createdAt {
        if t[k] != m {
          assert t[k] in t;
          var i :| 0 <= i < |s[1..]| && s[1..][i] == t[k];
          assert s[i + 1] == t[k];
        }
      }
      assert Insert(m, s) == [s[0]] + t;
    }
  }

  /** The `created_at DESC` order of a user's microposts: newest first, and
      the same posts as the input. */
  function SortNewestFirst(s: seq<Micropost>): (r: seq<Micropost>)
    ensures NewestFirst(r)
    ensures multiset(r) == multiset(s)
  {
    if s == [] then []
    else
      var t := SortNewestFirst(s[1..]);
      InsertNewestFirst(s[0], t);
      assert multiset(s) == multiset(s[1..]) + multiset{s[0]} by {
        assert s == [s[0]] + s[1..];
      }
      Insert(s[0], t)
  }

  /** The posts whose owner is in `owners`, in table order. */
  function OwnedBy(posts: seq<Micropost>, owners: set<UserId>): (r: seq<Micropost>)
    ensures forall m :: m in r <==> m in posts && m.userId.Some? && m.userId.value in owners
  {
    Filter(posts, (m: Micropost) => m.userId.Some? && m.userId.value in owners)
  }

  /** `user.microposts`: exactly `u`'s posts, newest first. */
  function MicropostsOf(posts: seq<Micropost>, u: UserId): (r: seq<Micropost>)
    ensures NewestFirst(r)
    ensures multiset(r) == multiset(OwnedBy(posts, {u}))
    ensures forall m :: m in r <==> m in posts && m.userId == Some(u)
  {
    var own := OwnedBy(posts, {u});
    var r := SortNewestFirst(own);
    assert forall m :: m in r <==> m in multiset(own);
    r
  }

  /** `user.feed`: the posts of `u` and of every user `u` follows, and no others. */
  function Feed(posts: seq<Micropost>, u: UserId, followed: set<UserId>): (r: seq<Micropost>)
    ensures forall m :: m in r <==> m in posts && m.userId.Some? && (m.userId.value == u || m.userId.value in followed)
  {
    OwnedBy(posts, {u} + followed)
  }

  /** `Micropost.find_by_id`: the post with that id, or nothing. */
  function FindMicropost(posts: seq<Micropost>, id: PostId): (r: Option<Micropost>)
    ensures r.Some? ==> r.value in posts && r.value.id == Some(id)
    ensures r.None? <==> forall m :: m in posts ==> m.id != Some(id)
  {
    if posts == [] then None
    else if posts[0].id == Some(id) then Some(posts[0])
    else
      assert posts == [posts[0]] + posts[1..];
      FindMicropost(posts[1..], id)
  }

  /** Keeping some of the rows keeps the ids growing. */
  lemma {:induction false} FilterKeepsIdsIncreasing(s: seq<Micropost>, keep: Micropost -> bool)
    requires IdsIncreasing(s)
    ensures IdsIncreasing(Filter(s, keep))
  {
    if s != [] {
      FilterKeepsIdsIncreasing(s[1..], keep);
      var rest := Filter(s[1..], keep);
      forall m | m in rest ensures m.id.Some? && s[0].id.value < m.id.value {
        var k :| 0 <= k < |s[1..]| && s[1..][k] == m;
        assert s[k + 1] == m;
      }
      var r := Filter(s, keep);
      if keep(s[0]) {
        assert r == [s[0]] + rest;
        forall j | 0 < j < |r| ensures r[0].id.value < r[j].id.value {
          assert r[j] == rest[j - 1] && rest[j - 1] in rest;
        }
      } else {
        assert r == rest;
      }
    }
  }

  /** In a table whose ids grow, a post is the only one with its id. */
  lemma IdsIdentifyPosts(s: seq<Micropost>, m: Micropost, n: Micropost)
    requires IdsIncreasing(s) && m in s && n in s && m.id == n.id
    ensures m == n
  {
    var i :| 0 <= i < |s| && s[i] == m;
    var j :| 0 <= j < |s| && s[j] == n;
  }

  /** The table once `u`'s posts are deleted (`dependent: :destroy`). */
  function WithoutOwner(posts: seq<Micropost>, u: UserId): (r: seq<Micropost>)
    ensures forall m :: m in r <==> m in posts && m.userId != Some(u)
    ensures IdsIncreasing(posts) ==> IdsIncreasing(r)
  {
    var keep := (m: Micropost) => m.userId != Some(u);
    assert IdsIncreasing(posts) ==> IdsIncreasing(Filter(posts, keep)) by {
      if IdsIncreasing(posts) {
        FilterKeepsIdsIncreasing(posts, keep);
      }
    }
    Filter(posts, keep)
  }

  /** Once `u`'s posts are deleted, `u` has none left. */
  lemma NoPostsLeft(posts: seq<Micropost>, u: UserId)
    ensures MicropostsOf(WithoutOwner(posts, u), u) == []
  {
  }

  /** None of `u`'s former posts can be found by id once they are deleted:
      ids are unique, so no remaining post shares one with them. */
  lemma DeletedPostsNotFound(posts: seq<Micropost>, u: UserId)
    requires IdsIncreasing(posts)
    ensures forall m :: m in MicropostsOf(posts, u) ==>
      m.id.Some? && FindMicropost(WithoutOwner(posts, u), m.id.value) == None
  {
    var kept := WithoutOwner(posts, u);
    forall m | m in MicropostsOf(posts, u)
      ensures m.id.Some? && FindMicropost(kept, m.id.value) == None
    {
      var i :| 0 <= i < |posts| && posts[i] == m;
      forall n | n in kept ensures n.id != m.id {
        if n.id == m.id {
          IdsIdentifyPosts(posts, m, n);
        }
      }
    }
  }

  /** Two posts of one user come out newer first whatever order they were made in. */
  lemma {:induction false} TwoPostsNewestFirst(older: Micropost, newer: Micropost)
    requires older.createdAt < newer.createdAt
    ensures SortNewestFirst([older, newer]) == [newer, older]
    ensures SortNewestFirst([newer, older]) == [newer, older]
  {
    assert [older, newer][1..] == [newer];
    assert [newer, older][1..] == [older];
  }
}
