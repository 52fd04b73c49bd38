/** The model and association examples replayed on a fresh store: each
    method builds the rows an example describes, through the store's own
    operations, and states the outcome the example expects. */
module Scenarios {
  import opened Wrappers
  import opened Text
  import opened Models
  import opened Persistence
  import Graph
  import Timeline

  const Day: int := 86400
  const Hour: int := 3600

  /** A user made by the user factory; `k` tells apart the addresses. */
  function Person(k: char): User {
    ExampleUser().(email := [k] + "@" + "example" + "." + "com")
  }

  /** Such a user is valid, and its stored email starts with `k`. */
  lemma PersonIsValid(k: char)
    requires IsLower(k)
    ensures ValidUserFields(Person(k))
    ensures |Downcase(Person(k).email)| > 0 && Downcase(Person(k).email)[0] == k
  {
    var e := Person(k).email;
    assert ValidEmail(e) by {
      assert IsLower('e') && IsLower('c') && IsLower('o') && IsLower('m');
      assert 'e' in "example" && 'c' in "com";
      AcceptsAddress([k], "example", "com", e);
    }
    assert Downcase(e)[0] == LowerChar(e[0]);
    ExampleUserIsValid();
  }

  /** Every saved email is non-empty and starts with a letter of `used`. */
  ghost predicate EmailsStartWith(users: map<UserId, User>, used: set<char>) {
    forall j :: j in users ==> |users[j].email| > 0 && users[j].email[0] in used
  }

  /** Saves `Person(k)` when no saved email starts with `k`. */
  method SavePerson(store: Store, k: char, ghost used: set<char>) returns (id: UserId)
    requires store.Valid() && IsLower(k) && k !in used && EmailsStartWith(store.users, used)
    modifies store
    ensures store.Valid() && EmailsStartWith(store.users, used + {k})
    ensures id !in old(store.users) && id in store.users && store.users.Keys == old(store.users.Keys) + {id}
    ensures store.microposts == old(store.microposts) && store.relationships == old(store.relationships)
  {
    PersonIsValid(k);
    assert !store.EmailTaken(Person(k).email) by {
      forall j | j in store.users ensures Downcase(store.users[j].email) != Downcase(Person(k).email) {
        var e := store.users[j].email;
        assert SavedUser(store.users[j]);
        assert e[0] in e;
        assert Downcase(e)[0] == e[0];
      }
    }
    var saved := store.Save(Person(k));
    id := saved.value;
  }

  /** A user whose email is taken ignoring case, by a copy of it saved
      with the email upcased, is not valid. */
  method EmailTakenScenario() returns (saved: Option<UserId>, valid: bool)
    ensures saved.Some? && !valid
  {
    var store := new Store();
    var user := ExampleUser();
    var dup := user.(email := Upcase(user.email));
    ExampleUserIsValid();
    UpcasedUserValid(user);
    saved := store.Save(dup);
    EmailInIgnoresCase(store.users, dup.email, user.email);
    valid := store.ValidUser(user);
  }

  /** A user saved with a mixed-case email reads back with it all lower-case. */
  method MixedCaseScenario() returns (reloaded: Option<string>)
    ensures reloaded == Some("foo@example.com")
  {
    var store := new Store();
    var user := ExampleUser().(email := "Foo@ExAMPle.CoM");
    MixedCaseUserIsValid();
    DowncaseMixedCase();
    var id := store.Save(user);
    reloaded := if id.Some? then Some(store.users[id.value].email) else None;
  }

  /** The example user with the mixed-case email is valid. */
  lemma MixedCaseUserIsValid()
    ensures ValidUserFields(ExampleUser().(email := "Foo@ExAMPle.CoM"))
  {
    ExampleUserIsValid();
    AcceptsMixedCase();
  }

  lemma AcceptsMixedCase() ensures ValidEmail("Foo@ExAMPle.CoM") {
    AcceptsAddress("Foo", "ExAMPle", "CoM", "Foo@ExAMPle.CoM");
  }

  lemma DowncaseMixedCase() ensures Downcase("Foo@ExAMPle.CoM") == "foo@example.com" {
    var s, t := "Foo@ExAMPle.CoM", "foo@example.com";
    forall i | 0 <= i < |s| ensures Downcase(s)[i] == t[i] {
    }
  }

  /** A saved user posts a day and then an hour before `now`: its
      microposts come newest first, and once the user is destroyed neither
      post can be found by its id. */
  method MicropostAssociationsScenario(now: int) returns (posts: seq<Micropost>, found: seq<Option<Micropost>>)
    ensures |posts| == 2 && posts[0].createdAt == now - Hour && posts[1].createdAt == now - Day
    ensures found == [None, None]
  {
    var store := new Store();
    var u := SavePerson(store, 'u', {});
    BuiltMicropostIsValid(u, now - Day);
    BuiltMicropostIsValid(u, now - Hour);
    var olderId := store.Post(u, "Lorem ipsum", now - Day);
    var newerId := store.Post(u, "Lorem ipsum", now - Hour);
    var older, newer := store.microposts[0], store.microposts[1];
    assert store.microposts == [older, newer];
    assert Timeline.OwnedBy(store.microposts, {u}) == [older, newer];
    Timeline.TwoPostsNewestFirst(older, newer);
    posts := store.MicropostsOf(u);
    assert older in posts && newer in posts;
    Timeline.DeletedPostsNotFound(store.microposts, u);
    store.Destroy(u);
    found := [store.FindMicropost(olderId.value), store.FindMicropost(newerId.value)];
  }

  /** `count.times { owner.microposts.create! content: "Lorem ipsum" }` at time `now`. */
  method PostMany(store: Store, owner: UserId, now: int, count: nat) returns (posted: seq<Micropost>)
    requires store.Valid() && owner in store.users
    modifies store
    ensures store.Valid()
    ensures store.microposts == old(store.microposts) + posted && |posted| == count
    ensures forall m :: m in posted ==> m.userId == Some(owner) && m.createdAt == now
    ensures store.users == old(store.users) && store.relationships == old(store.relationships)
  {
    BuiltMicropostIsValid(owner, now);
    posted := [];
    while |posted| < count
      invariant store.Valid() && |posted| <= count
      invariant store.microposts == old(store.microposts) + posted
      invariant forall m :: m in posted ==> m.userId == Some(owner) && m.createdAt == now
      invariant store.users == old(store.users) && store.relationships == old(store.relationships)
    {
      var id := store.Post(owner, "Lorem ipsum", now);
      posted := posted + [BuildMicropost(owner, "Lorem ipsum", now).(id := id)];
    }
  }

  /** The rows of the feed example: `u` posted a day and an hour ago, `o`
      posted once, and `u` follows `f`, who then posted three times. */
  method FeedRows(now: int) returns (store: Store, u: UserId, own: seq<Micropost>, followed: seq<Micropost>, unfollowed: seq<Micropost>)
    ensures store.Valid()
    ensures |own| == 2 && |followed| == 3 && |unfollowed| == 1
    ensures forall m :: m in own ==> m in store.microposts && m.userId == Some(u)
    ensures forall m :: m in followed ==> m in store.microposts && m.userId.Some? && m.userId.value in store.FollowedUsers(u)
    ensures forall m :: m in unfollowed ==> m.userId.Some? && m.userId.value != u && m.userId.value !in store.FollowedUsers(u)
  {
    store := new Store();
    u := SavePerson(store, 'u', {});
    var o := SavePerson(store, 'o', {'u'});
    var f := SavePerson(store, 'f', {'u', 'o'});
    var older := PostMany(store, u, now - Day, 1);
    var newer := PostMany(store, u, now - Hour, 1);
    own := newer + older;
    unfollowed := PostMany(store, o, now, 1);
    var ok := store.Follow(u, f);
    assert !store.IsFollowing(u, o);
    followed := PostMany(store, f, now, 3);
  }

  /** A user who follows another sees in its feed its own posts and the
      followed user's, and not the post of a user it does not follow. */
  method FeedScenario(now: int) returns (feed: seq<Micropost>, own: seq<Micropost>, followed: seq<Micropost>, unfollowed: seq<Micropost>)
    ensures |own| == 2 && |followed| == 3 && |unfollowed| == 1
    ensures forall m :: m in own ==> m in feed
    ensures forall m :: m in followed ==> m in feed
    ensures forall m :: m in unfollowed ==> m !in feed
  {
    var store, u;
    store, u, own, followed, unfollowed := FeedRows(now);
    feed := store.Feed(u);
  }

  /** After `follow!` the follower follows the other user, who counts it
      among its followers; after `unfollow!` it follows the other no more. */
  method FollowingScenario() returns (u: UserId, other: UserId, before: bool, followedBefore: set<UserId>, followersBefore: set<UserId>, after: bool, followedAfter: set<UserId>)
    ensures u != other
    ensures before && other in followedBefore && u in followersBefore
    ensures !after && other !in followedAfter && followedAfter == {}
  {
    var store := new Store();
    u := SavePerson(store, 'u', {});
    other := SavePerson(store, 'o', {'u'});
    var ok := store.Follow(u, other);
    before := store.IsFollowing(u, other);
    followedBefore := store.FollowedUsers(u);
    followersBefore := store.Followers(other);
    assert store.relationships == [BuildRelationship(u, other)];
    assert multiset(store.relationships)[BuildRelationship(u, other)] == 1;
    store.Unfollow(u, other);
    after := store.IsFollowing(u, other);
    followedAfter := store.FollowedUsers(u);
  }
}
