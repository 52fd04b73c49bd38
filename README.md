# Social network sample application — domain model in Dafny

This project models the domain core of a small Rails social network (the
Rails 3 tutorial sample application). It has three records:

- users, with name, email, password and an admin flag;
- microposts: short texts owned by a user and stamped with a creation time;
- relationships: directed "follower → followed" edges between users.

Around them the model holds:

- the validations each record runs before it is saved;
- a store of saved rows, with the operations that change it: `save`,
  `microposts.create!`, `follow!`, `unfollow!` and `destroy`;
- the queries answered over the current rows: `following?`,
  `followed_users`, `followers`, `microposts` and `feed`;
- the `full_title` page-title helper.

The behaviour modelled is the one the model examples (`spec/models/*_spec.rb`)
pin down for the `User`, `Micropost` and `Relationship` models.

Modules, one per concern:

- `Wrappers` — `Option`, standing for Ruby's `nil`.
- `Text` — ASCII `downcase`/`upcase`, blankness, and the email address
  grammar, split at the first `@` and at the last `.` of the host.
- `Models` — the `User`, `Micropost` and `Relationship` records, their
  builders, their validations, and the example records of the model examples.
- `Sequences` — row filtering and deletion of the first matching row.
- `Graph` — the relationships table seen as a follow graph.
- `Timeline` — a user's microposts newest first, the feed, and lookup by id.
- `Persistence` — the `Store` class. Its fields are the three tables and the
  two id counters. Its methods change them in place and keep an invariant
  `Valid()` on every saved row.
- `ApplicationHelper` — `full_title`.
- `Scenarios` — the model examples replayed on a fresh `Store`.

Ids are natural numbers handed out by counters. Timestamps are integers
supplied by the caller.

## Model

| member | source | states |
|---|---|---|
| Models.NewUser | spec/models/user_spec.rb:5-8 | defines `User.new` from name, email, password and confirmation; the admin flag starts false and is never taken from input |
| Models.BuildMicropost | spec/models/micropost_spec.rb:7-9 | defines `user.microposts.build content:`: an unsaved post (no id) owned by the user, stamped with the given time |
| Models.BuildRelationship | spec/models/relationship_spec.rb:7 | defines `follower.relationships.build followed_id:`: an edge whose follower is taken from the parent user |
| Models.ValidName | spec/models/user_spec.rb:40-48 | defines the name validations: present (not blank) and at most 50 characters |
| Models.ValidEmail | spec/models/user_spec.rb:50-73 | defines the email validations that need no other rows: present and well-formed |
| Models.ValidPassword | spec/models/user_spec.rb:95-113 | defines the password validations: password present and at least 6 characters, confirmation present and equal to it |
| Models.ValidUserFields | spec/models/user_spec.rb:30-113 | defines `valid?` of a user apart from email uniqueness: the name, email and password validations together |
| Models.ValidMicropost | spec/models/micropost_spec.rb:17-43 | defines `valid?` of a micropost: an owner id, content present and at most 140 characters |
| Models.ValidRelationship | spec/models/relationship_spec.rb:11-40 | defines `valid?` of a relationship: both a follower id and a followed id |
| Models.ExampleUserIsValid | spec/models/user_spec.rb:5-8 | the example user (name "Example User", email "user@example.com", password and confirmation "foobar") passes every field validation and is not an admin |
| Models.NameExamples | spec/models/user_spec.rb:40-48 | a blank name is invalid, as are `" "` and a name of one ideographic space; a 51-character name is invalid, and so is every name longer than 50 characters |
| Models.InvalidEmailExamples | spec/models/user_spec.rb:50-63 | a blank email is invalid, and so are `user@foo,com`, `user_at_foo.org`, `example.user@foo.`, `foo@bar_baz.com` and `foo@bar+baz.com` |
| Models.ValidEmailExamples | spec/models/user_spec.rb:65-73 | `user@foo.COM`, `A_US-ER@f.b.org`, `frst.lst@foo.jp` and `a+b@baz.cn` are accepted |
| Models.AcceptsAddress | spec/models/user_spec.rb:65-73 | any local part, `@`, domain name, `.` and letters-only top-level part together form a present, well-formed email |
| Models.RejectsHostChar | spec/models/user_spec.rb:55-63 | an address whose host, before its last dot, holds a character outside letters, digits, `-` and `.` is malformed |
| Models.RejectsDotlessHost | spec/models/user_spec.rb:55-63 | an address with no dot after its `@` is malformed |
| Models.ValidEmailIgnoresCase | spec/models/user_spec.rb:75-93 | two emails equal once down-cased are both valid or both invalid |
| Models.UpcasedUserValid | spec/models/user_spec.rb:75-83 | a valid user with its email up-cased is still valid, and both emails down-case to the same address |
| Models.PasswordRules | spec/models/user_spec.rb:95-113 | a user is invalid when its password is nil or blank, its confirmation differs from the password or is nil, or its password is shorter than 6 characters |
| Models.PasswordExamples | spec/models/user_spec.rb:95-113 | the four password cases of the examples, applied to the example user, each make it invalid |
| Models.Authenticate | spec/models/user_spec.rb:115-134 | the user is returned exactly when the secret equals its stored credential; otherwise the result is nil |
| Models.AuthenticateExamples | spec/models/user_spec.rb:119-133 | the example user authenticates with "foobar" and not with "invalid" |
| Models.BuiltMicropostIsValid | spec/models/micropost_spec.rb:7-8 | a micropost built from a user with "Lorem ipsum" is valid and its owner is that user |
| Models.MicropostRules | spec/models/micropost_spec.rb:30-43 | a micropost with no owner, with empty content, or with more than 140 characters is invalid |
| Models.ContentLengthBoundary | spec/models/micropost_spec.rb:40-43 | 141 characters are rejected and 140 are accepted |
| Models.BuiltRelationshipIsValid | spec/models/relationship_spec.rb:7-30 | a relationship built from a follower with a followed id is valid and records the follower and the followed user as its endpoints |
| Models.RelationshipRules | spec/models/relationship_spec.rb:32-40 | a relationship missing its follower id or its followed id is invalid |
| Text.IsWhitespace | spec/models/user_spec.rb:40-53 | defines the characters `blank?` skips: the Unicode White_Space characters that `[[:space:]]` matches |
| Text.IsBlank | spec/models/user_spec.rb:40-53 | defines `blank?`: the string is empty or holds only whitespace |
| Text.Downcase | spec/models/user_spec.rb:85-93 | defines `downcase` on ASCII letters; the result has the same length as the input |
| Text.Upcase | spec/models/user_spec.rb:75-80 | defines `upcase` on ASCII letters; the result has the same length as the input |
| Text.IsEmail | spec/models/user_spec.rb:55-73 | defines the email format: a local part before the first `@`, then a host whose part after its last `.` is the top-level part |
| Text.DowncaseIsLowerCase | spec/models/user_spec.rb:85-93 | a down-cased string has no upper-case letter |
| Text.DowncaseFixedPoint | spec/models/user_spec.rb:85-93 | down-casing leaves a string unchanged exactly when it has no upper-case letter |
| Text.DowncaseIdempotent | spec/models/user_spec.rb:85-93 | down-casing twice is down-casing once |
| Text.DowncaseUpcase | spec/models/user_spec.rb:75-83 | an up-cased string down-cases to the same string as the original |
| Text.DowncasePreservesBlank | spec/models/user_spec.rb:50-53 | a string is blank exactly when its down-cased form is |
| Text.IndexOf | spec/models/user_spec.rb:55-73 | the result is the first position of the character, or -1 exactly when it does not occur |
| Text.LastIndexOf | spec/models/user_spec.rb:55-73 | the result is the last position of the character, or -1 exactly when it does not occur |
| Text.EmailFromParts | spec/models/user_spec.rb:65-73 | a local part, `@`, a domain name, `.` and a top-level part always form a well-formed address |
| Text.EmailHasParts | spec/models/user_spec.rb:55-73 | every well-formed address yields a local part, a domain and a top-level part of which it is the concatenation, so the grammar is exactly the set of those concatenations |
| Text.DowncaseEmail | spec/models/user_spec.rb:85-93 | an address is well-formed exactly when its down-cased form is, so storing it lower-case never makes a saved email malformed |
| Sequences.Filter | spec/models/user_spec.rb:157-165 | the kept rows are exactly the rows that satisfy the condition, and there are no more of them than before |
| Sequences.RemoveFirst | spec/models/user_spec.rb:210-214 | exactly one copy of the row is deleted, if it is there; nothing else is added or lost |
| Sequences.RemoveFirstAppended | spec/models/user_spec.rb:195-214 | deleting the first copy of a row undoes appending a row that was not there |
| Graph.IsFollowing | spec/models/user_spec.rb:202 | defines `following?`: some row goes from `a` to `b` |
| Graph.Link | spec/models/user_spec.rb:199 | defines `follow!` on the relationships table: one row from `a` to `b` is added |
| Graph.Unlink | spec/models/user_spec.rb:211 | defines `unfollow!` on the relationships table: the first row from `a` to `b` is destroyed |
| Graph.FollowedUsers | spec/models/user_spec.rb:203 | the followed users of `a` are exactly the `b` that `a` is following |
| Graph.Followers | spec/models/user_spec.rb:205-208 | the followers of `b` are exactly the `a` following `b` |
| Graph.WithoutUser | spec/models/user_spec.rb:157-165 | after removing a user's rows, a pair follows exactly when it did before and neither end is that user |
| Graph.FollowedFollowersDual | spec/models/user_spec.rb:202-208 | `b` is among `a`'s followed users exactly when `a` is among `b`'s followers |
| Graph.FollowEffect | spec/models/user_spec.rb:195-208 | after `follow!`, `a` follows `b`, `b` joins `a`'s followed users, `a` joins `b`'s followers, and no other pair changes |
| Graph.UnlinkPairs | spec/models/user_spec.rb:210-214 | `unfollow!` of a pair with at most one row ends that pair and keeps every other pair |
| Graph.UnfollowEffect | spec/models/user_spec.rb:210-214 | after `unfollow!`, `a` no longer follows `b`, and `b` and `a` leave each other's followed-users and followers sets; no other pair changes |
| Graph.UnfollowUndoesFollow | spec/models/user_spec.rb:195-214 | `unfollow!` right after `follow!` of a new pair restores the relationships table |
| Timeline.Insert | spec/models/user_spec.rb:153-155 | inserting a post adds exactly that post, as a multiset |
| Timeline.InsertNewestFirst | spec/models/user_spec.rb:153-155 | inserting into a newest-first list keeps it newest first |
| Timeline.SortNewestFirst | spec/models/user_spec.rb:153-155 | the result is newest first and a permutation of the input |
| Timeline.OwnedBy | spec/models/user_spec.rb:167-192 | the result holds exactly the posts whose owner is in the given set |
| Timeline.MicropostsOf | spec/models/user_spec.rb:144-155 | a user's microposts are newest first, the same multiset as the user's rows, and exactly the posts owned by that user |
| Timeline.Feed | spec/models/user_spec.rb:167-192 | the feed holds exactly the posts owned by the user or by a user it follows |
| Timeline.FindMicropost | spec/models/user_spec.rb:162-164 | the result is a post with that id, or nil exactly when no post has it |
| Timeline.FilterKeepsIdsIncreasing | spec/models/user_spec.rb:157-165 | deleting rows keeps the ids of the remaining posts increasing |
| Timeline.IdsIdentifyPosts | spec/models/user_spec.rb:157-165 | in a table with increasing ids, two posts with the same id are the same post |
| Timeline.WithoutOwner | spec/models/user_spec.rb:157-165 | the remaining posts are exactly those not owned by the user, and their ids stay increasing |
| Timeline.NoPostsLeft | spec/models/user_spec.rb:157-165 | once a user's posts are deleted, the user has no microposts |
| Timeline.DeletedPostsNotFound | spec/models/user_spec.rb:157-165 | after deleting a user's posts, looking up any of its former posts by id finds nothing |
| Timeline.TwoPostsNewestFirst | spec/models/user_spec.rb:146-155 | an older and a newer post come out newer first, in whichever order they were stored |
| Persistence.EmailIn | spec/models/user_spec.rb:75-83 | defines the uniqueness test: some stored user has the email, ignoring case |
| Persistence.DowncasedUserValid | spec/models/user_spec.rb:85-93 | a valid user stays valid once its email is down-cased, and that email is lower-case |
| Persistence.UntakenEmailIsNew | spec/models/user_spec.rb:75-83 | an email not taken in any case differs from every stored email once down-cased |
| Persistence.StoredEmailIsTaken | spec/models/user_spec.rb:75-83 | once a user is stored with its down-cased email, that email is taken |
| Persistence.EmailInIgnoresCase | spec/models/user_spec.rb:75-83 | whether an email is taken does not depend on its letter case |
| Persistence.UsersTableAdd | spec/models/user_spec.rb:75-93 | adding a valid user whose lower-case email is new keeps the users table invariant |
| Persistence.UsersTableRemove | spec/models/user_spec.rb:157-165 | deleting a user keeps the users table invariant |
| Persistence.MicropostsTableAppend | spec/models/user_spec.rb:146-151 | appending a valid post of a saved user under the next id keeps the microposts table invariant |
| Persistence.MicropostsTableWithoutUser | spec/models/user_spec.rb:157-165 | deleting a user's posts, together with the user, keeps the microposts table invariant |
| Persistence.RelationshipsTableWithoutUser | spec/models/user_spec.rb:157-165 | deleting a user's edges, together with the user, keeps the relationships table invariant |
| Persistence.RelationshipsTableSubset | spec/models/user_spec.rb:210-214 | any subset of valid edges between saved users is valid |
| Persistence.Store.constructor | spec/models/user_spec.rb:5-8 | an empty store satisfies the invariant |
| Persistence.Store.EmailTaken | spec/models/user_spec.rb:75-83 | defines whether an email is taken, ignoring case, among the saved users |
| Persistence.Store.ValidUser | spec/models/user_spec.rb:30-113 | defines `valid?` of an unsaved user against the store: its field validations hold and its email is not taken |
| Persistence.Store.IsFollowing | spec/models/user_spec.rb:202-212 | defines `following?` on the current relationships |
| Persistence.Store.FollowedUsers | spec/models/user_spec.rb:203-213 | defines `followed_users` on the current relationships |
| Persistence.Store.Followers | spec/models/user_spec.rb:205-208 | defines `followers` on the current relationships |
| Persistence.Store.MicropostsOf | spec/models/user_spec.rb:153-155 | defines `user.microposts` on the current microposts, newest first |
| Persistence.Store.Feed | spec/models/user_spec.rb:167-192 | defines `user.feed`: the current posts of the user and of the users it follows |
| Persistence.Store.FindMicropost | spec/models/user_spec.rb:162-164 | defines `Micropost.find_by_id` on the current microposts |
| Persistence.Store.Save | spec/models/user_spec.rb:75-93 | a user is saved exactly when it is valid, including case-insensitive email uniqueness. On success it is stored under a fresh id with its email down-cased, and the email is then taken. On failure nothing changes. The invariant is kept. |
| Persistence.Store.Post | spec/models/user_spec.rb:146-151 | a post is appended under a fresh id exactly when its owner is saved and it is valid; otherwise nothing changes. The invariant is kept. |
| Persistence.Store.Follow | spec/models/user_spec.rb:195-208 | an edge from `a` to `b` is appended exactly when both are saved users; then `a` follows `b`, `b` is among `a`'s followed users and `a` among `b`'s followers |
| Persistence.Store.Unfollow | spec/models/user_spec.rb:210-214 | the first edge from `a` to `b` is deleted; when there was at most one, `a` no longer follows `b` and the two leave each other's sets |
| Persistence.Store.Destroy | spec/models/user_spec.rb:157-165 | the user, its posts and every edge with the user at either end are deleted, and the invariant is kept |
| ApplicationHelper.FullTitle | app/helpers/application_helper.rb:3-6 | an empty page title gives exactly "RoR Tutorial App"; any other gives "RoR Tutorial App &#124; " followed by the page title |
| ApplicationHelper.FullTitleStartsWithBase | app/helpers/application_helper.rb:4-5 | every title starts with "RoR Tutorial App" and is never empty |
| ApplicationHelper.FullTitleEndsWithPage | app/helpers/application_helper.rb:5 | for a non-empty page title, the result is 19 characters longer, ends with the page title and has the separator in between |
| ApplicationHelper.FullTitleInjective | app/helpers/application_helper.rb:4-5 | distinct page titles give distinct full titles |
| ApplicationHelper.FullTitleExamples | app/helpers/application_helper.rb:4-5 | "" gives "RoR Tutorial App" with no separator; "Help" gives "RoR Tutorial App &#124; Help" |
| Scenarios.PersonIsValid | spec/models/user_spec.rb:196 | a factory user with a one-letter local part is valid |
| Scenarios.EmailTakenScenario | spec/models/user_spec.rb:75-83 | after a copy of the example user with its email up-cased is saved, the example user is not valid |
| Scenarios.MixedCaseScenario | spec/models/user_spec.rb:85-93 | a user saved with "Foo@ExAMPle.CoM" reads back with "foo@example.com" |
| Scenarios.MicropostAssociationsScenario | spec/models/user_spec.rb:144-165 | posts made a day and an hour ago come out as [newer, older]; after the user is destroyed, neither can be found by id |
| Scenarios.PostMany | spec/models/user_spec.rb:175 | `3.times { create! }` appends that many posts of the owner, at the given time, to the table |
| Scenarios.FeedScenario | spec/models/user_spec.rb:167-192 | the feed holds the user's two posts and the followed user's three posts, and not the post of the user it does not follow |
| Scenarios.FollowingScenario | spec/models/user_spec.rb:195-214 | after `follow!` the user follows the other user, the other is among its followed users, and it is among the other's followers; after `unfollow!` it no longer follows the other, which has left its followed users |

## Left out

- Password hashing and `password_digest`: the credential is kept as the plain password, and `authenticate` compares for equality. Hashing belongs to an external library.
- `remember_token`: a random token generated on save. Randomness is outside the model.
- Mass-assignment errors: these are framework behaviour. The builders take `admin`, a micropost's owner and a relationship's follower from the parent record, never from input.
- Blankness covers the Unicode White_Space characters that `[[:space:]]` matches. Other invisible characters, such as U+200B, count as non-blank, as in Ruby.
- Page rendering, the request examples and the static pages controller: UI and controller glue.
- Database persistence, `reload` and `find_by_email`: `reload` is reading the stored row back by id.
- The email regular expression: the regular expression itself is not modelled. The address grammar in `Text.IsEmail` is chosen to agree with every example address: a local part of word characters, `+`, `-` and `.`; an `@`; a host whose part after its last `.` is letters only, and whose part before it is letters, digits, `-` and `.`; letters in either case.
- Feed order: the examples check only which posts the feed holds, so `Timeline.Feed` keeps table order. Recency order is modelled only for a user's own microposts.
- Self-follow prohibition and duplicate-edge uniqueness: no example states them. `Store.Follow` appends an edge whenever both ends are saved users, so a repeated `follow!` makes a second row.
- Persistence.Store.Unfollow: its postcondition about ending the pair is stated only for pairs with at most one row. With duplicate rows, `unfollow!` deletes one of them and the pair stays.
- Persistence.Store.Unfollow: with no row for the pair, nothing happens. In the Rails code this would be a call on `nil`.
- Persistence.Store.Follow: it also requires both ends to be saved users. A relationship's own validation asks only for both ids.
- Updating a saved user: only `save` of a new user is modelled. Editing a stored user's fields is not.
- Persistence.Store.Destroy: its postcondition states the new tables. That the user is then left with no microposts, no followed users, no followers, and no former post findable by id is proved about those tables by `Timeline.NoPostsLeft`, `Timeline.DeletedPostsNotFound` and `Graph.WithoutUser`.
- Persistence.Store.Save: "no other user with this email in any case is valid" is stated as "the email is taken". `Persistence.EmailInIgnoresCase` extends it to every case variant.
