/** The three records of the social network — User, Micropost and
    Relationship — with the field validations each model runs before it is
    saved, and the builders that fill an owner in from the parent record. */
module Models {
  import opened Wrappers
  import opened Text

  type UserId = nat
  type PostId = nat

  const MaxNameLength: nat := 50
  const MinPasswordLength: nat := 6
  const MaxContentLength: nat := 140

  /** A user's attributes. `password` and `passwordConfirmation` are the
      virtual attributes the sign-up form fills in; `nil` is `None`. */
  datatype User = User(
    name: string,
    email: string,
    password: Option<string>,
    passwordConfirmation: Option<string>,
    admin: bool)

  /** A micropost. `id` is `None` until the post is saved; `createdAt` is a
      timestamp supplied by the caller (seconds, larger is newer). */
  datatype Micropost = Micropost(
    id: Option<PostId>,
    userId: Option<UserId>,
    content: string,
    createdAt: int)

  /** A follow edge from `followerId` to `followedId`. */
  datatype Relationship = Relationship(followerId: Option<UserId>, followedId: Option<UserId>)

  // ---------------------------------------------------------------------
  // Builders. None of them takes `admin`, a micropost's `user_id` or a
  // relationship's `follower_id` from its input: those come from the
  // parent record or default, as the mass-assignment rules demand.

  /** `User.new name:, email:, password:, password_confirmation:` */
  function NewUser(name: string, email: string, password: string, confirmation: string): User {
    User(name, email, Some(password), Some(confirmation), false)
  }

  /** `user.microposts.build content:` at time `now`. */
  function BuildMicropost(owner: UserId, content: string, now: int): Micropost {
    Micropost(None, Some(owner), content, now)
  }

  /** `follower.relationships.build followed_id:` */
  function BuildRelationship(follower: UserId, followed: UserId): Relationship {
    Relationship(Some(follower), Some(followed))
  }

  // ---------------------------------------------------------------------
  // Validations (presence means "not blank").

  predicate IsPresent(s: Option<string>) {
    s.Some? && !IsBlank(s.value)
  }

  predicate ValidName(name: string) {
    !IsBlank(name) && |name| <= MaxNameLength
  }

  /** Presence and format; uniqueness needs the saved users and is checked by the store. */
  predicate ValidEmail(email: string) {
    !IsBlank(email) && IsEmail(email)
  }

  /** Password present and long enough, confirmation present and equal to it. */
  predicate ValidPassword(u: User) {
    && IsPresent(u.password)
    && |u.password.value| >= MinPasswordLength
    && IsPresent(u.passwordConfirmation)
    && u.passwordConfirmation == u.password
  }

  /** Every validation of a user except email uniqueness. */
  predicate ValidUserFields(u: User) {
    ValidName(u.name) && ValidEmail(u.email) && ValidPassword(u)
  }

  predicate ValidMicropost(m: Micropost) {
    m.userId.Some? && !IsBlank(m.content) && |m.content| <= MaxContentLength
  }

  predicate ValidRelationship(r: Relationship) {
    r.followerId.Some? && r.followedId.Some?
  }

  /** `authenticate`: the user itself when the secret matches the stored
      credential, `false` (here `None`) otherwise. */
  function Authenticate(u: User, secret: string): (r: Option<User>)
    ensures r == Some(u) <==> u.password == Some(secret)
    ensures r != Some(u) ==> r == None
  {
    if u.password == Some(secret) then Some(u) else None
  }

  // ---------------------------------------------------------------------
  // The user examples.

  function ExampleUser(): User {
    NewUser("Example User", "user@example.com", "foobar", "foobar")
  }

  /** The example user is valid and is not an admin. */
  lemma ExampleUserIsValid()
    ensures ValidUserFields(ExampleUser()) && !ExampleUser().admin
  {
    var u := ExampleUser();
    assert ValidName(u.name) by { assert 'E' in "Example User"; }
    assert ValidPassword(u) by { assert 'f' in "foobar"; }
    AcceptsExampleAddress();
  }

  /** A blank name and a 51-character name are both rejected. */
  lemma NameExamples()
    ensures !ValidName(" ") && !ValidName("\U{3000}")
    ensures !ValidName(seq(51, _ => 'a'))
    ensures forall name :: |name| > MaxNameLength ==> !ValidName(name)
    ensures forall name :: IsBlank(name) ==> !ValidName(name)
  {
  }

  /** `s`, spelled out as three parts, passes presence and format. */
  lemma AcceptsAddress(local: string, domain: string, tld: string, s: string)
    requires IsLocalPart(local) && IsDomainName(domain) && IsTopLevel(tld)
    requires s == local + "@" + domain + "." + tld
    ensures ValidEmail(s)
  {
    EmailFromParts(local, domain, tld);
    assert local[0] in s;
  }

  /** An address whose host part, after the `@` at `at`, holds `bad` before its last dot. */
  lemma RejectsHostChar(s: string, at: int, dot: int, bad: char)
    requires 0 <= at < |s| && s[at] == '@' && '@' !in s[..at]
    requires 0 <= dot < |s| - at - 1 && s[at + 1..][dot] == '.' && '.' !in s[at + 1..][dot + 1..]
    requires !IsDomainChar(bad) && bad in s[at + 1..][..dot]
    ensures !IsEmail(s)
  {
    IndexOfUnique(s, '@', at);
    LastIndexOfUnique(s[at + 1..], '.', dot);
  }

  /** An address with no dot after its `@` at `at`. */
  lemma RejectsDotlessHost(s: string, at: int)
    requires 0 <= at < |s| && s[at] == '@' && '@' !in s[..at]
    requires '.' !in s[at + 1..]
    ensures !IsEmail(s)
  {
    IndexOfUnique(s, '@', at);
  }

  lemma RejectsCommaHost()
    ensures !IsEmail("user@foo,com")
  {
    var s := "user@foo,com";
    assert s[5..] == "foo,com" && s[..4] == "user";
    RejectsDotlessHost(s, 4);
  }

  lemma RejectsMissingAt()
    ensures !IsEmail("user_at_foo.org")
  {
    assert '@' !in "user_at_foo.org";
  }

  lemma RejectsEmptyTopLevel()
    ensures !IsEmail("example.user@foo.")
  {
    var s := "example.user@foo.";
    IndexOfUnique(s, '@', 12);
    assert s[13..] == "foo.";
    LastIndexOfUnique("foo.", '.', 3);
    assert "foo."[4..] == "";
  }

  lemma RejectsUnderscoreHost()
    ensures !IsEmail("foo@bar_baz.com")
  {
    var s := "foo@bar_baz.com";
    assert s[4..] == "bar_baz.com" && "bar_baz.com"[..7] == "bar_baz";
    RejectsHostChar(s, 3, 7, '_');
  }

  lemma RejectsPlusHost()
    ensures !IsEmail("foo@bar+baz.com")
  {
    var s := "foo@bar+baz.com";
    assert s[4..] == "bar+baz.com" && "bar+baz.com"[..7] == "bar+baz";
    RejectsHostChar(s, 3, 7, '+');
  }

  /** A blank email is rejected, and so is each malformed address of the user examples. */
  lemma InvalidEmailExamples()
    ensures !ValidEmail(" ")
    ensures !ValidEmail("user@foo,com")
    ensures !ValidEmail("user_at_foo.org")
    ensures !ValidEmail("example.user@foo.")
    ensures !ValidEmail("foo@bar_baz.com")
    ensures !ValidEmail("foo@bar+baz.com")
  {
    RejectsCommaHost();
    RejectsMissingAt();
    RejectsEmptyTopLevel();
    RejectsUnderscoreHost();
    RejectsPlusHost();
  }

  /** Each well-formed address of the user examples is accepted. */
  lemma ValidEmailExamples()
    ensures ValidEmail("user@foo.COM")
    ensures ValidEmail("A_US-ER@f.b.org")
    ensures ValidEmail("frst.lst@foo.jp")
    ensures ValidEmail("a+b@baz.cn")
  {
    AcceptsUserFooCom();
    AcceptsUnderscoreDash();
    AcceptsDottedLocal();
    AcceptsPlusLocal();
  }

  lemma AcceptsUserFooCom() ensures ValidEmail("user@foo.COM") {
    AcceptsAddress("user", "foo", "COM", "user@foo.COM");
  }

  lemma AcceptsUnderscoreDash() ensures ValidEmail("A_US-ER@f.b.org") {
    AcceptsAddress("A_US-ER", "f.b", "org", "A_US-ER@f.b.org");
  }

  lemma AcceptsDottedLocal() ensures ValidEmail("frst.lst@foo.jp") {
    AcceptsAddress("frst.lst", "foo", "jp", "frst.lst@foo.jp");
  }

  lemma AcceptsPlusLocal() ensures ValidEmail("a+b@baz.cn") {
    AcceptsAddress("a+b", "baz", "cn", "a+b@baz.cn");
  }

  lemma AcceptsExampleAddress() ensures ValidEmail("user@example.com") {
    AcceptsAddress("user", "example", "com", "user@example.com");
  }

  /** Presence and format of an email do not depend on its letter case. */
  lemma ValidEmailIgnoresCase(e: string, f: string)
    requires Downcase(e) == Downcase(f)
    ensures ValidEmail(e) <==> ValidEmail(f)
  {
    DowncaseEmail(e);
    DowncaseEmail(f);
    DowncasePreservesBlank(e);
    DowncasePreservesBlank(f);
  }

  /** A valid user stays valid with its email up-cased. */
  lemma UpcasedUserValid(u: User)
    requires ValidUserFields(u)
    ensures ValidUserFields(u.(email := Upcase(u.email)))
    ensures Downcase(Upcase(u.email)) == Downcase(u.email)
  {
    DowncaseUpcase(u.email);
    ValidEmailIgnoresCase(u.email, Upcase(u.email));
  }

  /** A blank password, a mismatched or missing confirmation, and a password
      shorter than six characters each make a user invalid. */
  lemma PasswordRules(u: User)
    ensures u.password.None? || IsBlank(u.password.value) ==> !ValidUserFields(u)
    ensures u.passwordConfirmation != u.password ==> !ValidUserFields(u)
    ensures u.passwordConfirmation.None? ==> !ValidUserFields(u)
    ensures u.password.Some? && |u.password.value| < MinPasswordLength ==> !ValidUserFields(u)
  {
  }

  /** The user examples' password cases, applied to the example user. */
  lemma PasswordExamples()
    ensures !ValidUserFields(ExampleUser().(password := Some(" "), passwordConfirmation := Some(" ")))
    ensures !ValidUserFields(ExampleUser().(passwordConfirmation := Some("mismatch")))
    ensures !ValidUserFields(ExampleUser().(passwordConfirmation := None))
    ensures !ValidUserFields(ExampleUser().(password := Some("aaaaa"), passwordConfirmation := Some("aaaaa")))
  {
    assert "mismatch" != "foobar" by { assert "mismatch"[0] != "foobar"[0]; }
  }

  /** The credential check returns the user for its own password and nothing for another. */
  lemma AuthenticateExamples()
    ensures Authenticate(ExampleUser(), "foobar") == Some(ExampleUser())
    ensures Authenticate(ExampleUser(), "invalid") == None
  {
    assert "invalid" != "foobar" by { assert "invalid"[0] != "foobar"[0]; }
  }

  // ---------------------------------------------------------------------
  // The micropost examples.

  /** A micropost built from a user with "Lorem ipsum" is valid and belongs to that user. */
  lemma BuiltMicropostIsValid(owner: UserId, now: int)
    ensures ValidMicropost(BuildMicropost(owner, "Lorem ipsum", now))
    ensures BuildMicropost(owner, "Lorem ipsum", now).userId == Some(owner)
  {
    assert 'L' in "Lorem ipsum";
  }

  /** No owner, blank content, or content longer than 140 characters each make a micropost invalid. */
  lemma MicropostRules(m: Micropost)
    ensures m.userId.None? ==> !ValidMicropost(m)
    ensures m.content == "" ==> !ValidMicropost(m)
    ensures |m.content| > MaxContentLength ==> !ValidMicropost(m)
  {
  }

  /** 141 repeated letters are one too many; 140 are accepted. */
  lemma ContentLengthBoundary(owner: UserId, now: int)
    ensures !ValidMicropost(BuildMicropost(owner, seq(141, _ => 'a'), now))
    ensures ValidMicropost(BuildMicropost(owner, seq(140, _ => 'a'), now))
  {
    var s := seq(140, _ => 'a');
    assert s[0] in s;
  }

  // ---------------------------------------------------------------------
  // The relationship examples.

  /** A relationship built from a follower is valid and records both endpoints. */
  lemma BuiltRelationshipIsValid(follower: UserId, followed: UserId)
    ensures ValidRelationship(BuildRelationship(follower, followed))
    ensures BuildRelationship(follower, followed).followerId == Some(follower)
    ensures BuildRelationship(follower, followed).followedId == Some(followed)
  {
  }

  /** A relationship missing either endpoint is invalid. */
  lemma RelationshipRules(r: Relationship)
    ensures r.followerId.None? ==> !ValidRelationship(r)
    ensures r.followedId.None? ==> !ValidRelationship(r)
  {
  }
}
