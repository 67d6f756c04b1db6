/**
 * The request handlers that change or read the tables. Each handler takes
 * the signed-in user's id (or whether someone is signed in) and the
 * submitted form, or `None` when the request is a plain GET or the form was
 * not submitted. What the handlers render or flash is not modelled; their
 * outcome says which branch was taken.
 */
module Routes {
  import opened Sql
  import opened Models
  import opened Forms

  // ---------------------------------------------------------------------
  // Table updates made by the handlers

  /** The `user` table after `register` adds a user with primary key `id`. */
  function AddUser(users: seq<User>, id: UserId, f: RegistrationInput): (r: seq<User>)
    ensures |r| == |users| + 1 && r[..|users|] == users
    ensures r[|users|].id == id && r[|users|].username == f.username && r[|users|].email == f.email
    ensures CheckPasswordHash(r[|users|].passwordHash, f.password) && r[|users|].aboutMe == ""
  {
    users + [User(id, f.username, f.email, GeneratePasswordHash(f.password), "")]
  }

  /**
   * The `user` table after `edit_profile` assigns username and about_me of
   * user `me`: every other row and every other column stay as they were.
   */
  function EditedProfile(users: seq<User>, me: UserId, f: ProfileInput): (r: seq<User>)
    ensures |r| == |users|
    ensures forall k :: 0 <= k < |users| ==> r[k].(username := users[k].username, aboutMe := users[k].aboutMe) == users[k]
    ensures forall k :: 0 <= k < |users| && users[k].id == me ==> r[k].username == f.username && r[k].aboutMe == f.aboutMe
    ensures forall k :: 0 <= k < |users| && users[k].id != me ==> r[k] == users[k]
  {
    seq(|users|, i requires 0 <= i < |users| =>
      if users[i].id == me then users[i].(username := f.username, aboutMe := f.aboutMe) else users[i])
  }

  /**
   * The `user` table after `set_password` on user `id`: that user's hash
   * now checks the new password, and nothing else changes.
   */
  function PasswordSet(users: seq<User>, id: UserId, password: string): (r: seq<User>)
    ensures |r| == |users|
    ensures forall k :: 0 <= k < |users| ==> r[k].(passwordHash := users[k].passwordHash) == users[k]
    ensures forall k :: 0 <= k < |users| && users[k].id == id ==> CheckPasswordHash(r[k].passwordHash, password)
    ensures forall k :: 0 <= k < |users| && users[k].id != id ==> r[k] == users[k]
  {
    seq(|users|, i requires 0 <= i < |users| =>
      if users[i].id == id then users[i].(passwordHash := GeneratePasswordHash(password)) else users[i])
  }

  /** Two users with the same username are the same row. */
  lemma SameUsernameSameUser(users: seq<User>, u: User, v: User)
    requires UniqueUsernames(users)
    requires u in users && v in users && u.username == v.username
    ensures u == v
  {
    var i :| 0 <= i < |users| && users[i] == u;
    var j :| 0 <= j < |users| && users[j] == v;
  }

  /** A valid registration keeps usernames and emails unique. */
  lemma RegistrationKeepsUnique(users: seq<User>, id: UserId, f: RegistrationInput)
    requires UniqueUsernames(users) && UniqueEmails(users)
    requires RegistrationValid(users, f)
    ensures UniqueUsernames(AddUser(users, id, f)) && UniqueEmails(AddUser(users, id, f))
  {
    var r := AddUser(users, id, f);
    forall i, j | 0 <= i < j < |r|
      ensures r[i].username != r[j].username && r[i].email != r[j].email
    {
      if j == |users| {
        assert r[i] == users[i] && users[i] in users;
      }
    }
  }

  /** A user stored under the next key gets a key no other user has. */
  lemma AddUserKeepsKeys(users: seq<User>, id: UserId, f: RegistrationInput)
    requires UniqueIds(users) && IdsBelow(users, id) && id > 0
    ensures forall u :: u in users ==> u.id != id
    ensures UniqueIds(AddUser(users, id, f)) && IdsBelow(AddUser(users, id, f), id + 1)
  {
    var r := AddUser(users, id, f);
    forall i, j | 0 <= i < j < |r| ensures r[i].id != r[j].id {
      if j == |users| {
        assert r[i] == users[i];
      }
    }
  }

  /** A valid profile edit keeps usernames unique. */
  lemma EditKeepsUnique(users: seq<User>, me: UserId, f: ProfileInput)
    requires UniqueIds(users) && UniqueUsernames(users) && HasUser(users, me)
    requires EditProfileValid(users, users[UserIndex(users, me)].username, f)
    ensures UniqueIds(EditedProfile(users, me, f))
    ensures UniqueEmails(users) ==> UniqueEmails(EditedProfile(users, me, f))
    ensures UniqueUsernames(EditedProfile(users, me, f))
  {
    var r := EditedProfile(users, me, f);
    var m := UserIndex(users, me);
    forall i, j | 0 <= i < j < |r|
      ensures r[i].username != r[j].username
    {
      if users[i].id == me {
        UserIndexUnique(users, me, i);
        if f.username != users[m].username {
          assert users[j] in users;
        }
      } else if users[j].id == me {
        UserIndexUnique(users, me, j);
        if f.username != users[m].username {
          assert users[i] in users;
        }
      }
    }
  }

  // ---------------------------------------------------------------------
  // login

  /** Where `login` sends the user: the index page, or the `next` argument. */
  datatype Target = IndexPage | NextUrl(url: string)

  datatype LoginOutcome =
    | LoginRedirectIndex
    | LoginFormShown
    | LoginFailed
    | LoggedIn(user: UserId, remember: bool, target: Target)

  /**
   * `login`: the user with the submitted username, if the password matches
   * its hash. An unknown username and a wrong password both give `None`.
   */
  function Authenticate(users: seq<User>, username: string, password: string): (r: Option<User>)
    requires UniqueUsernames(users)
    ensures r.Some? ==> r.value in users && r.value.username == username
                        && CheckPasswordHash(r.value.passwordHash, password)
    ensures r.None? <==> forall u :: u in users ==>
                           !(u.username == username && CheckPasswordHash(u.passwordHash, password))
  {
    match FindByUsername(users, username)
    case None => None
    case Some(u) =>
      assert forall v :: v in users && v.username == username ==> v == u by {
        forall v | v in users && v.username == username ensures v == u {
          SameUsernameSameUser(users, u, v);
        }
      }
      if CheckPasswordHash(u.passwordHash, password) then Some(u) else None
  }

  /** `login`: the branch taken for a request, and the user it signs in. */
  function Login(users: seq<User>, authenticated: bool, submission: Option<LoginInput>, next: string): (r: LoginOutcome)
    requires UniqueUsernames(users)
    ensures r == LoginRedirectIndex <==> authenticated
    ensures r == LoginFormShown <==> !authenticated && (submission.None? || !LoginValid(submission.value))
    ensures r == LoginFailed <==>
      && !authenticated && submission.Some? && LoginValid(submission.value)
      && forall u :: u in users ==>
           !(u.username == submission.value.username && CheckPasswordHash(u.passwordHash, submission.value.password))
    ensures r.LoggedIn? ==>
      && submission.Some? && LoginValid(submission.value)
      && (exists u :: u in users && u.id == r.user && u.username == submission.value.username
                      && CheckPasswordHash(u.passwordHash, submission.value.password))
      && r.remember == submission.value.rememberMe
      && r.target == AfterLogin(next)
  {
    if authenticated then LoginRedirectIndex
    else if submission.None? || !LoginValid(submission.value) then LoginFormShown
    else
      match Authenticate(users, submission.value.username, submission.value.password)
      case None => LoginFailed
      case Some(u) => LoggedIn(u.id, submission.value.rememberMe, AfterLogin(next))
  }

  /** An unknown username and a wrong password get the same answer. */
  lemma LoginFailureHidesCause(users: seq<User>, unknown: LoginInput, wrong: LoginInput, next: string)
    requires UniqueUsernames(users)
    requires LoginValid(unknown) && LoginValid(wrong)
    requires forall u :: u in users ==> u.username != unknown.username
    requires exists u :: u in users && u.username == wrong.username && !CheckPasswordHash(u.passwordHash, wrong.password)
    ensures Login(users, false, Some(unknown), next) == LoginFailed
    ensures Login(users, false, Some(wrong), next) == LoginFailed
  {
    var w :| w in users && w.username == wrong.username && !CheckPasswordHash(w.passwordHash, wrong.password);
    forall u | u in users && u.username == wrong.username
      ensures !CheckPasswordHash(u.passwordHash, wrong.password)
    {
      SameUsernameSameUser(users, u, w);
    }
  }

  /** A registered user can sign in with the username and password just registered. */
  lemma RegisterThenLogin(users: seq<User>, id: UserId, f: RegistrationInput, remember: bool, next: string)
    requires UniqueUsernames(users) && UniqueEmails(users)
    requires RegistrationValid(users, f)
    ensures UniqueUsernames(AddUser(users, id, f))
    ensures Login(AddUser(users, id, f), false, Some(LoginInput(f.username, f.password, remember)), next)
            == LoggedIn(id, remember, AfterLogin(next))
  {
    RegistrationKeepsUnique(users, id, f);
    var r := AddUser(users, id, f);
    assert r[|users|] in r;
    var a := Authenticate(r, f.username, f.password);
    assert a.Some?;
    SameUsernameSameUser(r, a.value, r[|users|]);
  }

  /**
   * After a password reset, the user signs in with the new password; an
   * old password that differs from it is refused.
   */
  lemma ResetThenLogin(users: seq<User>, id: UserId, password: string, other: string, remember: bool, next: string)
    requires UniqueUsernames(users) && HasUser(users, id)
    requires DataRequired(users[UserIndex(users, id)].username) && DataRequired(password)
    requires DataRequired(other) && other != password
    ensures UniqueUsernames(PasswordSet(users, id, password))
    ensures Login(PasswordSet(users, id, password), false,
                  Some(LoginInput(users[UserIndex(users, id)].username, password, remember)), next)
            == LoggedIn(id, remember, AfterLogin(next))
    ensures Login(PasswordSet(users, id, password), false,
                  Some(LoginInput(users[UserIndex(users, id)].username, other, remember)), next)
            == LoginFailed
  {
    var r := PasswordSet(users, id, password);
    var k := UserIndex(users, id);
    assert forall i :: 0 <= i < |r| ==> r[i].username == users[i].username;
    assert r[k] in r;
    var a := Authenticate(r, users[k].username, password);
    assert a.Some?;
    SameUsernameSameUser(r, a.value, r[k]);
    forall u | u in r && u.username == users[k].username
      ensures !CheckPasswordHash(u.passwordHash, other)
    {
      SameUsernameSameUser(r, u, r[k]);
    }
  }

  /** After a profile edit, the user signs in under the new username with the same password. */
  lemma EditThenLogin(users: seq<User>, me: UserId, f: ProfileInput, password: string, remember: bool, next: string)
    requires UniqueIds(users) && UniqueUsernames(users) && HasUser(users, me)
    requires EditProfileValid(users, users[UserIndex(users, me)].username, f)
    requires CheckPasswordHash(users[UserIndex(users, me)].passwordHash, password) && DataRequired(password)
    ensures UniqueUsernames(EditedProfile(users, me, f))
    ensures Login(EditedProfile(users, me, f), false, Some(LoginInput(f.username, password, remember)), next)
            == LoggedIn(me, remember, AfterLogin(next))
  {
    EditKeepsUnique(users, me, f);
    var r := EditedProfile(users, me, f);
    var k := UserIndex(users, me);
    assert r[k] in r;
    var a := Authenticate(r, f.username, password);
    assert a.Some?;
    SameUsernameSameUser(r, a.value, r[k]);
  }

  // ---------------------------------------------------------------------
  // The `next` argument of login

  /** Python's `s.find(c, start)`: the first index from `start` holding `c`, or -1. */
  function Find(s: string, c: char, start: nat): (i: int)
    ensures i == -1 || (start <= i < |s| && s[i] == c)
    ensures forall k :: start <= k < |s| && (i == -1 || k < i) ==> s[k] != c
    decreases |s| - start
  {
    if start >= |s| then -1
    else if s[start] == c then start
    else Find(s, c, start + 1)
  }

  /** A character of werkzeug's scheme pattern `[a-zA-Z0-9+-.]` (`+-.` is the range '+'..'.'). */
  predicate SchemeChar(c: char) {
    'a' <= c <= 'z' || 'A' <= c <= 'Z' || '0' <= c <= '9' || '+' <= c <= '.'
  }

  predicate IsDigit(c: char) {
    '0' <= c <= '9'
  }

  /** A `:` at `i` with only scheme characters before it: the `scheme:` werkzeug splits off. */
  ghost predicate SchemeColon(url: string, i: int) {
    0 < i < |url| && url[i] == ':' && forall k :: 0 <= k < i ==> SchemeChar(url[k])
  }

  /** A non-empty run of digits: what werkzeug takes for a port rather than the rest of a URL. */
  predicate PortOnly(rest: string) {
    rest != "" && forall k :: 0 <= k < |rest| ==> IsDigit(rest[k])
  }

  /** A URL has at most one scheme colon, and `Find` locates it. */
  lemma FindSchemeColon(url: string, i: int)
    requires SchemeColon(url, i)
    ensures Find(url, ':', 0) == i
  {
  }

  /**
   * werkzeug's `url_parse`, first step: drop a leading `scheme:` unless what
   * follows the colon is a non-empty run of digits (a port).
   */
  function AfterScheme(url: string): (u: string)
    ensures |u| <= |url| && u == url[|url| - |u|..]
    ensures forall i :: SchemeColon(url, i) ==> u == if PortOnly(url[i + 1..]) then url else url[i + 1..]
    ensures (forall i :: !SchemeColon(url, i)) ==> u == url
  {
    var i := Find(url, ':', 0);
    assert forall j :: SchemeColon(url, j) ==> j == i by {
      forall j | SchemeColon(url, j) ensures j == i {
        FindSchemeColon(url, j);
      }
    }
    if i > 0 && forall k :: 0 <= k < i ==> SchemeChar(url[k]) then
      assert SchemeColon(url, i);
      var rest := url[i + 1..];
      if PortOnly(rest) then url else rest
    else url
  }

  /** `min(delim, found)` when `found` is an index, else `delim`. */
  function Nearer(delim: nat, found: int): (r: nat)
    ensures r <= delim && (0 <= found ==> r <= found)
    ensures r == delim || r == found
  {
    if 0 <= found < delim then found else delim
  }

  /** A character that ends the network location. */
  predicate EndsNetloc(c: char) {
    c == '/' || c == '?' || c == '#'
  }

  /**
   * werkzeug's `url_parse(url).netloc`: when what follows the scheme starts
   * with `//`, the longest run after it free of `/`, `?` and `#`; otherwise
   * nothing.
   */
  function Netloc(url: string): (n: string)
    ensures var u := AfterScheme(url);
      if |u| >= 2 && u[0] == '/' && u[1] == '/' then
        && 2 + |n| <= |u| && u[2..2 + |n|] == n
        && (forall k :: 0 <= k < |n| ==> !EndsNetloc(n[k]))
        && (2 + |n| == |u| || EndsNetloc(u[2 + |n|]))
      else n == ""
  {
    var u := AfterScheme(url);
    if |u| >= 2 && u[0] == '/' && u[1] == '/' then
      var delim := Nearer(Nearer(Nearer(|u|, Find(u, '/', 2)), Find(u, '?', 2)), Find(u, '#', 2));
      NearestDelimiter(u, delim);
      u[2..delim]
    else ""
  }

  /** The position `Netloc` cuts at is the first `/`, `?` or `#` from index 2, or the end. */
  lemma NearestDelimiter(u: string, delim: nat)
    requires |u| >= 2
    requires delim == Nearer(Nearer(Nearer(|u|, Find(u, '/', 2)), Find(u, '?', 2)), Find(u, '#', 2))
    ensures 2 <= delim <= |u|
    ensures forall k :: 2 <= k < delim ==> !EndsNetloc(u[k])
    ensures delim == |u| || EndsNetloc(u[delim])
  {
    var slash, question, hash := Find(u, '/', 2), Find(u, '?', 2), Find(u, '#', 2);
    var d1 := Nearer(|u|, slash);
    var d2 := Nearer(d1, question);
    assert delim == Nearer(d2, hash);
    forall k | 2 <= k < delim ensures !EndsNetloc(u[k]) {
      assert u[k] != '/' && u[k] != '?' && u[k] != '#';
    }
  }

  /** After the scheme, `//` and a character that starts a host: a network location follows. */
  predicate OpensAuthority(u: string) {
    |u| >= 3 && u[0] == '/' && u[1] == '/' && !EndsNetloc(u[2])
  }

  /** The network location is non-empty exactly when the URL opens an authority after its scheme. */
  lemma NetlocNonEmpty(url: string)
    ensures Netloc(url) != "" <==> OpensAuthority(AfterScheme(url))
  {
    var n, u := Netloc(url), AfterScheme(url);
    if n != "" {
      assert n[0] == u[2];
    }
  }

  /**
   * `login`'s redirect rule: `next` is followed exactly when it is present
   * and, after an optional scheme, does not open with `//` and a host.
   */
  function AfterLogin(next: string): (t: Target)
    ensures t == NextUrl(next) || t == IndexPage
    ensures t == NextUrl(next) <==> next != "" && !OpensAuthority(AfterScheme(next))
  {
    NetlocNonEmpty(next);
    if next == "" || Netloc(next) != "" then IndexPage else NextUrl(next)
  }

  /** A `next` starting with a single `/` is followed. */
  lemma LocalPathFollowed(path: string)
    requires |path| >= 1 && path[0] == '/'
    requires |path| == 1 || path[1] != '/'
    ensures AfterLogin(path) == NextUrl(path)
  {
    assert !SchemeChar(path[0]);
    assert AfterScheme(path) == path;
  }

  /** A protocol-relative URL (`//host...`) is not followed. */
  lemma ProtocolRelativeRefused(url: string)
    requires |url| >= 3 && url[0] == '/' && url[1] == '/'
    requires url[2] != '/' && url[2] != '?' && url[2] != '#'
    ensures AfterLogin(url) == IndexPage
  {
    assert !SchemeChar(url[0]);
    assert AfterScheme(url) == url;
  }

  /** An absolute URL (`scheme://host...`) is not followed. */
  lemma AbsoluteUrlRefused(scheme: string, rest: string)
    requires scheme != [] && forall k :: 0 <= k < |scheme| ==> SchemeChar(scheme[k])
    requires rest != [] && rest[0] != '/' && rest[0] != '?' && rest[0] != '#'
    ensures AfterLogin(scheme + "://" + rest) == IndexPage
  {
    var url := scheme + "://" + rest;
    var after := url[|scheme| + 1..];
    assert SchemeColon(url, |scheme|) by {
      forall k | 0 <= k < |scheme| ensures SchemeChar(url[k]) {
        assert url[k] == scheme[k];
      }
    }
    assert after == "//" + rest;
    assert !PortOnly(after) by {
      assert !IsDigit(after[0]);
    }
    assert AfterScheme(url) == after;
    assert OpensAuthority(after);
  }

  // ---------------------------------------------------------------------
  // follow / unfollow

  datatype GraphOutcome = UserNotFound | SelfFollowRefused | GraphUpdated(target: UserId)

  /** The current user's own row. */
  function CurrentUser(users: seq<User>, me: UserId): User
    requires HasUser(users, me)
  {
    users[UserIndex(users, me)]
  }

  /**
   * `follow/<username>`: refuses an unknown username and the user's own
   * name; otherwise `current_user.follow(user)`.
   */
  method FollowRoute(db: Database, me: UserId, username: string) returns (outcome: GraphOutcome)
    requires db.Valid() && HasUser(db.users, me)
    modifies db`followers
    ensures db.Valid()
    ensures outcome == UserNotFound <==> forall u :: u in db.users ==> u.username != username
    ensures outcome == SelfFollowRefused <==> username == CurrentUser(db.users, me).username
    ensures !outcome.GraphUpdated? ==> db.followers == old(db.followers)
    ensures outcome.GraphUpdated? ==>
      && (exists u :: u in db.users && u.id == outcome.target && u.username == username)
      && outcome.target != me
      && db.followers == Followed(old(db.followers), me, outcome.target)
      && IsFollowing(db.followers, me, outcome.target)
    ensures NoSelfEdges(old(db.followers)) ==> NoSelfEdges(db.followers)
  {
    var user := FindByUsername(db.users, username);
    ghost var current := CurrentUser(db.users, me);
    assert current in db.users;
    if user.None? {
      return UserNotFound;
    }
    if user.value.id == me {
      SameUsernameSameUser(db.users, user.value, current) by {
        UserIndexUnique(db.users, me, UserIndex(db.users, me));
        var i :| 0 <= i < |db.users| && db.users[i] == user.value;
        UserIndexUnique(db.users, me, i);
      }
      return SelfFollowRefused;
    }
    if username == current.username {
      SameUsernameSameUser(db.users, user.value, current);
    }
    db.Follow(me, user.value.id);
    outcome := GraphUpdated(user.value.id);
  }

  /**
   * `unfollow/<username>`: refuses an unknown username and the user's own
   * name; otherwise `current_user.unfollow(user)`.
   */
  method UnfollowRoute(db: Database, me: UserId, username: string) returns (outcome: GraphOutcome)
    requires db.Valid() && HasUser(db.users, me)
    modifies db`followers
    ensures db.Valid()
    ensures outcome == UserNotFound <==> forall u :: u in db.users ==> u.username != username
    ensures outcome == SelfFollowRefused <==> username == CurrentUser(db.users, me).username
    ensures !outcome.GraphUpdated? ==> db.followers == old(db.followers)
    ensures outcome.GraphUpdated? ==>
      && (exists u :: u in db.users && u.id == outcome.target && u.username == username)
      && outcome.target != me
      && db.followers == Unfollowed(old(db.followers), me, outcome.target)
      && !IsFollowing(db.followers, me, outcome.target)
    ensures NoSelfEdges(old(db.followers)) ==> NoSelfEdges(db.followers)
  {
    var user := FindByUsername(db.users, username);
    ghost var current := CurrentUser(db.users, me);
    assert current in db.users;
    if user.None? {
      return UserNotFound;
    }
    if user.value.id == me {
      SameUsernameSameUser(db.users, user.value, current) by {
        var i :| 0 <= i < |db.users| && db.users[i] == user.value;
        UserIndexUnique(db.users, me, i);
      }
      return SelfFollowRefused;
    }
    if username == current.username {
      SameUsernameSameUser(db.users, user.value, current);
    }
    db.Unfollow(me, user.value.id);
    outcome := GraphUpdated(user.value.id);
  }

  // ---------------------------------------------------------------------
  // index

  datatype IndexOutcome = Posted(post: Post) | Feed(posts: seq<Post>)

  /**
   * `index`: a valid post is stored with the current user as author and the
   * current time; otherwise the page lists `followed_posts`.
   */
  method Index(db: Database, me: UserId, submission: Option<string>, now: int) returns (outcome: IndexOutcome)
    requires db.Valid() && HasUser(db.users, me)
    modifies db`posts, db`nextPostId
    ensures db.Valid()
    ensures outcome.Posted? <==> submission.Some? && PostValid(submission.value)
    ensures outcome.Posted? ==>
      && outcome.post == Post(old(db.nextPostId), submission.value, now, me)
      && db.posts == old(db.posts) + [outcome.post]
      && db.nextPostId == old(db.nextPostId) + 1
      && outcome.post in FollowedPosts(db.followers, db.posts, me)
    ensures outcome.Feed? ==>
      && db.posts == old(db.posts) && db.nextPostId == old(db.nextPostId)
      && outcome.posts == FollowedPosts(db.followers, db.posts, me)
  {
    if submission.Some? && PostValid(submission.value) {
      ghost var before := db.posts;
      var post := db.AddPost(submission.value, now, me);
      NewPostInFeeds(db.followers, before, post, me);
      outcome := Posted(post);
    } else {
      outcome := Feed(FollowedPosts(db.followers, db.posts, me));
    }
  }

  // ---------------------------------------------------------------------
  // register

  datatype RegisterOutcome = RegisterRedirectIndex | RegisterFormShown | Registered(user: UserId)

  /** `register`: a valid form adds a user with a fresh key and the hashed password. */
  method Register(db: Database, authenticated: bool, submission: Option<RegistrationInput>) returns (outcome: RegisterOutcome)
    requires db.Valid()
    modifies db`users, db`nextUserId
    ensures db.Valid()
    ensures outcome == RegisterRedirectIndex <==> authenticated
    ensures outcome == RegisterFormShown <==>
      !authenticated && (submission.None? || !RegistrationValid(old(db.users), submission.value))
    ensures outcome.Registered? <==> !authenticated && submission.Some? && RegistrationValid(old(db.users), submission.value)
    ensures outcome.Registered? ==>
      && outcome.user == old(db.nextUserId)
      && db.nextUserId == old(db.nextUserId) + 1
      && (forall u :: u in old(db.users) ==> u.id != outcome.user)
      && db.users == AddUser(old(db.users), outcome.user, submission.value)
    ensures !outcome.Registered? ==> db.users == old(db.users) && db.nextUserId == old(db.nextUserId)
  {
    if authenticated {
      return RegisterRedirectIndex;
    }
    if submission.None? || !RegistrationValid(db.users, submission.value) {
      return RegisterFormShown;
    }
    var id := db.nextUserId;
    RegistrationKeepsUnique(db.users, id, submission.value);
    AddUserKeepsKeys(db.users, id, submission.value);
    db.users := AddUser(db.users, id, submission.value);
    db.nextUserId := db.nextUserId + 1;
    outcome := Registered(id);
  }

  // ---------------------------------------------------------------------
  // edit_profile

  datatype ProfileOutcome = ProfileSaved | ProfilePrefilled(username: string, aboutMe: string) | ProfileRefused

  /**
   * `edit_profile`: a valid form assigns the current user's username and
   * about_me; a GET fills the form with their present values.
   */
  method EditProfile(db: Database, me: UserId, submission: Option<ProfileInput>) returns (outcome: ProfileOutcome)
    requires db.Valid() && HasUser(db.users, me)
    modifies db`users
    ensures db.Valid()
    ensures outcome == ProfileSaved <==>
      submission.Some? && EditProfileValid(old(db.users), CurrentUser(old(db.users), me).username, submission.value)
    ensures outcome == ProfileSaved ==> db.users == EditedProfile(old(db.users), me, submission.value)
    ensures outcome != ProfileSaved ==> db.users == old(db.users)
    ensures outcome.ProfilePrefilled? <==> submission.None?
    ensures submission.None? ==>
      outcome == ProfilePrefilled(CurrentUser(db.users, me).username, CurrentUser(db.users, me).aboutMe)
    ensures outcome == ProfileRefused <==>
      submission.Some? && !EditProfileValid(old(db.users), CurrentUser(old(db.users), me).username, submission.value)
  {
    var i := UserIndex(db.users, me);
    var current := db.users[i];
    if submission.Some? && EditProfileValid(db.users, current.username, submission.value) {
      var f := submission.value;
      var updated := db.users[i := current.(username := f.username, aboutMe := f.aboutMe)];
      assert updated == EditedProfile(db.users, me, f) by {
        forall k | 0 <= k < |updated| ensures updated[k] == EditedProfile(db.users, me, f)[k] {
          if db.users[k].id == me {
            UserIndexUnique(db.users, me, k);
          }
        }
      }
      EditKeepsUnique(db.users, me, f);
      db.users := updated;
      outcome := ProfileSaved;
    } else if submission.None? {
      outcome := ProfilePrefilled(current.username, current.aboutMe);
    } else {
      outcome := ProfileRefused;
    }
  }

  // ---------------------------------------------------------------------
  // reset_password

  datatype ResetOutcome = ResetRedirectIndex | InvalidToken | ResetFormShown | PasswordReset(user: UserId)

  /**
   * `reset_password/<token>`: `tokenSubject` is the user id the token
   * decodes to, or `None` when decoding fails for any reason (bad signature,
   * expiry, malformed token). A subject with no user is treated alike.
   */
  method ResetPassword(db: Database, authenticated: bool, tokenSubject: Option<UserId>, submission: Option<ResetInput>)
    returns (outcome: ResetOutcome)
    requires db.Valid()
    modifies db`users
    ensures db.Valid()
    ensures outcome == ResetRedirectIndex <==> authenticated
    ensures outcome == ResetFormShown <==>
      && !authenticated && tokenSubject.Some? && HasUser(old(db.users), tokenSubject.value)
      && (submission.None? || !ResetValid(submission.value))
    ensures outcome == InvalidToken <==>
      !authenticated && (tokenSubject.None? || forall u :: u in old(db.users) ==> u.id != tokenSubject.value)
    ensures outcome.PasswordReset? <==>
      && !authenticated && tokenSubject.Some? && HasUser(old(db.users), tokenSubject.value)
      && submission.Some? && ResetValid(submission.value)
    ensures outcome.PasswordReset? ==>
      outcome.user == tokenSubject.value && db.users == PasswordSet(old(db.users), outcome.user, submission.value.password)
    ensures !outcome.PasswordReset? ==> db.users == old(db.users)
  {
    if authenticated {
      return ResetRedirectIndex;
    }
    var user := if tokenSubject.None? then None else FindById(db.users, tokenSubject.value);
    if user.None? {
      return InvalidToken;
    }
    var id := user.value.id;
    assert HasUser(db.users, id) by {
      var i :| 0 <= i < |db.users| && db.users[i] == user.value;
    }
    if submission.None? || !ResetValid(submission.value) {
      return ResetFormShown;
    }
    var updated := PasswordSet(db.users, id, submission.value.password);
    assert forall k :: 0 <= k < |updated| ==>
      updated[k].id == db.users[k].id && updated[k].username == db.users[k].username
      && updated[k].email == db.users[k].email;
    db.users := updated;
    outcome := PasswordReset(id);
  }
}
