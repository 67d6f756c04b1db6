# Lê sơ tản văn — a verified model of the blog core

This project models the core of a small Flask blog: its user table, the
follow graph between users, the posts, and the feed each user sees. It also
models the form validators that guard every state change, and the route
handlers that put the two together.

- **Sql** (`sql.dfy`) holds the relational operations the queries use:
  - `.filter`, `.first()`, `UNION` and `ORDER BY … DESC`.
  - Each is a function on row lists, with its SQL meaning as its contract.
  - `UNION` drops duplicate rows. `ORDER BY` returns a permutation sorted by its key.
- **Models** (`models.dfy`) holds the tables and the follow graph.
  - The `user`, `post`, `new_post` and `followers` tables are datatypes.
  - `User.follow`, `unfollow` and `is_following` are modelled on the `followers` edge list.
  - `followed_posts` is the union of the joined and own posts, newest first.
  - `followed_thrown_away_posts` is also modelled.
  - `class Database` owns the tables and the id counters. Its `Valid()` invariant holds:
    - unique ids, usernames and e-mail addresses, which the schema's keys and unique indexes guarantee;
    - ids below the autoincrement counters;
    - no duplicate follow rows. The schema allows them; the invariant holds because `follow` adds a row only when none exists.
- **Forms** (`forms.dfy`) holds the validators of the forms.
  - These are wtforms' `DataRequired`, `Length` and `EqualTo`, with Python's whitespace set.
  - They include the forms' own username and e-mail uniqueness checks.
- **Routes** (`routes.dfy`) holds the route handlers that change or read the model:
  - `index`, `login` (including its `next` redirect rule), `register` and `edit_profile`;
  - `follow`, `unfollow` and `reset_password`.
  - Each is a function or a method that returns which branch the handler took.
  - Each states what the database holds afterwards.

Notes on the code:
- A post is accepted only when it is not blank *and* has 1–140 characters (`DataRequired` and `Length`).
- A token whose subject names no user is treated like a token that does not decode.
- `followed_thrown_away_posts` appears twice with the same body (`User` and `Editor`) and is modelled once.

Some inputs are outside the model and become parameters:
- Time: `now`, a timestamp that is an integer.
- The identity of the logged-in user: `me`, or `authenticated`.
- The decoded reset-token subject: `tokenSubject`.
- The `next` query argument. An absent argument is the empty string.

## Model

| member | source | states |
|---|---|---|
| Sql.Where | app/models.py:83 | `filter_by` keeps exactly the rows meeting the condition, each with its original multiplicity |
| Sql.First | app/forms.py:22 | `.first()` returns a row meeting the condition, and returns nothing exactly when no row meets it |
| Sql.Dedup | app/models.py:84 | the duplicate-free list holds exactly the rows of the input and is no longer than it |
| Sql.Union | app/models.py:84 | `UNION` holds exactly the rows of either operand, each once |
| Sql.OrderByDesc | app/models.py:84 | `ORDER BY timestamp DESC` is a permutation of its input, sorted newest first, and keeps a distinct list distinct |
| Models.FindByUsername | app/routes.py:112 | the lookup by username finds a user with that name, and fails exactly when nobody has it |
| Models.FindByEmail | app/forms.py:27 | the lookup by e-mail finds a user with that address, and fails exactly when nobody has it |
| Models.FindById | app/models.py:106 | `User.query.get(id)` finds the user with that id, and fails exactly when none exists |
| Models.PasswordRoundTrip | app/models.py:57-61 | `check_password` accepts the password that `set_password` stored and rejects every other password |
| Models.CountEdges | app/models.py:76-77 | the number of `followers` rows for the pair is positive exactly when such a row exists |
| Models.IsFollowing | app/models.py:75-77 | `is_following` holds exactly when a `followers` row (me, user) exists |
| Models.DistinctCountAtMostOne | app/models.py:75-77 | in a table without duplicate rows, the `count()` that `is_following` takes is 0 or 1 |
| Models.RemoveEdge | app/models.py:73 | removing a relationship row deletes it, keeps every other row, and keeps a duplicate-free table duplicate-free |
| Models.Followed | app/models.py:67-69 | after `follow`, the table holds exactly its old rows plus the pair's row |
| Models.Unfollowed | app/models.py:71-73 | after `unfollow`, the table holds exactly its old rows other than the pair's row |
| Models.FollowEstablishes | app/models.py:67-69 | after `follow`, `is_following` holds |
| Models.UnfollowEnds | app/models.py:71-73 | after `unfollow`, `is_following` no longer holds |
| Models.FollowIdempotent | app/models.py:67-69 | following an already followed user leaves the table unchanged |
| Models.UnfollowIdempotent | app/models.py:71-73 | unfollowing a user who is not followed leaves the table unchanged |
| Models.FollowKeepsDistinct | app/models.py:67-69 | `follow` never adds a second copy of a row, though the table has no key that would forbid one |
| Models.UnfollowRemovesOneRow | app/models.py:71-73 | `unfollow` of a followed user deletes exactly one row |
| Models.FollowUnfollowTouchOnlyTheirPair | app/models.py:67-73 | `follow` and `unfollow` leave every other user pair's following status unchanged |
| Models.AppendPostKeepsKeys | app/models.py:126 | a new post taking the next autoincrement id keeps post ids unique and below the counter |
| Models.PostsBy | app/models.py:83 | the own-posts query holds exactly the posts whose `user_id` is the user |
| Models.FollowedJoin | app/models.py:80-82 | the join returns exactly the posts whose author the user follows |
| Models.FollowedPosts | app/models.py:79-84 | the feed holds exactly the user's own posts and the posts of users they follow, each once, newest first |
| Models.FollowedThrownAwayPosts | app/models.py:86-88 | the draft feed holds exactly the user's own `new_post` rows with their multiplicity, newest first |
| Models.FeedEmptyWhenAlone | app/models.py:79-84 | a user who follows nobody and has not posted has an empty feed |
| Models.FeedShowsFollowedUser | app/models.py:67-84 | after `follow`, every post of the followed user appears in the follower's feed |
| Models.FeedHidesUnfollowedUser | app/models.py:71-84 | after `unfollow` of another user, none of that user's posts is in the feed |
| Models.NewPostInFeeds | app/models.py:79-84 | a new post appears in its author's feed and in the feed of every follower |
| Models.FeedScenario | app/models.py:79-84 | when A follows only B and B has posted "hello", A's feed is [hello]; once A posts "world" later, A's feed is [world, hello], newest first |
| Models.Database.AddPost | app/routes.py:28-30 | storing a post appends it with the next id, the given body, time and author, and advances the id counter by one; other tables stay unchanged and the invariant holds |
| Models.Database.Follow | app/models.py:67-69 | the relationship table becomes the follow result and the user is then followed |
| Models.Database.Unfollow | app/models.py:71-73 | the relationship table becomes the unfollow result and the user is then not followed |
| Forms.ValidateUsername | app/forms.py:21-24 | registration's username check passes exactly when no user has that username |
| Forms.ValidateEmail | app/forms.py:26-29 | registration's e-mail check passes exactly when no user has that address |
| Forms.RegistrationValid | app/forms.py:13-29 | an accepted registration names a username and an e-mail address that no user holds, and repeats its non-empty password exactly |
| Forms.ValidateNewUsername | app/forms.py:39-43 | the profile form's username check passes for the unchanged name, and otherwise exactly when the name is unused |
| Forms.EditProfileValid | app/forms.py:31-43 | an accepted profile edit keeps the original username or picks an unused one, and has an about-me of at most 140 characters |
| Forms.PostValid | app/forms.py:45-47 | a post is accepted exactly when it has 1 to 140 characters and is not only whitespace |
| Forms.LoginValid | app/forms.py:7-10 | an accepted login form has a non-empty username and password |
| Forms.ResetValid | app/forms.py:54-57 | an accepted reset form repeats its non-empty password exactly |
| Routes.AddUser | app/routes.py:72-75 | registration appends one row with the given id, username and e-mail, a hash that checks the password, and an empty about-me; earlier rows stay as they were |
| Routes.EditedProfile | app/routes.py:99-101 | a profile edit changes only the current user's username and about-me text; other rows and columns stay as they were |
| Routes.PasswordSet | app/routes.py:175-176 | a password reset changes only that user's stored hash, which then checks the new password |
| Routes.SameUsernameSameUser | app/models.py:36 | with unique usernames, two users having the same username are the same row |
| Routes.RegistrationKeepsUnique | app/routes.py:71-75 | a user registered through an accepted form keeps usernames and e-mail addresses unique (fresh ids are `AddUserKeepsKeys`) |
| Routes.AddUserKeepsKeys | app/routes.py:72-75 | the new user takes the next autoincrement id, which keeps every id below the counter |
| Routes.EditKeepsUnique | app/routes.py:97-101 | an accepted profile edit keeps ids, usernames and e-mail addresses unique |
| Routes.Authenticate | app/routes.py:50-51 | the credentials are accepted exactly when a user has that username and the stored hash checks the password |
| Routes.Login | app/routes.py:44-59 | a logged-in visitor is sent to the index. An invalid form re-renders. An unknown name or wrong password fails. Otherwise the user with that name and password is logged in, with the remember flag and the redirect target |
| Routes.LoginFailureHidesCause | app/routes.py:50-53 | an unknown username and a wrong password give the same outcome |
| Routes.RegisterThenLogin | app/routes.py:71-75 | after an accepted registration, logging in with the chosen username and password succeeds as the new user |
| Routes.ResetThenLogin | app/routes.py:174-176 | after a password reset, the new password logs the user in and the old one, if different, fails |
| Routes.EditThenLogin | app/routes.py:98-101 | after renaming oneself, the new username with the same password logs in as the same user |
| Routes.AfterScheme | app/routes.py:56 | the first step of `url_parse` drops the `scheme:` prefix (a `:` with only scheme characters before it) exactly when what follows is not a non-empty run of digits (a port), and otherwise keeps the URL whole |
| Routes.Netloc | app/routes.py:56 | `url_parse(next).netloc` is, after a `//`, the longest run free of `/`, `?` and `#`, and empty when no `//` follows the scheme |
| Routes.AfterLogin | app/routes.py:55-58 | after login the redirect goes to `next` exactly when `next` is non-empty and, after an optional scheme, does not open with `//` and a host character; otherwise to the index |
| Routes.LocalPathFollowed | app/routes.py:55-58 | a `next` starting with a single `/` is followed |
| Routes.ProtocolRelativeRefused | app/routes.py:55-58 | a `next` starting with `//` and a host is refused in favour of the index |
| Routes.AbsoluteUrlRefused | app/routes.py:55-58 | an `http://host…` `next` is refused in favour of the index |
| Routes.FollowRoute | app/routes.py:109-122 | An unknown username changes nothing and reports not found. Following oneself changes nothing and is refused. Otherwise the user is followed. The invariant holds, and no self-edge is ever created |
| Routes.UnfollowRoute | app/routes.py:124-137 | An unknown username changes nothing and reports not found. Unfollowing oneself changes nothing and is refused. Otherwise the user is no longer followed. The invariant holds |
| Routes.Index | app/routes.py:22-42 | A valid post is stored under the current user with the next id, advances the counter, and appears in their feed. Otherwise the feed is shown and nothing changes |
| Routes.Register | app/routes.py:66-78 | A logged-in visitor is redirected and an invalid form is shown again, both changing nothing. An accepted form appends the new user under the counter's id, with name, e-mail, hashed password and empty about-me, and advances the counter. Uniqueness is kept |
| Routes.EditProfile | app/routes.py:94-107 | An accepted form updates only the current user's username and about-me, keeping usernames unique. A GET shows the current values; a refused POST shows the form again. Neither changes anything |
| Routes.ResetPassword | app/routes.py:166-179 | A logged-in visitor is redirected. A token naming no user is invalid. A valid token with no form or an invalid form shows the form. None of these changes anything. An accepted form sets the password of the user the token names. The invariant holds |

## Left out

- Rendering, `flash`, `redirect`/`url_for`, CSRF and templates: each route returns only which branch it took.
- The `user`, `explore`, `logout` and `reset_password_request` routes, `load_user` and the static pages: they only display or forward, and are not part of this model.
- Pagination (`paginate`, `POSTS_PER_PAGE`): the feed is modelled as the full ordered list that pages are cut from.
- The `before_request` update of `last_seen`: it is a timestamp that no modelled behaviour reads.
- Password hashing: `generate_password_hash` and `check_password_hash` are replaced by an ideal injective digest. Salting and hash collisions are not modelled.
- Reset tokens:
  - JWT encoding, signing and expiry are not modelled.
  - `verify_reset_password_token` becomes the `tokenSubject` parameter: the id a valid token names, or nothing.
  - The e-mail that sends the token is not part of this model.
- `avatar`: an md5 digest formatted into a URL; no property of the model depends on it.
- Forms.RegistrationValid: the wtforms `Email()` validator is not modelled, so any non-blank e-mail address is accepted.
- Routes.AfterLogin: a `next` with unbalanced IPv6 brackets raises `ValueError` inside werkzeug's `url_parse`; this is not modelled.
- Routes.AfterLogin: werkzeug's scheme pattern also matches with a trailing newline before the `:`; this is not modelled. `Routes.AfterScheme` and `Routes.Netloc` follow werkzeug's `url_parse` code (scheme characters, the port-number exception, the `//` authority).
- The `Comment`, `Discussion`, `Category`, `Tag` and `MultiMedia` tables and the `multi_media_used` and `tags` association tables: no modelled operation uses them.
  - `comments_commented` refers to an undefined name (`Comemnt`) and would fail when called.
- Creating `NewPost` rows: no route does it. The rows are taken as given.
- Foreign keys are not enforced: a `followers` or `post` row may name any id.
- The seeding script `leso.py` is not part of this model.
- Concurrency: two registrations racing past the uniqueness check would be stopped by the database's unique index; requests are modelled one at a time.
- A failed `commit`: every commit is taken to succeed.
- Text comparison is exact and case-sensitive; column lengths (`String(64)` and so on) are not enforced by the storage model.
- Routes.EditProfile: `about_me` that is NULL is shown as the empty string.
- Models.Database.Unfollow: with duplicate relationship rows, the ORM would raise a stale-data error. The invariant `Valid()` rules out duplicate rows, and `RemoveEdge` removes every copy.
- Models.FollowedPosts: SQL leaves the order of posts with equal timestamps open; the model fixes one order, which the lemmas do not rely on beyond `FeedScenario`'s distinct timestamps.
- Routes.Login and Routes.Authenticate require unique usernames: the `unique=True` index on `user.username` guarantees it, and `Database.Valid()` states it.
