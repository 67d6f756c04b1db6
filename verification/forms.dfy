/**
 * The form validators: wtforms' `DataRequired`, `Length` and `EqualTo`, and
 * the forms' own uniqueness checks against the `user` table.
 */
module Forms {
  import opened Models

  /** Python's `str.isspace` for one character. */
  predicate IsSpace(c: char) {
    || c == ' ' || '\t' <= c <= '\r' || '\U{1c}' <= c <= '\U{1f}'
    || c == '\U{85}' || c == '\U{a0}' || c == '\U{1680}'
    || '\U{2000}' <= c <= '\U{200a}' || c == '\U{2028}' || c == '\U{2029}'
    || c == '\U{202f}' || c == '\U{205f}' || c == '\U{3000}'
  }

  /** `DataRequired()`: the field is not empty and not only whitespace. */
  predicate DataRequired(s: string) {
    exists i :: 0 <= i < |s| && !IsSpace(s[i])
  }

  /** `Length(min, max)`: `max == -1` means no upper bound. */
  predicate Length(s: string, min: int, max: int) {
    min <= |s| && (max == -1 || |s| <= max)
  }

  /** `EqualTo(other)`: the field holds the same text as the other field. */
  predicate EqualTo(field: string, other: string) {
    field == other
  }

  // ---------------------------------------------------------------------
  // RegistrationForm

  datatype RegistrationInput = RegistrationInput(username: string, email: string, password: string, password2: string)

  /** `RegistrationForm.validate_username`: no user has this username yet. */
  function ValidateUsername(users: seq<User>, username: string): (ok: bool)
    ensures ok <==> forall u :: u in users ==> u.username != username
  {
    FindByUsername(users, username).None?
  }

  /** `RegistrationForm.validate_email`: no user has this email yet. */
  function ValidateEmail(users: seq<User>, email: string): (ok: bool)
    ensures ok <==> forall u :: u in users ==> u.email != email
  {
    FindByEmail(users, email).None?
  }

  /**
   * Every field of `RegistrationForm` passes its validators: an accepted
   * registration names a username and an email no user has yet, and repeats
   * its password exactly.
   */
  predicate RegistrationValid(users: seq<User>, f: RegistrationInput): (ok: bool)
    ensures ok ==> forall u :: u in users ==> u.username != f.username && u.email != f.email
    ensures ok ==> f.password2 == f.password && f.password != []
  {
    && DataRequired(f.username) && ValidateUsername(users, f.username)
    && DataRequired(f.email) && ValidateEmail(users, f.email)
    && DataRequired(f.password)
    && DataRequired(f.password2) && EqualTo(f.password2, f.password)
  }

  // ---------------------------------------------------------------------
  // EditProfileForm

  datatype ProfileInput = ProfileInput(username: string, aboutMe: string)

  /**
   * `EditProfileForm.validate_username`: a username equal to the one the
   * form was opened with always passes; another one passes only if unused.
   */
  function ValidateNewUsername(users: seq<User>, original: string, username: string): (ok: bool)
    ensures username == original ==> ok
    ensures username != original ==> (ok <==> forall u :: u in users ==> u.username != username)
  {
    username == original || FindByUsername(users, username).None?
  }

  /**
   * Every field of `EditProfileForm` passes its validators: an accepted edit
   * keeps or frees a username and has an about-me of at most 140 characters.
   */
  predicate EditProfileValid(users: seq<User>, original: string, f: ProfileInput): (ok: bool)
    ensures ok ==> f.username == original || forall u :: u in users ==> u.username != f.username
    ensures ok ==> f.username != [] && |f.aboutMe| <= 140
  {
    && DataRequired(f.username) && ValidateNewUsername(users, original, f.username)
    && Length(f.aboutMe, 0, 140)
  }

  // ---------------------------------------------------------------------
  // PostForm, LoginForm, ResetPasswordForm

  /** `PostForm`: the post has 1 to 140 characters and is not only whitespace. */
  predicate PostValid(body: string): (ok: bool)
    ensures ok <==> 1 <= |body| <= 140 && exists i :: 0 <= i < |body| && !IsSpace(body[i])
  {
    DataRequired(body) && Length(body, 1, 140)
  }

  datatype LoginInput = LoginInput(username: string, password: string, rememberMe: bool)

  /** `LoginForm`: username and password are both filled in with more than whitespace. */
  predicate LoginValid(f: LoginInput): (ok: bool)
    ensures ok ==> f.username != [] && f.password != []
  {
    DataRequired(f.username) && DataRequired(f.password)
  }

  datatype ResetInput = ResetInput(password: string, password2: string)

  /** `ResetPasswordForm`: both fields filled in, and the repetition equal to the password. */
  predicate ResetValid(f: ResetInput): (ok: bool)
    ensures ok ==> f.password2 == f.password && f.password != []
  {
    DataRequired(f.password) && DataRequired(f.password2) && EqualTo(f.password2, f.password)
  }
}
