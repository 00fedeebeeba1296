/**
 * The zod schemas of `lib/validations/auth.ts` as issue lists: each schema
 * maps a form to the issues zod reports, and a form is accepted when that list
 * is empty. zod runs every check of a string field, so one field can report
 * several issues. String lengths are JavaScript lengths (UTF-16 units). The
 * email format check is zod's own and is a parameter here.
 */
module AuthValidation {
  import opened Wrappers
  import opened Strings

  datatype Issue = Issue(path: string, message: string)

  datatype SignUpForm = SignUpForm(email: string, username: string, password: string)
  datatype SignInForm = SignInForm(email: string, password: string)
  /** `name` and `bio` are nullable and optional: `None` is null or absent. */
  datatype ProfileForm = ProfileForm(username: string, name: Option<string>, bio: Option<string>)

  /** A character of the class `[a-zA-Z0-9_]`. */
  predicate IsWordChar(c: char) {
    'a' <= c <= 'z' || 'A' <= c <= 'Z' || '0' <= c <= '9' || c == '_'
  }

  /** `/^[a-zA-Z0-9_]+$/`: one or more word characters and nothing else. */
  predicate MatchesUsernamePattern(s: string) {
    |s| > 0 && forall i | 0 <= i < |s| :: IsWordChar(s[i])
  }

  function EmailIssues(email: string, isEmail: string -> bool): (r: seq<Issue>)
    ensures r == [] <==> isEmail(email)
  {
    if isEmail(email) then [] else [Issue("email", "Please enter a valid email")]
  }

  /** The username rules shared by sign-up and profile: 3 to 20 characters,
      letters, digits and underscores only. */
  function UsernameIssues(username: string): (r: seq<Issue>)
    ensures r == [] <==> 3 <= |username| <= 20 && MatchesUsernamePattern(username)
    ensures forall i | 0 <= i < |r| :: r[i].path == "username"
    ensures Utf16Length(username) < 3 ==> Issue("username", "Username must be at least 3 characters") in r
    ensures Utf16Length(username) > 20 ==> Issue("username", "Username must be at most 20 characters") in r
  {
    var n := Utf16Length(username);
    (if n < 3 then [Issue("username", "Username must be at least 3 characters")] else [])
    + (if n > 20 then [Issue("username", "Username must be at most 20 characters")] else [])
    + (if MatchesUsernamePattern(username) then []
       else [Issue("username", "Username can only contain letters, numbers, and underscores")])
  }

  function PasswordIssues(password: string, min: nat, message: string): (r: seq<Issue>)
    ensures r == [] <==> Utf16Length(password) >= min
  {
    if Utf16Length(password) < min then [Issue("password", message)] else []
  }

  function SignUpIssues(form: SignUpForm, isEmail: string -> bool): (r: seq<Issue>)
    ensures r == [] <==>
      && isEmail(form.email)
      && 3 <= |form.username| <= 20 && MatchesUsernamePattern(form.username)
      && Utf16Length(form.password) >= 8
  {
    EmailIssues(form.email, isEmail) + UsernameIssues(form.username)
    + PasswordIssues(form.password, 8, "Password must be at least 8 characters")
  }

  function SignInIssues(form: SignInForm, isEmail: string -> bool): (r: seq<Issue>)
    ensures r == [] <==> isEmail(form.email) && form.password != ""
  {
    EmailIssues(form.email, isEmail) + PasswordIssues(form.password, 1, "Password is required")
  }

  function ProfileIssues(form: ProfileForm): (r: seq<Issue>)
    ensures r == [] <==>
      && 3 <= |form.username| <= 20 && MatchesUsernamePattern(form.username)
      && (form.bio.None? || Utf16Length(form.bio.value) <= 160)
  {
    UsernameIssues(form.username)
    + (if form.bio.Some? && Utf16Length(form.bio.value) > 160
       then [Issue("bio", "Bio must be at most 160 characters")] else [])
  }

  /** Any sign-up form that is accepted also passes sign-in with the same
      email and password: sign-in asks strictly less. */
  lemma SignUpImpliesSignIn(form: SignUpForm, isEmail: string -> bool)
    requires SignUpIssues(form, isEmail) == []
    ensures SignInIssues(SignInForm(form.email, form.password), isEmail) == []
  {
  }

  /** A profile and a sign-up form with the same username report the same
      username issues; so, all else accepted, they accept the same usernames. */
  lemma SameUsernameRule(username: string, email: string, password: string, name: Option<string>,
                         isEmail: string -> bool)
    requires isEmail(email) && Utf16Length(password) >= 8
    ensures ProfileIssues(ProfileForm(username, name, None)) == []
        <==> SignUpIssues(SignUpForm(email, username, password), isEmail) == []
  {
  }

  /** The two password rules differ: sign-in accepts a seven-character
      password that sign-up refuses. */
  lemma PasswordRulesDiffer(email: string, isEmail: string -> bool)
    requires isEmail(email)
    ensures SignInIssues(SignInForm(email, "1234567"), isEmail) == []
    ensures SignUpIssues(SignUpForm(email, "writer_1", "1234567"), isEmail) != []
  {
    assert Utf16Length("1234567") == 7;
  }
}
