/**
 * The reset-password page: its zod schema (`resetPasswordSchema`) and the
 * page state that `checkSession` and `onSubmit` set. The Supabase session
 * lookup and the `updateUser` call are parameters; toasts and rendering are
 * not modelled.
 */
module ResetPassword {
  import opened Wrappers
  import opened Strings
  import opened AuthValidation

  datatype ResetForm = ResetForm(password: string, confirmPassword: string)

  const TooShort := "Password must be at least 8 characters"
  const InvalidLink := "Invalid or expired password reset link. Please request a new one."

  /** Both fields need 8 characters, and the refinement reports a mismatch on
      `confirmPassword`. The minimum-length issues only mark the result dirty,
      so zod still runs the refinement and reports all three together. */
  function ResetIssues(form: ResetForm): (r: seq<Issue>)
    ensures r == [] <==> Utf16Length(form.password) >= 8 && form.password == form.confirmPassword
    ensures form.password != form.confirmPassword ==> Issue("confirmPassword", "Passwords do not match") in r
    ensures Utf16Length(form.password) < 8 ==> Issue("password", TooShort) in r
    ensures Utf16Length(form.confirmPassword) < 8 ==> Issue("confirmPassword", TooShort) in r
    ensures |r| <= 3
  {
    (if Utf16Length(form.password) < 8 then [Issue("password", TooShort)] else [])
    + (if Utf16Length(form.confirmPassword) < 8 then [Issue("confirmPassword", TooShort)] else [])
    + (if form.password != form.confirmPassword then [Issue("confirmPassword", "Passwords do not match")] else [])
  }

  /** What `supabase.auth.updateUser` answered: success, or an error whose
      `message` may be missing. */
  datatype UpdateResult = Updated | UpdateFailed(message: Option<string>)

  class ResetPasswordPage {
    var isSubmitting: bool
    var error: Option<string>
    var isSuccess: bool
    var isValidLink: bool
    /** The page the success path schedules a redirect to. */
    var redirect: Option<string>

    constructor ()
      ensures !isSubmitting && error.None? && !isSuccess && !isValidLink && redirect.None?
    {
      isSubmitting := false;
      error := None;
      isSuccess := false;
      isValidLink := false;
      redirect := None;
    }

    /** `checkSession`: the link is valid exactly when the lookup returns a
        session and no error. */
    method CheckSession(lookupFailed: bool, hasSession: bool)
      modifies this
      ensures isValidLink <==> !lookupFailed && hasSession
      ensures !isValidLink ==> error == Some(InvalidLink)
      ensures isValidLink ==> error == old(error)
      ensures isSubmitting == old(isSubmitting) && isSuccess == old(isSuccess) && redirect == old(redirect)
    {
      if lookupFailed || !hasSession {
        isValidLink := false;
        error := Some(InvalidLink);
      } else {
        isValidLink := true;
      }
    }

    /** A submit of the form: `handleSubmit` validates with the schema and calls
        `onSubmit` only when there are no issues; `onSubmit` returns at once on
        an invalid link. `called` says whether the password update was sent. */
    method Submit(form: ResetForm, answer: UpdateResult) returns (called: bool)
      modifies this
      ensures called <==> ResetIssues(form) == [] && old(isValidLink)
      ensures !called ==>
        && isSubmitting == old(isSubmitting) && error == old(error) && isSuccess == old(isSuccess)
        && redirect == old(redirect)
      ensures isValidLink == old(isValidLink)
      ensures called ==> !isSubmitting
      ensures called && answer.Updated? ==> isSuccess && error.None? && redirect == Some("/auth/signin")
      ensures called && answer.UpdateFailed? ==>
        && isSuccess == old(isSuccess) && redirect == old(redirect)
        && error == Some(if Truthy(answer.message) then answer.message.value else "Failed to reset password")
    {
      if ResetIssues(form) != [] {
        return false;
      }
      if !isValidLink {
        return false;
      }
      isSubmitting := true;
      error := None;
      called := true;
      match answer {
        case Updated =>
          isSuccess := true;
          redirect := Some("/auth/signin");
        case UpdateFailed(message) =>
          error := Some(if Truthy(message) then message.value else "Failed to reset password");
      }
      isSubmitting := false;
    }
  }

  /** A page whose session lookup failed, by an error or by finding no session,
      never sends a password update, however the form is filled in. */
  method ExpiredLinkNeverUpdates(lookupFailed: bool, hasSession: bool, form: ResetForm, answer: UpdateResult)
    returns (called: bool)
    requires lookupFailed || !hasSession
    ensures !called
  {
    var page := new ResetPasswordPage();
    page.CheckSession(lookupFailed, hasSession);
    called := page.Submit(form, answer);
  }
}
