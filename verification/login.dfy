/** The log-in page: the shared redirect for a signed-in user, the empty-field check and
    the sign-in call. A successful sign-in does not navigate; the auth-state change that
    follows makes the redirect effect fire. */
module Login {
  import opened Common
  import opened AuthRedirect

  /** `!email || !password`. */
  predicate MissingCredentials(email: string, password: string)
    // the empty string is the only falsy string, so the login call is made exactly when both are non-empty
    ensures !MissingCredentials(email, password) <==> |email| > 0 && |password| > 0
  {
    email == "" || password == ""
  }

  datatype LoginOutcome = Missing | LoginFailed(error: Error) | LoggedIn

  class LoginPage {
    var email: string
    var password: string
    var isSubmitting: bool
    var isRedirecting: bool
    var redirects: seq<string>
    /** Calls made to the auth service's sign-in. */
    var signInCalls: nat

    ghost predicate Valid()
      reads this
    {
      |redirects| == (if isRedirecting then 1 else 0)
    }

    constructor ()
      ensures Valid()
      ensures email == "" && password == "" && !isSubmitting && !isRedirecting && redirects == [] && signInCalls == 0
    {
      email, password := "", "";
      isSubmitting, isRedirecting := false, false;
      redirects := [];
      signInCalls := 0;
    }

    /** Typing in the two fields, which are disabled while submitting. */
    method SetFields(email: string, password: string)
      requires !isSubmitting
      modifies this
      ensures this.email == email && this.password == password
      ensures isSubmitting == old(isSubmitting) && isRedirecting == old(isRedirecting)
      ensures redirects == old(redirects) && signInCalls == old(signInCalls)
    {
      this.email, this.password := email, password;
    }

    /** The redirect effect. */
    method RunRedirectEffect(isLoading: bool, user: Option<AuthUser>)
      requires Valid()
      modifies this
      ensures Valid()
      ensures var d := RedirectDecision(isLoading, user, old(isRedirecting));
        && (d.Some? ==> isRedirecting && redirects == old(redirects) + [d.value])
        && (d.None? ==> isRedirecting == old(isRedirecting) && redirects == old(redirects))
      ensures email == old(email) && password == old(password)
      ensures isSubmitting == old(isSubmitting) && signInCalls == old(signInCalls)
    {
      if !isLoading && user.Some? && !isRedirecting {
        isRedirecting := true;
        redirects := redirects + [RedirectTarget(user.value)];
      }
    }

    /** `handleLogin`, from a submit button that is disabled while submitting: an empty
        field is refused before anything else; otherwise one sign-in call, an error
        re-enables the form, and success changes no route. */
    method HandleLogin(fault: Option<Error>) returns (out: LoginOutcome)
      requires Valid() && !isSubmitting
      modifies this
      ensures Valid()
      ensures email == old(email) && password == old(password)
      ensures isRedirecting == old(isRedirecting) && redirects == old(redirects)
      ensures MissingCredentials(email, password) ==>
        out == Missing && isSubmitting == old(isSubmitting) && signInCalls == old(signInCalls)
      ensures !MissingCredentials(email, password) ==>
        && signInCalls == old(signInCalls) + 1
        && (out == LoggedIn <==> fault.None?)
        && (out == LoggedIn ==> isSubmitting)
        && (out != LoggedIn ==> out == LoginFailed(fault.value) && !isSubmitting)
    {
      if email == "" || password == "" {
        return Missing;
      }
      isSubmitting := true;
      signInCalls := signInCalls + 1;
      if fault.Some? {
        isSubmitting := false;
        return LoginFailed(fault.value);
      }
      return LoggedIn;
    }

    predicate ShowsLoadingView(isLoading: bool)
      reads this
    {
      ShowsLoading(isLoading, isRedirecting)
    }
  }
}
