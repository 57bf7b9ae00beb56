/** The sign-up page: the shared redirect for a signed-in user, the checks on the three
    fields, and the sign-up call, which on success sends the user to the verification page
    with the address in the query. */
module Signup {
  import opened Common
  import opened AuthRedirect
  import UriComponent
  import VerifyEmail

  const MinPasswordLength: nat := 6

  datatype SignUpError = MissingField | PasswordMismatch | PasswordTooShort

  /** The checks of `handleSignUp`, in order; the first failure decides the message. */
  function SignUpCheck(email: string, password: string, confirmPassword: string): (r: Option<SignUpError>)
    ensures r == Some(MissingField) <==> email == "" || password == "" || confirmPassword == ""
    ensures r == Some(PasswordMismatch) <==>
      email != "" && password != "" && confirmPassword != "" && password != confirmPassword
    ensures r == Some(PasswordTooShort) <==>
      email != "" && password != "" && password == confirmPassword && Utf16Length(password) < MinPasswordLength
    ensures r.None? <==>
      email != "" && password == confirmPassword && Utf16Length(password) >= MinPasswordLength
  {
    if email == "" || password == "" || confirmPassword == "" then Some(MissingField)
    else if password != confirmPassword then Some(PasswordMismatch)
    else if Utf16Length(password) < MinPasswordLength then Some(PasswordTooShort)
    else None
  }

  /** The length limit counts UTF-16 code units: three characters outside the Basic
      Multilingual Plane are six units and pass, while three in it are refused. */
  lemma AstralPasswordLength()
    ensures SignUpCheck("a@b.c", "\U{1F600}\U{1F600}\U{1F600}", "\U{1F600}\U{1F600}\U{1F600}").None?
    ensures SignUpCheck("a@b.c", "abc", "abc") == Some(PasswordTooShort)
  {
    var p := "\U{1F600}\U{1F600}\U{1F600}";
    assert UnitsFrom(p, 2) == 2;
  }

  /** `/auth/verify?email=${encodeURIComponent(email)}`. */
  function VerifyLink(email: string): (r: string)
    ensures |r| >= |VerifyPath + "?email="| && r[..|VerifyPath + "?email="|] == VerifyPath + "?email="
    // the encoded address can neither end the parameter nor start a fragment
    ensures forall i :: |VerifyPath + "?email="| <= i < |r| ==> r[i] != '&' && r[i] != '#'
  {
    var head, enc := VerifyPath + "?email=", UriComponent.Encode(email);
    assert forall i :: |head| <= i < |head + enc| ==> (head + enc)[i] == enc[i - |head|];
    head + enc
  }

  /** The verification page reads back exactly the address the sign-up page sent, whatever
      characters it holds, and shows it while no user is loaded. */
  lemma VerifyLinkCarriesEmail(email: string)
    ensures UriComponent.QueryGet(UriComponent.SearchOf(VerifyLink(email)), "email") == Some(email)
    ensures VerifyEmail.DisplayEmail(None, UriComponent.QueryGet(UriComponent.SearchOf(VerifyLink(email)), "email")) == email
  {
    SearchOfVerifyLink(email);
    EmailPairRoundTrip(email);
  }

  /** The `email` parameter of the query `email=<encoded address>` is the address. */
  lemma EmailPairRoundTrip(email: string)
    ensures UriComponent.QueryGet("email=" + UriComponent.Encode(email), "email") == Some(email)
  {
    var name, enc := "email", UriComponent.Encode(email);
    assert name == ['e', 'm', 'a', 'i', 'l'];
    UriComponent.SinglePairRoundTrip(name, email);
    assert name + "=" == "email=";
  }

  /** The query string of the verification link is the single `email` pair: the path
      holds no `?` and the encoded address no `#`. */
  lemma SearchOfVerifyLink(email: string)
    ensures UriComponent.SearchOf(VerifyLink(email)) == "email=" + UriComponent.Encode(email)
  {
    var enc := UriComponent.Encode(email);
    var query := "email=" + enc;
    VerifyPathThenQuery(query);
    assert VerifyLink(email) == VerifyPath + ['?'] + query;
    forall i | 0 <= i < |query| ensures query[i] != '#' {
      if i >= 6 {
        assert query[i] == enc[i - 6];
      }
    }
    UriComponent.BeforeFirstAbsent(query, '#');
  }

  /** The first `?` of the link is the one after the path. */
  lemma VerifyPathThenQuery(query: string)
    ensures UriComponent.AfterFirst(VerifyPath + ['?'] + query, '?') == query
  {
    assert VerifyPath == "/auth/verify";
    forall i | 0 <= i < |VerifyPath| ensures VerifyPath[i] != '?' {
    }
    UriComponent.FirstSplit(VerifyPath, '?', query);
  }

  datatype SignUpOutcome = Invalid(reason: SignUpError) | SignUpFailed(error: Error) | SignedUp

  class SignupPage {
    var email: string
    var password: string
    var confirmPassword: string
    var isSubmitting: bool
    var isRedirecting: bool
    /** The routes replaced by the redirect effect, and the route pushed after sign-up. */
    var redirects: seq<string>
    var navigation: Option<string>
    /** Calls made to the auth service's sign-up. */
    var signUpCalls: nat

    ghost predicate Valid()
      reads this
    {
      |redirects| == (if isRedirecting then 1 else 0)
    }

    constructor ()
      ensures Valid()
      ensures email == "" && password == "" && confirmPassword == ""
      ensures !isSubmitting && !isRedirecting && redirects == [] && navigation == None && signUpCalls == 0
    {
      email, password, confirmPassword := "", "", "";
      isSubmitting, isRedirecting := false, false;
      redirects := [];
      navigation := None;
      signUpCalls := 0;
    }

    /** Typing in the three fields, which are disabled while submitting. */
    method SetFields(email: string, password: string, confirmPassword: string)
      requires !isSubmitting
      modifies this
      ensures this.email == email && this.password == password && this.confirmPassword == confirmPassword
      ensures isSubmitting == old(isSubmitting) && isRedirecting == old(isRedirecting) && redirects == old(redirects)
      ensures navigation == old(navigation) && signUpCalls == old(signUpCalls)
    {
      this.email, this.password, this.confirmPassword := email, password, confirmPassword;
    }

    /** The redirect effect. */
    method RunRedirectEffect(isLoading: bool, user: Option<AuthUser>)
      requires Valid()
      modifies this
      ensures Valid()
      ensures var d := RedirectDecision(isLoading, user, old(isRedirecting));
        && (d.Some? ==> isRedirecting && redirects == old(redirects) + [d.value])
        && (d.None? ==> isRedirecting == old(isRedirecting) && redirects == old(redirects))
      ensures email == old(email) && password == old(password) && confirmPassword == old(confirmPassword)
      ensures isSubmitting == old(isSubmitting) && navigation == old(navigation) && signUpCalls == old(signUpCalls)
    {
      if !isLoading && user.Some? && !isRedirecting {
        isRedirecting := true;
        redirects := redirects + [RedirectTarget(user.value)];
      }
    }

    /** `handleSignUp`, from a submit button that is disabled while submitting: the checks,
        then one sign-up call; an error re-enables the form, success goes to the
        verification page with the address. */
    method HandleSignUp(fault: Option<Error>) returns (out: SignUpOutcome)
      requires Valid() && !isSubmitting
      modifies this
      ensures Valid()
      ensures email == old(email) && password == old(password) && confirmPassword == old(confirmPassword)
      ensures isRedirecting == old(isRedirecting) && redirects == old(redirects)
      ensures SignUpCheck(email, password, confirmPassword).Some? ==>
        && out == Invalid(SignUpCheck(email, password, confirmPassword).value)
        && signUpCalls == old(signUpCalls) && isSubmitting == old(isSubmitting) && navigation == old(navigation)
      ensures SignUpCheck(email, password, confirmPassword).None? ==>
        && signUpCalls == old(signUpCalls) + 1
        && (out == SignedUp <==> fault.None?)
        && (out == SignedUp ==> isSubmitting && navigation == Some(VerifyLink(email)))
        && (out != SignedUp ==> out == SignUpFailed(fault.value) && !isSubmitting && navigation == old(navigation))
    {
      var check := SignUpCheck(email, password, confirmPassword);
      if check.Some? {
        return Invalid(check.value);
      }
      isSubmitting := true;
      signUpCalls := signUpCalls + 1;
      if fault.Some? {
        isSubmitting := false;
        return SignUpFailed(fault.value);
      }
      navigation := Some(VerifyLink(email));
      return SignedUp;
    }
  }
}
