/** The route the confirmation link lands on: it exchanges the `code` query parameter for a
    session and redirects, on the request's own origin, to onboarding on success and to
    sign-up otherwise. */
module Callback {
  import opened Common

  const OnboardingPath: string := "/auth/onboarding"
  const SignupPath: string := "/auth/signup"

  /** The redirect the route answers with, and the code it tried to exchange, if any. */
  datatype CallbackResult = CallbackResult(location: string, exchanged: Option<string>)

  /** `GET`: `if (code)` (an empty code counts as none), then the exchange, whose success is
      `exchangeOk`. */
  function HandleCallback(origin: string, code: Option<string>, exchangeOk: bool): (r: CallbackResult)
    // the exchange is attempted exactly with a non-empty code, and with that code
    ensures r.exchanged.Some? <==> code.Some? && code.value != ""
    ensures r.exchanged.Some? ==> r.exchanged == code
    // onboarding exactly after a successful exchange, sign-up otherwise
    ensures r.location == origin + OnboardingPath <==> r.exchanged.Some? && exchangeOk
    ensures r.location == origin + SignupPath <==> !(r.exchanged.Some? && exchangeOk)
    // always on the request's own origin
    ensures origin <= r.location
  {
    if code.Some? && code.value != "" then
      if exchangeOk then CallbackResult(origin + OnboardingPath, code)
      else CallbackResult(origin + SignupPath, code)
    else
      CallbackResult(origin + SignupPath, None)
  }
}
