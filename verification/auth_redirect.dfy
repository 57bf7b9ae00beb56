/** The "already signed in" rule shared by the landing, sign-up and log-in pages: once the
    auth state has loaded and a user is present, the page marks itself as redirecting and
    replaces the route with the verification page for an unconfirmed user or the map for a
    confirmed one. */
module AuthRedirect {
  import opened Common

  const VerifyPath: string := "/auth/verify"
  const MapPath: string := "/map"

  /** Where a signed-in user is sent. */
  function RedirectTarget(user: AuthUser): (r: string)
    ensures r == VerifyPath || r == MapPath
    ensures r == VerifyPath <==> !user.confirmed
  {
    if !user.confirmed then VerifyPath else MapPath
  }

  /** The redirect effect: the route it replaces, when it fires. */
  function RedirectDecision(isLoading: bool, user: Option<AuthUser>, isRedirecting: bool): (r: Option<string>)
    ensures r.Some? <==> !isLoading && user.Some? && !isRedirecting
    ensures r.Some? ==> r.value == RedirectTarget(user.value)
  {
    if !isLoading && user.Some? && !isRedirecting then Some(RedirectTarget(user.value)) else None
  }

  /** `isLoading || isRedirecting`: the loading screen. */
  predicate ShowsLoading(isLoading: bool, isRedirecting: bool)
    // the form shows only once auth has loaded and no redirect is under way
    ensures !ShowsLoading(isLoading, isRedirecting) <==> !isLoading && !isRedirecting
  {
    isLoading || isRedirecting
  }

  /** The redirects a page performs over a run of effect executions, starting from
      `isRedirecting`; each run sees the flag the previous one left. */
  function Redirects(isRedirecting: bool, runs: seq<(bool, Option<AuthUser>)>): seq<string>
    decreases |runs|
  {
    if |runs| == 0 then []
    else
      var d := RedirectDecision(runs[0].0, runs[0].1, isRedirecting);
      (if d.Some? then [d.value] else []) + Redirects(isRedirecting || d.Some?, runs[1..])
  }

  /** Because the flag is set before navigating, a page redirects at most once however
      often the effect runs, and never again once the flag is set; the one redirect is the
      one the first run with a loaded user chooses. */
  lemma {:induction false} RedirectsAtMostOnce(isRedirecting: bool, runs: seq<(bool, Option<AuthUser>)>)
    decreases |runs|
    ensures |Redirects(isRedirecting, runs)| <= 1
    ensures isRedirecting ==> Redirects(isRedirecting, runs) == []
    ensures forall i :: 0 <= i < |Redirects(isRedirecting, runs)| ==>
      Redirects(isRedirecting, runs)[i] == VerifyPath || Redirects(isRedirecting, runs)[i] == MapPath
  {
    if |runs| > 0 {
      var d := RedirectDecision(runs[0].0, runs[0].1, isRedirecting);
      RedirectsAtMostOnce(isRedirecting || d.Some?, runs[1..]);
    }
  }
}
