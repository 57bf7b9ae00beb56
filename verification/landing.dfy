/** The landing page: redirects a signed-in user once, shows the loading view while the
    auth state loads or a redirect is under way, and the landing view otherwise. */
module Landing {
  import opened Common
  import opened AuthRedirect

  class LandingPage {
    var isRedirecting: bool
    /** The routes replaced by the redirect effect, in order. */
    var redirects: seq<string>

    /** The flag is set exactly when the one redirect has happened. */
    ghost predicate Valid()
      reads this
    {
      |redirects| == (if isRedirecting then 1 else 0)
    }

    constructor ()
      ensures Valid() && !isRedirecting && redirects == []
    {
      isRedirecting := false;
      redirects := [];
    }

    /** The redirect effect. */
    method RunRedirectEffect(isLoading: bool, user: Option<AuthUser>)
      requires Valid()
      modifies this
      ensures Valid()
      ensures var d := RedirectDecision(isLoading, user, old(isRedirecting));
        && (d.Some? ==> isRedirecting && redirects == old(redirects) + [d.value])
        && (d.None? ==> isRedirecting == old(isRedirecting) && redirects == old(redirects))
    {
      if !isLoading && user.Some? && !isRedirecting {
        isRedirecting := true;
        redirects := redirects + [RedirectTarget(user.value)];
      }
    }

    predicate ShowsLoadingView(isLoading: bool)
      reads this
    {
      ShowsLoading(isLoading, isRedirecting)
    }
  }
}
