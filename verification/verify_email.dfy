/** The e-mail verification page: a background poll that asks the auth service every three
    seconds whether the address is confirmed, a manual check, and a resend button with a
    sixty-second cooldown. Browser timers are modelled by their handles: `liveIntervals`
    holds the intervals registered and not yet cleared, and each firing or tick is a method
    call. */
module VerifyEmail {
  import opened Common

  const PollIntervalMs: nat := 3000
  const ResendCooldown: nat := 60
  const OnboardingPath: string := "/auth/onboarding"

  /** `user?.email ?? emailFromQuery ?? ''`: only a missing value falls through, an empty
      user e-mail is kept. */
  function DisplayEmail(userEmail: Option<string>, queryEmail: Option<string>): (r: string)
    ensures userEmail.Some? ==> r == userEmail.value
    ensures userEmail.None? && queryEmail.Some? ==> r == queryEmail.value
    ensures userEmail.None? && queryEmail.None? ==> r == ""
  {
    if userEmail.Some? then userEmail.value
    else if queryEmail.Some? then queryEmail.value
    else ""
  }

  /** `!displayEmail || countdown > 0` refuses a resend. */
  predicate ResendAllowed(displayEmail: string, countdown: nat)
    // refused without an address and during the cooldown, allowed otherwise
    ensures displayEmail == "" ==> !ResendAllowed(displayEmail, countdown)
    ensures countdown > 0 ==> !ResendAllowed(displayEmail, countdown)
    ensures displayEmail != "" && countdown == 0 ==> ResendAllowed(displayEmail, countdown)
  {
    displayEmail != "" && countdown == 0
  }

  /** The countdown after `ticks` one-second ticks: it falls by one per tick and stops at 0. */
  function CountdownAfter(countdown: nat, ticks: nat): (r: nat)
    ensures r <= countdown
    ensures r == 0 <==> ticks >= countdown
    ensures ticks < countdown ==> r == countdown - ticks
  {
    if ticks == 0 || countdown == 0 then countdown else CountdownAfter(countdown - 1, ticks - 1)
  }

  /** After a successful resend the next one is allowed exactly when sixty ticks have
      passed. */
  lemma CooldownLastsSixtyTicks(displayEmail: string, ticks: nat)
    ensures ResendAllowed(displayEmail, CountdownAfter(ResendCooldown, ticks)) <==> displayEmail != "" && ticks >= ResendCooldown
  {
  }

  /** Ticks compose: waiting `a` then `b` ticks is waiting `a + b`. */
  lemma {:induction false} CountdownCompose(countdown: nat, a: nat, b: nat)
    ensures CountdownAfter(CountdownAfter(countdown, a), b) == CountdownAfter(countdown, a + b)
  {
    if a > 0 && countdown > 0 {
      CountdownCompose(countdown - 1, a - 1, b);
    }
  }

  /** What `refreshSession` reports when a poll runs. */
  datatype PollOutcome = Confirmed | NotConfirmed | PollFailed

  datatype ResendOutcome = ResendRefused | Resent | ResendFailed(error: Error)

  class VerifyPage {
    var isResending: bool
    var countdown: nat
    var isVerified: bool
    /** `pollTimerRef.current`. */
    var pollTimer: Option<nat>
    /** Whether the last run of the poll effect returned a cleanup. */
    var cleanupRegistered: bool
    var liveIntervals: set<nat>
    var nextHandle: nat
    var navigation: Option<string>

    /** At most one poll interval is ever live, and it is the one the page holds. */
    ghost predicate Valid()
      reads this
    {
      && liveIntervals == (if pollTimer.Some? then {pollTimer.value} else {})
      && (pollTimer.Some? ==> cleanupRegistered && 0 < pollTimer.value < nextHandle)
      && 0 < nextHandle
      && (navigation.Some? ==> navigation.value == OnboardingPath)
    }

    constructor ()
      ensures Valid()
      ensures !isResending && countdown == 0 && !isVerified
      ensures pollTimer == None && liveIntervals == {} && navigation == None
    {
      isResending, countdown, isVerified := false, 0, false;
      pollTimer := None;
      cleanupRegistered := false;
      liveIntervals := {};
      nextHandle := 1;
      navigation := None;
    }

    /** The cleanup of the poll effect: clear the held interval, if any. */
    method Cleanup()
      requires Valid()
      modifies this
      ensures Valid()
      ensures pollTimer == None && liveIntervals == {}
      ensures isResending == old(isResending) && countdown == old(countdown) && isVerified == old(isVerified)
      ensures navigation == old(navigation) && nextHandle == old(nextHandle)
    {
      if pollTimer.Some? {
        liveIntervals := liveIntervals - {pollTimer.value};
        pollTimer := None;
      }
      cleanupRegistered := false;
    }

    /** The poll effect, run when `isLoading` or the user's confirmation changes, after the
        previous run's cleanup: nothing while loading, straight to onboarding for a
        confirmed user, otherwise one new interval whose handle is stored. */
    method RunPollEffect(authLoading: bool, userConfirmed: bool)
      requires Valid()
      modifies this
      ensures Valid()
      ensures authLoading ==> liveIntervals == {} && navigation == old(navigation)
      ensures !authLoading && userConfirmed ==> liveIntervals == {} && navigation == Some(OnboardingPath)
      ensures !authLoading && !userConfirmed ==>
        && pollTimer == Some(old(nextHandle)) && liveIntervals == {old(nextHandle)}
        && navigation == old(navigation)
      ensures isResending == old(isResending) && countdown == old(countdown) && isVerified == old(isVerified)
    {
      if cleanupRegistered {
        Cleanup();
      }
      if authLoading {
        return;
      }
      if userConfirmed {
        navigation := Some(OnboardingPath);
        return;
      }
      var h := nextHandle;
      nextHandle := nextHandle + 1;
      liveIntervals := liveIntervals + {h};
      pollTimer := Some(h);
      cleanupRegistered := true;
    }

    /** Leaving the page runs the registered cleanup: no interval survives. */
    method Unmount()
      requires Valid()
      modifies this
      ensures Valid()
      ensures liveIntervals == {} && pollTimer == None
      ensures navigation == old(navigation) && isVerified == old(isVerified)
    {
      if cleanupRegistered {
        Cleanup();
      }
    }

    /** `checkVerificationStatus`: a confirmed address sets `isVerified`, clears and drops
        the interval and goes to onboarding; anything else, a failure included, changes
        nothing. */
    method CheckVerificationStatus(outcome: PollOutcome)
      requires Valid()
      modifies this
      ensures Valid()
      ensures outcome == Confirmed ==>
        isVerified && pollTimer == None && liveIntervals == {} && navigation == Some(OnboardingPath)
      ensures outcome != Confirmed ==>
        isVerified == old(isVerified) && pollTimer == old(pollTimer) && liveIntervals == old(liveIntervals)
        && navigation == old(navigation)
      ensures isResending == old(isResending) && countdown == old(countdown)
    {
      if outcome == Confirmed {
        isVerified := true;
        if pollTimer.Some? {
          liveIntervals := liveIntervals - {pollTimer.value};
          pollTimer := None;
        }
        navigation := Some(OnboardingPath);
      }
    }

    /** `handleManualCheck`: runs the check, then, reading the `isVerified` of the render it
        was created in, asks for the session and reports "not confirmed yet" when the
        session is not confirmed. */
    method HandleManualCheck(outcome: PollOutcome, sessionConfirmed: bool) returns (warned: bool)
      requires Valid()
      modifies this
      ensures Valid()
      ensures warned <==> !old(isVerified) && !sessionConfirmed
      ensures outcome == Confirmed ==> isVerified && liveIntervals == {} && navigation == Some(OnboardingPath)
      ensures outcome != Confirmed ==> isVerified == old(isVerified) && liveIntervals == old(liveIntervals)
      ensures isResending == old(isResending) && countdown == old(countdown)
    {
      var renderedVerified := isVerified;
      CheckVerificationStatus(outcome);
      warned := false;
      if !renderedVerified {
        if !sessionConfirmed {
          warned := true;
        }
      }
    }

    /** `handleResendEmail`: refused without an address or during the cooldown; otherwise
        resends, starts the sixty-second cooldown on success, and always ends with
        `isResending` off. */
    method HandleResend(displayEmail: string, fault: Option<Error>) returns (out: ResendOutcome)
      requires Valid()
      modifies this
      ensures Valid()
      ensures !ResendAllowed(displayEmail, old(countdown)) ==>
        out == ResendRefused && countdown == old(countdown) && isResending == old(isResending)
      ensures ResendAllowed(displayEmail, old(countdown)) ==>
        && !isResending
        && (out == Resent <==> fault.None?)
        && (out == Resent ==> countdown == ResendCooldown)
        && (out != Resent ==> out.ResendFailed? && countdown == old(countdown))
      ensures isVerified == old(isVerified) && pollTimer == old(pollTimer) && liveIntervals == old(liveIntervals)
      ensures navigation == old(navigation)
    {
      if displayEmail == "" || countdown > 0 {
        return ResendRefused;
      }
      isResending := true;
      if fault.Some? {
        out := ResendFailed(fault.value);
      } else {
        countdown := ResendCooldown;
        out := Resent;
      }
      isResending := false;
    }

    /** One second of the countdown effect. */
    method Tick()
      requires Valid()
      modifies this
      ensures Valid()
      ensures countdown == CountdownAfter(old(countdown), 1)
      ensures isResending == old(isResending) && isVerified == old(isVerified)
      ensures pollTimer == old(pollTimer) && liveIntervals == old(liveIntervals) && navigation == old(navigation)
    {
      if countdown > 0 {
        countdown := countdown - 1;
      }
    }
  }
}
