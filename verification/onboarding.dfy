/** The three-step onboarding page: step 0 picks a username (checked for format and, after
    a debounce, for availability), step 1 a display name, step 2 a bio, after which the
    profile is created. Toasts are modelled as the error value that selects them and the
    navigation as the path pushed. */
module Onboarding {
  import opened Common
  import opened Backend
  import opened ProfileStore

  const MapPath: string := "/map"
  /** The debounce before the availability lookup, in milliseconds. */
  const LookupDelayMs: nat := 500
  const MaxDisplayName: nat := 30
  const MaxBio: nat := 150

  /** A character of the class `[a-zA-Z0-9_]`. */
  predicate IsUsernameChar(c: char) {
    ('a' <= c <= 'z') || ('A' <= c <= 'Z') || ('0' <= c <= '9') || c == '_'
  }

  /** `/^[a-zA-Z0-9_]{3,20}$/.test(s)`; the one test used by the status effect, the form
      check, the step-0 check and the submit button. */
  predicate ValidUsername(s: string)
    // a well-formed name is ASCII, so its `.length` is its number of characters
    ensures ValidUsername(s) ==> forall i :: 0 <= i < |s| ==> s[i] as int < 0x80
    ensures ValidUsername(s) ==> 3 <= Utf16Length(s) <= 20
  {
    if 3 <= |s| <= 20 && forall i :: 0 <= i < |s| ==> IsUsernameChar(s[i]) then
      Utf16LengthBmp(s);
      true
    else false
  }

  datatype UsernameStatus = Idle | Checking | Available | Taken

  /** The reasons a step or the whole form is refused, one per toast. */
  datatype FormError = NameMissing | NameTooLong | UsernameMissing | UsernameFormat | UsernameTaken | BioTooLong

  /** A well-formed username is never blank, so the blank test never hides the format test. */
  lemma ValidUsernameNotBlank(s: string)
    ensures ValidUsername(s) ==> !IsBlank(s)
  {
    if ValidUsername(s) {
      BlankIffAllSpace(s);
      assert IsUsernameChar(s[0]) && !IsSpace(s[0]);
    }
  }

  /** The input lower-cases what is typed: lower-casing keeps a name well-formed and is
      idempotent, so the name checked for availability is the name inserted. */
  lemma LowerKeepsUsername(s: string)
    ensures ValidUsername(s) ==> ValidUsername(Lower(s))
    ensures Lower(Lower(s)) == Lower(s)
  {
    var l := Lower(s);
    assert forall i :: 0 <= i < |s| ==> LowerChar(l[i]) == l[i];
    assert Lower(l) == l;
  }

  /** Typing a Kelvin sign gives the letter `k`, as `toLowerCase` does, so "\u212Aab" is
      stored as "kab" and looked up. */
  lemma KelvinSignUsername()
    ensures Lower("\U{212A}ab") == "kab"
    ensures StatusOnInput(Lower("\U{212A}ab")) == Checking
  {
    assert Lower("\U{212A}ab")[0] == 'k';
    assert Lower("\U{212A}ab") == "kab";
  }

  /** The status the username effect sets on a new input: idle for an empty, short or
      ill-formed name, otherwise checking (with a lookup scheduled). */
  function StatusOnInput(username: string): (r: UsernameStatus)
    ensures r == Idle || r == Checking
    ensures r == Checking <==> ValidUsername(username)
    ensures Utf16Length(username) < 3 ==> r == Idle
  {
    if username == [] || Utf16Length(username) < 3 then Idle
    else if !ValidUsername(username) then Idle
    else Checking
  }

  /** The step-0 checks of `handleSubmit`, in order. */
  function StepZeroCheck(username: string, status: UsernameStatus): (r: Option<FormError>)
    ensures r.None? <==> ValidUsername(username) && status != Taken
    ensures r.Some? ==> r.value == UsernameMissing || r.value == UsernameFormat || r.value == UsernameTaken
    ensures r == Some(UsernameMissing) <==> IsBlank(username)
  {
    ValidUsernameNotBlank(username);
    if IsBlank(username) then Some(UsernameMissing)
    else if !ValidUsername(username) then Some(UsernameFormat)
    else if status == Taken then Some(UsernameTaken)
    else None
  }

  /** The step-1 checks of `handleSubmit`: a name that is not blank and, untrimmed, at most
      30 characters. */
  function StepOneCheck(displayName: string): (r: Option<FormError>)
    ensures r.None? <==> !IsBlank(displayName) && Utf16Length(displayName) <= MaxDisplayName
    ensures r.Some? ==> r.value == NameMissing || r.value == NameTooLong
  {
    if IsBlank(displayName) then Some(NameMissing)
    else if Utf16Length(displayName) > MaxDisplayName then Some(NameTooLong)
    else None
  }

  /** `validateForm`: the first failing check in the order name blank, name too long,
      username blank, username format, username taken, bio too long. */
  function ValidateForm(displayName: string, username: string, bio: string, status: UsernameStatus): (r: Option<FormError>)
    // the form is valid exactly when the name, the username, its status and the bio all are
    ensures r.None? <==>
      && !IsBlank(displayName) && Utf16Length(displayName) <= MaxDisplayName
      && ValidUsername(username) && status != Taken && Utf16Length(bio) <= MaxBio
  {
    ValidUsernameNotBlank(username);
    if IsBlank(displayName) then Some(NameMissing)
    else if Utf16Length(displayName) > MaxDisplayName then Some(NameTooLong)
    else if IsBlank(username) then Some(UsernameMissing)
    else if !ValidUsername(username) then Some(UsernameFormat)
    else if status == Taken then Some(UsernameTaken)
    else if Utf16Length(bio) > MaxBio then Some(BioTooLong)
    else None
  }

  /** The whole-form check repeats the two step checks, name first, and adds the bio limit;
      every failure it reports is the one the step check would report. */
  lemma ValidateFormIsStepChecks(displayName: string, username: string, bio: string, status: UsernameStatus)
    ensures ValidateForm(displayName, username, bio, status) ==
      if StepOneCheck(displayName).Some? then StepOneCheck(displayName)
      else if StepZeroCheck(username, status).Some? then StepZeroCheck(username, status)
      else if Utf16Length(bio) > MaxBio then Some(BioTooLong)
      else None
    ensures ValidateForm(displayName, username, bio, status).None? <==>
      StepOneCheck(displayName).None? && StepZeroCheck(username, status).None? && Utf16Length(bio) <= MaxBio
  {
  }

  /** Once both earlier steps have passed, the final check can only fail on a taken name
      or an over-long bio. */
  lemma FinalStepValidation(displayName: string, username: string, bio: string, status: UsernameStatus)
    requires ValidUsername(username) && StepOneCheck(displayName).None?
    ensures ValidateForm(displayName, username, bio, status).None? <==> status != Taken && Utf16Length(bio) <= MaxBio
    ensures ValidateForm(displayName, username, bio, status).Some? ==>
      ValidateForm(displayName, username, bio, status).value == (if status == Taken then UsernameTaken else BioTooLong)
  {
    ValidUsernameNotBlank(username);
  }

  /** The `disabled` expression of the submit button. */
  predicate SubmitDisabled(step: int, displayName: string, username: string, status: UsernameStatus, isSubmitting: bool)
    // no second submit while one runs
    ensures isSubmitting ==> SubmitDisabled(step, displayName, username, status, isSubmitting)
    // outside the name step, a pending or failed availability check blocks the button
    ensures step != 1 && (status == Checking || status == Taken) ==>
      SubmitDisabled(step, displayName, username, status, isSubmitting)
  {
    if step == 0 then
      IsBlank(username) || !ValidUsername(username) || status == Taken || status == Checking || isSubmitting
    else if step == 1 then
      IsBlank(displayName) || Utf16Length(displayName) > MaxDisplayName || isSubmitting
    else
      isSubmitting || status == Taken || status == Checking
  }

  /** The button is enabled at step 0 exactly when the step-0 check passes, no lookup is
      pending and nothing is being submitted, and at step 1 exactly when the step-1 check
      passes; so an enabled button always advances the step. */
  lemma SubmitEnabledAdvances(displayName: string, username: string, status: UsernameStatus, isSubmitting: bool)
    ensures !SubmitDisabled(0, displayName, username, status, isSubmitting) <==>
      StepZeroCheck(username, status).None? && status != Checking && !isSubmitting
    ensures !SubmitDisabled(1, displayName, username, status, isSubmitting) <==>
      StepOneCheck(displayName).None? && !isSubmitting
    ensures !SubmitDisabled(2, displayName, username, status, isSubmitting) ==> status != Taken && status != Checking
  {
    ValidUsernameNotBlank(username);
  }

  /** The effect that leaves the page for the map once a profile is known to exist. */
  predicate LeavesForMap(authLoading: bool, profileLoading: bool, profile: Option<Profile>)
    // never while either store is still loading, and only for an existing profile
    ensures authLoading || profileLoading ==> !LeavesForMap(authLoading, profileLoading, profile)
    ensures LeavesForMap(authLoading, profileLoading, profile) ==> profile.Some?
  {
    !authLoading && !profileLoading && profile.Some?
  }

  /** What a submit did. */
  datatype SubmitOutcome = Refused(reason: FormError) | Advanced | NoUser | CreateFailed(error: Error) | Created

  class OnboardingPage {
    var displayName: string
    var username: string
    var bio: string
    var isSubmitting: bool
    var usernameStatus: UsernameStatus
    var step: int
    /** The name the scheduled availability lookup will check; a new input replaces it. */
    var pendingLookup: Option<string>
    var navigation: Option<string>

    ghost predicate Valid()
      reads this
    {
      && 0 <= step <= 2
      // the input lower-cases every keystroke
      && Lower(username) == username
      && (usernameStatus == Idle <==> !ValidUsername(username))
      && (usernameStatus == Checking <==> pendingLookup.Some?)
      && (pendingLookup.Some? ==> pendingLookup.value == username)
      // a later step is reached only through the checks of the earlier ones
      && (step >= 1 ==> ValidUsername(username))
      && (step >= 2 ==> StepOneCheck(displayName).None?)
      && (step < 2 ==> !isSubmitting)
      // the only push is to the map, from a submit or from the profile effect
      && (navigation.Some? ==> navigation.value == MapPath)
    }

    constructor ()
      ensures Valid()
      ensures displayName == [] && username == [] && bio == []
      ensures !isSubmitting && usernameStatus == Idle && step == 0 && pendingLookup == None && navigation == None
    {
      displayName, username, bio := [], [], [];
      isSubmitting := false;
      usernameStatus := Idle;
      step := 0;
      pendingLookup := None;
      navigation := None;
    }

    /** The effect on `[authLoading, profileLoading, profile]`: once neither store is
        loading and a profile exists, the user already finished onboarding and is sent to
        the map; otherwise nothing happens. */
    method OnProfileState(authLoading: bool, profileLoading: bool, profile: Option<Profile>)
      requires Valid()
      modifies this
      ensures Valid()
      ensures navigation == if LeavesForMap(authLoading, profileLoading, profile) then Some(MapPath) else old(navigation)
      ensures && displayName == old(displayName) && username == old(username) && bio == old(bio)
              && isSubmitting == old(isSubmitting) && usernameStatus == old(usernameStatus)
              && step == old(step) && pendingLookup == old(pendingLookup)
    {
      if !authLoading && !profileLoading && profile.Some? {
        navigation := Some(MapPath);
      }
    }

    /** Typing in the username field (shown only at step 0): the value is lower-cased and,
        when it changed, the effect cancels the pending lookup and either sets idle or sets
        checking and schedules a lookup of the new name. */
    method OnUsernameInput(raw: string)
      requires Valid() && step == 0
      modifies this
      ensures Valid()
      ensures username == Lower(raw)
      ensures username != old(username) ==>
        && usernameStatus == StatusOnInput(username)
        && pendingLookup == (if ValidUsername(username) then Some(username) else None)
      ensures username == old(username) ==> usernameStatus == old(usernameStatus) && pendingLookup == old(pendingLookup)
      ensures displayName == old(displayName) && bio == old(bio) && step == old(step)
      ensures isSubmitting == old(isSubmitting) && navigation == old(navigation)
    {
      var next := Lower(raw);
      LowerKeepsUsername(raw);
      if next == username {
        return;
      }
      username := next;
      // cleanup of the previous run: the scheduled lookup is cancelled
      pendingLookup := None;
      if username == [] || Utf16Length(username) < 3 {
        usernameStatus := Idle;
        return;
      }
      if !ValidUsername(username) {
        usernameStatus := Idle;
        return;
      }
      usernameStatus := Checking;
      pendingLookup := Some(username);
    }

    /** The debounced lookup fires and its answer arrives. */
    method OnLookupResolved(rows: seq<Profile>, fault: Option<Error>)
      requires Valid() && pendingLookup.Some?
      modifies this
      ensures Valid()
      ensures pendingLookup == None
      ensures usernameStatus == if UsernameAvailable(rows, username, None, fault) then Available else Taken
      ensures username == old(username) && displayName == old(displayName) && bio == old(bio) && step == old(step)
      ensures isSubmitting == old(isSubmitting) && navigation == old(navigation)
    {
      var isAvailable := UsernameAvailable(rows, pendingLookup.value, None, fault);
      usernameStatus := if isAvailable then Available else Taken;
      pendingLookup := None;
    }

    /** Typing in the name field, shown only at step 1. */
    method OnDisplayNameInput(value: string)
      requires Valid() && step == 1
      modifies this
      ensures Valid()
      ensures displayName == value
      ensures username == old(username) && bio == old(bio) && step == old(step) && usernameStatus == old(usernameStatus)
      ensures pendingLookup == old(pendingLookup) && isSubmitting == old(isSubmitting) && navigation == old(navigation)
    {
      displayName := value;
    }

    /** Typing in the bio field, shown only at step 2 and disabled while submitting. */
    method OnBioInput(value: string)
      requires Valid() && step == 2 && !isSubmitting
      modifies this
      ensures Valid()
      ensures bio == value
      ensures username == old(username) && displayName == old(displayName) && step == old(step) && usernameStatus == old(usernameStatus)
      ensures pendingLookup == old(pendingLookup) && isSubmitting == old(isSubmitting) && navigation == old(navigation)
    {
      bio := value;
    }

    /** `handleSubmit`. Steps 0 and 1 advance when their check passes; step 2 needs a user
        and a valid form, then creates the profile with the lower-cased username and the
        trimmed name and bio, and leaves for the map or, on an error, re-enables the form. */
    method HandleSubmit(user: Option<string>, store: ProfileStore, db: Db, newId: string, now: nat, fault: Option<Error>)
      returns (out: SubmitOutcome)
      requires Valid()
      modifies this, store, db
      ensures Valid()
      ensures old(step) <= step
      ensures username == old(username) && displayName == old(displayName) && bio == old(bio)
      ensures usernameStatus == old(usernameStatus) && pendingLookup == old(pendingLookup)
      ensures db.storage == old(db.storage) && db.follows == old(db.follows)
      ensures out != Created ==> db.profiles == old(db.profiles) && store.profile == old(store.profile)
      ensures old(step) == 0 ==>
        && out == (if StepZeroCheck(username, usernameStatus).None? then Advanced else Refused(StepZeroCheck(username, usernameStatus).value))
        && step == (if out == Advanced then 1 else 0)
        && isSubmitting == old(isSubmitting) && navigation == old(navigation)
      ensures old(step) == 1 ==>
        && out == (if StepOneCheck(displayName).None? then Advanced else Refused(StepOneCheck(displayName).value))
        && step == (if out == Advanced then 2 else 1)
        && isSubmitting == old(isSubmitting) && navigation == old(navigation)
      ensures old(step) == 2 ==> step == 2
      ensures old(step) == 2 && user.None? ==> out == NoUser && isSubmitting == old(isSubmitting) && navigation == old(navigation)
      ensures old(step) == 2 && user.Some? && ValidateForm(displayName, username, bio, usernameStatus).Some? ==>
        && out == Refused(ValidateForm(displayName, username, bio, usernameStatus).value)
        && isSubmitting == old(isSubmitting) && navigation == old(navigation)
      ensures old(step) == 2 && user.Some? && ValidateForm(displayName, username, bio, usernameStatus).None? ==>
        && (out == Created <==> fault.None? && !HasRow(old(db.profiles), newId))
        && (out == Created ==>
              && db.profiles == old(db.profiles) + [NewRow(newId, user.value, username, Trim(displayName), Some(Trim(bio)), now)]
              && store.profile == Some(NewRow(newId, user.value, username, Trim(displayName), Some(Trim(bio)), now))
              && isSubmitting && navigation == Some(MapPath))
        && (out != Created ==> out.CreateFailed? && !isSubmitting && navigation == old(navigation))
    {
      if step == 0 {
        var check := StepZeroCheck(username, usernameStatus);
        if check.Some? {
          return Refused(check.value);
        }
        step := 1;
        return Advanced;
      } else if step == 1 {
        var check := StepOneCheck(displayName);
        if check.Some? {
          return Refused(check.value);
        }
        step := 2;
        return Advanced;
      }
      if user.None? {
        return NoUser;
      }
      var invalid := ValidateForm(displayName, username, bio, usernameStatus);
      if invalid.Some? {
        return Refused(invalid.value);
      }
      out := CreateAndLeave(user.value, store, db, newId, now, fault);
    }

    /** The last part of `handleSubmit` at step 2, once the user and the form are known
        good: create the profile and leave for the map, or re-enable the form. */
    method CreateAndLeave(userId: string, store: ProfileStore, db: Db, newId: string, now: nat, fault: Option<Error>)
      returns (out: SubmitOutcome)
      requires Valid() && step == 2
      modifies this, store, db
      ensures Valid()
      ensures step == 2
      ensures username == old(username) && displayName == old(displayName) && bio == old(bio)
      ensures usernameStatus == old(usernameStatus) && pendingLookup == old(pendingLookup)
      ensures db.storage == old(db.storage) && db.follows == old(db.follows)
      ensures out == Created <==> fault.None? && !HasRow(old(db.profiles), newId)
      ensures out == Created ==>
        && db.profiles == old(db.profiles) + [NewRow(newId, userId, username, Trim(displayName), Some(Trim(bio)), now)]
        && store.profile == Some(NewRow(newId, userId, username, Trim(displayName), Some(Trim(bio)), now))
        && isSubmitting && navigation == Some(MapPath)
      ensures out != Created ==>
        && out.CreateFailed? && !isSubmitting && navigation == old(navigation)
        && db.profiles == old(db.profiles) && store.profile == old(store.profile)
    {
      var name, shown, about := Lower(username), Trim(displayName), Trim(bio);
      assert name == username;
      isSubmitting := true;
      var err := store.CreateProfile(db, userId, name, shown, Some(about), newId, now, fault);
      assert Valid();
      if err.Some? {
        isSubmitting := false;
        out := CreateFailed(err.value);
      } else {
        navigation := Some(MapPath);
        out := Created;
      }
    }
  }
}
