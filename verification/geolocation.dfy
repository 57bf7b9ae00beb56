/** The geolocation hook: the permission state, the last position and error, and the one
    position watch it may hold. The browser's geolocation and permissions services are
    outside the model; their answers arrive as method calls, and the watches they hold are
    tracked by handle in `liveWatches`. */
module Geolocation {
  import opened Common

  datatype Permission = Unknown | Granted | Prompt | Denied

  /** A position: only the accuracy and the timestamp matter to the model. */
  datatype Loc = Loc(accuracy: Option<real>, timestamp: int)

  /** The error code of a refused permission. */
  const PermissionDeniedCode: nat := 1
  const DefaultErrorMessage: string := "위치 정보를 가져오지 못했어요."
  const UnsupportedMessage: string := "이 브라우저는 위치 기능을 지원하지 않습니다."

  /** The permission after the permissions query: its state, or unknown when the query fails
      (`None`). */
  function QueriedPermission(result: Option<Permission>): (r: Permission)
    ensures result.Some? ==> r == result.value
    ensures result.None? ==> r == Unknown
  {
    if result.Some? then result.value else Unknown
  }

  /** `err.message || default`: the message shown is never empty. */
  function ErrorMessage(message: string): (r: string)
    ensures r != ""
    ensures message != "" ==> r == message
    ensures message == "" ==> r == DefaultErrorMessage
  {
    if message != "" then message else DefaultErrorMessage
  }

  /** The permission after a position error: denied for a refusal, unchanged otherwise. */
  function PermissionAfterError(p: Permission, code: nat): (r: Permission)
    ensures code == PermissionDeniedCode ==> r == Denied
    ensures code != PermissionDeniedCode ==> r == p
  {
    if code == PermissionDeniedCode then Denied else p
  }

  class GeolocationHook {
    /** Whether the browser has `navigator.geolocation`. */
    const supported: bool
    var permission: Permission
    var loc: Option<Loc>
    var error: Option<string>
    /** `watchIdRef.current`. */
    var watchId: Option<nat>
    var liveWatches: set<nat>
    var nextWatch: nat
    /** One-shot position requests issued. */
    var positionRequests: nat
    /** The `mounted` flag of the permission-query effect. */
    var mounted: bool

    /** At most one watch is registered, and it is the one the hook holds; an error shown is
        never empty. */
    ghost predicate Valid()
      reads this
    {
      && liveWatches == (if watchId.Some? then {watchId.value} else {})
      && (watchId.Some? ==> supported && watchId.value < nextWatch)
      && (error.Some? ==> error.value != "")
    }

    constructor (supported: bool)
      ensures Valid()
      ensures this.supported == supported
      ensures permission == Unknown && loc == None && error == None
      ensures watchId == None && liveWatches == {} && positionRequests == 0 && mounted
    {
      this.supported := supported;
      permission := Unknown;
      loc := None;
      error := None;
      watchId := None;
      liveWatches := {};
      nextWatch := 0;
      positionRequests := 0;
      mounted := true;
    }

    /** The answer of the permissions query, or its failure (`None`); ignored once the
        effect is cleaned up. Without a permissions API the effect sets unknown, which is
        this call with `None`. */
    method OnPermissionQuery(result: Option<Permission>)
      requires Valid()
      modifies this
      ensures Valid()
      ensures mounted ==> permission == QueriedPermission(result)
      ensures !mounted ==> permission == old(permission)
      ensures loc == old(loc) && error == old(error) && watchId == old(watchId) && liveWatches == old(liveWatches)
      ensures mounted == old(mounted) && positionRequests == old(positionRequests)
    {
      if mounted {
        permission := QueriedPermission(result);
      }
    }

    /** The cleanup of the permission-query effect. */
    method UnmountQuery()
      requires Valid()
      modifies this
      ensures Valid()
      ensures !mounted
      ensures permission == old(permission) && loc == old(loc) && error == old(error)
      ensures watchId == old(watchId) && liveWatches == old(liveWatches)
    {
      mounted := false;
    }

    /** `handlePosition`: the position is stored and the permission is granted. */
    method HandlePosition(p: Loc)
      requires Valid()
      modifies this
      ensures Valid()
      ensures loc == Some(p) && permission == Granted
      ensures error == old(error) && watchId == old(watchId) && liveWatches == old(liveWatches)
      ensures positionRequests == old(positionRequests)
    {
      loc := Some(p);
      permission := Granted;
    }

    /** `handleError`: a refusal denies the permission; every error sets a message. */
    method HandleError(code: nat, message: string)
      requires Valid()
      modifies this
      ensures Valid()
      ensures permission == PermissionAfterError(old(permission), code)
      ensures error == Some(ErrorMessage(message))
      ensures loc == old(loc) && watchId == old(watchId) && liveWatches == old(liveWatches)
      ensures positionRequests == old(positionRequests)
    {
      if code == PermissionDeniedCode {
        permission := Denied;
      }
      error := Some(ErrorMessage(message));
    }

    /** `requestPermission`: without geolocation support only an error; otherwise the
        error is cleared and one position request is issued. */
    method RequestPermission()
      requires Valid()
      modifies this
      ensures Valid()
      ensures !supported ==> error == Some(UnsupportedMessage) && positionRequests == old(positionRequests)
      ensures supported ==> error == None && positionRequests == old(positionRequests) + 1
      ensures permission == old(permission) && loc == old(loc)
      ensures watchId == old(watchId) && liveWatches == old(liveWatches)
    {
      if !supported {
        error := Some(UnsupportedMessage);
        return;
      }
      error := None;
      positionRequests := positionRequests + 1;
    }

    /** `startWatch`: the held watch, if any, is cleared before a new one is registered, so
        afterwards exactly the new watch is live. */
    method StartWatch()
      requires Valid()
      modifies this
      ensures Valid()
      ensures !supported ==>
        error == Some(UnsupportedMessage) && watchId == old(watchId) && liveWatches == old(liveWatches)
      ensures supported ==>
        && error == None
        && watchId == Some(old(nextWatch)) && liveWatches == {old(nextWatch)}
        && (old(watchId).Some? ==> old(watchId.value) !in liveWatches)
      ensures |liveWatches| <= 1
      ensures permission == old(permission) && loc == old(loc) && positionRequests == old(positionRequests)
    {
      if !supported {
        error := Some(UnsupportedMessage);
        return;
      }
      if watchId.Some? {
        liveWatches := liveWatches - {watchId.value};
        watchId := None;
      }
      error := None;
      var id := nextWatch;
      nextWatch := nextWatch + 1;
      liveWatches := liveWatches + {id};
      watchId := Some(id);
    }

    /** `stopWatch`: the held watch is cleared; without one nothing happens. */
    method StopWatch()
      requires Valid()
      modifies this
      ensures Valid()
      ensures watchId == None && liveWatches == {}
      ensures old(watchId).None? ==> nextWatch == old(nextWatch)
      ensures permission == old(permission) && loc == old(loc) && error == old(error)
      ensures positionRequests == old(positionRequests)
    {
      if watchId.Some? {
        liveWatches := liveWatches - {watchId.value};
        watchId := None;
      }
    }
  }
}
