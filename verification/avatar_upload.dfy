/** The profile-image library: the deterministic storage key, the raw upload's success test
    and progress reporting, the upload pipeline (pre-clear, upload, commit the URL to the
    profile row, roll back storage when the commit fails) and the delete pipeline. */
module AvatarUpload {
  import opened Common
  import opened Backend

  const AvatarSuffix: string := "/avatar.webp"

  /** The storage key of a profile's avatar: `<profileId>/avatar.webp`. */
  function AvatarKey(profileId: string): (r: string)
    ensures |r| == |profileId| + |AvatarSuffix|
    ensures r[..|profileId|] == profileId && r[|profileId|..] == AvatarSuffix
  {
    profileId + AvatarSuffix
  }

  /** Distinct profiles never share an avatar object. */
  lemma AvatarKeyInjective(a: string, b: string)
    ensures AvatarKey(a) == AvatarKey(b) <==> a == b
  {
    if AvatarKey(a) == AvatarKey(b) {
      assert |a| == |b|;
      assert a == AvatarKey(a)[..|a|];
      assert b == AvatarKey(b)[..|b|];
    }
  }

  // ---------------------------------------------------------------------------
  // The raw upload request

  /** How the upload request ended: a response with a status code, a network error, or an
      abort. */
  datatype XhrOutcome = Loaded(status: int) | NetworkError | Aborted

  /** The load handler's test: 200 OK (an upsert over an existing object) or 201 Created
      resolve the upload; every other outcome rejects it. */
  predicate UploadAccepted(x: XhrOutcome) {
    x.Loaded? && (x.status == 200 || x.status == 201)
  }

  /** An upload progress event. XMLHttpRequest marks an event length-computable exactly
      when the total it reports is non-zero. */
  datatype ProgressEvent = ProgressEvent(lengthComputable: bool, loaded: nat, total: nat)

  predicate WellFormedEvent(e: ProgressEvent) {
    e.lengthComputable ==> e.total > 0
  }

  /** The value handed to the progress callback, `Math.round(loaded / total * 100)` taken on
      the exact quotient rather than in doubles, or nothing when the event is not
      length-computable. */
  function ReportedProgress(e: ProgressEvent): (r: Option<int>)
    requires WellFormedEvent(e)
    ensures r.Some? <==> e.lengthComputable
    // r is 100 * loaded / total rounded to the nearest integer, halves rounding up
    ensures r.Some? ==> e.total * (2 * r.value - 1) <= 200 * e.loaded < e.total * (2 * r.value + 1)
  {
    if e.lengthComputable then Some((200 * e.loaded + e.total) / (2 * e.total)) else None
  }

  lemma MulMono(t: int, x: int, y: int)
    requires t >= 0
    ensures x <= y ==> t * x <= t * y
  {
    if x <= y {
      assert t * y - t * x == t * (y - x);
    }
  }

  lemma ReportedProgressBounds(e: ProgressEvent)
    requires WellFormedEvent(e) && e.lengthComputable && e.loaded <= e.total
    ensures 0 <= ReportedProgress(e).value <= 100
    ensures e.loaded == e.total ==> ReportedProgress(e).value == 100
  {
    var r, t := ReportedProgress(e).value, e.total;
    MulMono(t, 2 * r + 1, -1);
    MulMono(t, 201, 2 * r - 1);
    MulMono(t, 2 * r + 1, 199);
  }

  lemma ReportedProgressMonotone(e1: ProgressEvent, e2: ProgressEvent)
    requires WellFormedEvent(e1) && WellFormedEvent(e2) && e1.lengthComputable && e2.lengthComputable
    requires e1.total == e2.total && e1.loaded <= e2.loaded
    ensures ReportedProgress(e1).value <= ReportedProgress(e2).value
  {
    var r1, r2, t := ReportedProgress(e1).value, ReportedProgress(e2).value, e1.total;
    MulMono(t, 2 * r2 + 1, 2 * r1 - 1);
  }

  /** The values the upload progress callback receives for a sequence of events. */
  function ReportedTrace(events: seq<ProgressEvent>): seq<int>
    requires forall i :: 0 <= i < |events| ==> WellFormedEvent(events[i])
  {
    if |events| == 0 then []
    else
      var rest := ReportedTrace(events[1..]);
      match ReportedProgress(events[0])
      case Some(p) => [p] + rest
      case None => rest
  }

  /** The events of one upload: one total, a loaded count that never falls or exceeds it. */
  predicate OneUpload(events: seq<ProgressEvent>, total: nat) {
    && total > 0
    && (forall i :: 0 <= i < |events| ==> events[i].total == total && events[i].loaded <= total)
    && (forall i, j :: 0 <= i < j < |events| ==> events[i].loaded <= events[j].loaded)
  }

  predicate NonDecreasing(s: seq<int>) {
    forall i, j :: 0 <= i < j < |s| ==> s[i] <= s[j]
  }

  /** For one upload the reported progress stays within 0..100 and never decreases; when
      the last computable event has everything loaded, the last value reported is 100. */
  lemma {:induction false} ReportedTraceProgresses(events: seq<ProgressEvent>, total: nat)
    requires OneUpload(events, total)
    ensures forall i :: 0 <= i < |events| ==> WellFormedEvent(events[i])
    ensures NonDecreasing(ReportedTrace(events))
    ensures forall i :: 0 <= i < |ReportedTrace(events)| ==> 0 <= ReportedTrace(events)[i] <= 100
    ensures |events| > 0 && events[|events| - 1].lengthComputable && events[|events| - 1].loaded == total
            ==> |ReportedTrace(events)| > 0 && ReportedTrace(events)[|ReportedTrace(events)| - 1] == 100
  {
    if |events| > 0 {
      var tail := events[1..];
      assert OneUpload(tail, total);
      ReportedTraceProgresses(tail, total);
      var rest := ReportedTrace(tail);
      if |events| > 1 {
        assert tail[|tail| - 1] == events[|events| - 1];
      }
      if events[0].lengthComputable {
        var p := ReportedProgress(events[0]).value;
        ReportedProgressBounds(events[0]);
        forall k | 0 <= k < |rest| ensures p <= rest[k] {
          var j := TraceSource(tail, k);
          ReportedProgressMonotone(events[0], tail[j]);
        }
      }
    }
  }

  /** Every reported value comes from a length-computable event of the sequence. */
  lemma {:induction false} TraceSource(events: seq<ProgressEvent>, k: nat) returns (j: nat)
    requires forall i :: 0 <= i < |events| ==> WellFormedEvent(events[i])
    requires k < |ReportedTrace(events)|
    ensures j < |events| && events[j].lengthComputable
    ensures ReportedTrace(events)[k] == ReportedProgress(events[j]).value
  {
    var rest := ReportedTrace(events[1..]);
    if events[0].lengthComputable {
      if k == 0 {
        j := 0;
      } else {
        var j' := TraceSource(events[1..], k - 1);
        j := j' + 1;
      }
    } else {
      var j' := TraceSource(events[1..], k);
      j := j' + 1;
    }
  }

  // ---------------------------------------------------------------------------
  // The upload and delete pipelines

  /** The backend state the pipelines read and write. */
  datatype Store = Store(profiles: seq<Profile>, storage: map<string, Blob>)

  datatype UploadError =
    | CompressionFailed
    | NotSignedIn
    | UploadRejected(outcome: XhrOutcome)
    | DbWriteFailed(error: Error)

  /** What the environment answers to each call the upload pipeline makes. */
  datatype UploadEnv = UploadEnv(
    compressed: Option<Blob>,      // output of the compression library; None when it rejects
    accessToken: Option<string>,   // the session's access token
    preClearFault: Option<Error>,  // outcome of the best-effort remove before the upload
    xhr: XhrOutcome,               // how the upload request ended
    publicUrlPrefix: string,       // the bucket's public URL of a key is this prefix + key
    now: nat,                      // the clock, in milliseconds
    dbFault: Option<Error>,        // outcome of the profile_image update
    rollbackFault: Option<Error>)  // outcome of the compensating remove

  /** `if (!token) throw`: an absent or empty token means nobody is signed in. */
  predicate HasToken(token: Option<string>) {
    token.Some? && token.value != ""
  }

  /** The public URL of the key followed by the cache-busting `?t=<timestamp>`. */
  function CacheBustedUrl(prefix: string, key: string, now: nat): (r: string)
    // the public URL of the key, then a `t` parameter holding the timestamp's decimal digits
    ensures |r| > |prefix + key + "?t="|
    ensures r[..|prefix + key + "?t="|] == prefix + key + "?t="
    ensures forall i :: |prefix + key + "?t="| <= i < |r| ==> '0' <= r[i] <= '9'
  {
    prefix + key + "?t=" + NatToString(now)
  }

  /** A profile row references an avatar exactly when the avatar object exists. */
  predicate AvatarConsistent(s: Store, profileId: string) {
    ImageOf(s.profiles, profileId).Some? <==> AvatarKey(profileId) in s.storage
  }

  /** `uploadProfileImage` as written: the new store and the resolved URL or the error. */
  function Upload(s: Store, profileId: string, env: UploadEnv): (out: (Store, Result<string, UploadError>))
    // without a compressed file or a token nothing in the backend is touched
    ensures env.compressed.None? || !HasToken(env.accessToken) ==> out.0 == s && out.1.Failure?
    ensures out.1.Success? <==>
      env.compressed.Some? && HasToken(env.accessToken) && UploadAccepted(env.xhr) && env.dbFault.None?
    // on success exactly one object sits at the key, holding the new bytes, and the row points at it
    ensures out.1.Success? ==>
      && out.1.value == CacheBustedUrl(env.publicUrlPrefix, AvatarKey(profileId), env.now)
      && out.0.storage == s.storage[AvatarKey(profileId) := env.compressed.value]
      && out.0.profiles == SetImage(s.profiles, profileId, Some(out.1.value))
    // a failed commit rethrows the database error, leaves the rows alone and removes the
    // uploaded object unless that remove fails too
    ensures env.compressed.Some? && HasToken(env.accessToken) && UploadAccepted(env.xhr) && env.dbFault.Some? ==>
      && out.1 == Failure(DbWriteFailed(env.dbFault.value))
      && out.0.profiles == s.profiles
      && (AvatarKey(profileId) in out.0.storage <==> env.rollbackFault.Some?)
    // no failure ever writes to the profiles table
    ensures out.1.Failure? ==> out.0.profiles == s.profiles
    // no other object is touched
    ensures out.0.storage - {AvatarKey(profileId)} == s.storage - {AvatarKey(profileId)}
  {
    var key := AvatarKey(profileId);
    if env.compressed.None? then (s, Failure(CompressionFailed))
    else if !HasToken(env.accessToken) then (s, Failure(NotSignedIn))
    else
      var cleared := if env.preClearFault.None? then s.storage - {key} else s.storage;
      if !UploadAccepted(env.xhr) then (s.(storage := cleared), Failure(UploadRejected(env.xhr)))
      else
        var uploaded := cleared[key := env.compressed.value];
        var url := CacheBustedUrl(env.publicUrlPrefix, key, env.now);
        if env.dbFault.Some? then
          var rolledBack := if env.rollbackFault.None? then uploaded - {key} else uploaded;
          (s.(storage := rolledBack), Failure(DbWriteFailed(env.dbFault.value)))
        else
          (Store(SetImage(s.profiles, profileId, Some(url)), uploaded), Success(url))
  }

  /** A successful upload leaves row and storage consistent for a profile that has a row. */
  lemma UploadSuccessConsistent(s: Store, profileId: string, env: UploadEnv)
    requires HasRow(s.profiles, profileId)
    requires Upload(s, profileId, env).1.Success?
    ensures AvatarConsistent(Upload(s, profileId, env).0, profileId)
    ensures ImageOf(Upload(s, profileId, env).0.profiles, profileId) == Some(Upload(s, profileId, env).1.value)
  {
    var out := Upload(s, profileId, env);
    ImageOfSetImage(s.profiles, profileId, Some(out.1.value));
  }

  /** Uploading twice for one profile leaves one object at the key, holding the second
      upload's bytes, and adds no other object: overwrite, not accumulation. */
  lemma UploadTwiceOneObject(s: Store, profileId: string, env1: UploadEnv, env2: UploadEnv)
    requires Upload(s, profileId, env1).1.Success?
    requires Upload(Upload(s, profileId, env1).0, profileId, env2).1.Success?
    ensures var s2 := Upload(Upload(s, profileId, env1).0, profileId, env2).0;
      && s2.storage.Keys == s.storage.Keys + {AvatarKey(profileId)}
      && s2.storage[AvatarKey(profileId)] == env2.compressed.value
  {
  }

  /** The pre-clear makes a failed upload destroy the current avatar: when the profile had an
      image, row and storage were consistent, the token was present and the pre-clear
      succeeded, a rejected upload leaves the row pointing at an object that no longer exists. */
  lemma PreClearThenRejectedUploadDangles(s: Store, profileId: string, env: UploadEnv)
    requires AvatarConsistent(s, profileId) && ImageOf(s.profiles, profileId).Some?
    requires env.compressed.Some? && HasToken(env.accessToken) && env.preClearFault.None?
    requires !UploadAccepted(env.xhr)
    ensures Upload(s, profileId, env).1.Failure?
    ensures ImageOf(Upload(s, profileId, env).0.profiles, profileId) == ImageOf(s.profiles, profileId)
    ensures !AvatarConsistent(Upload(s, profileId, env).0, profileId)
  {
  }

  /** A concrete instance: profile p1 with a stored avatar, a network error during the new upload. */
  lemma PreClearDanglingExample()
    ensures
      var p := Profile("p1", "u1", "alice", "Alice", "", Some("https://cdn/p1/avatar.webp?t=1"), false, 1, 1);
      var s := Store([p], map[AvatarKey("p1") := [1 as bv8]]);
      var env := UploadEnv(Some([2 as bv8]), Some("token"), None, NetworkError, "https://cdn/", 2, None, None);
      AvatarConsistent(s, "p1") && !AvatarConsistent(Upload(s, "p1", env).0, "p1")
  {
    var p := Profile("p1", "u1", "alice", "Alice", "", Some("https://cdn/p1/avatar.webp?t=1"), false, 1, 1);
    var s := Store([p], map[AvatarKey("p1") := [1 as bv8]]);
    var env := UploadEnv(Some([2 as bv8]), Some("token"), None, NetworkError, "https://cdn/", 2, None, None);
    PreClearThenRejectedUploadDangles(s, "p1", env);
  }

  /** The pipeline without the pre-clear: the upload is an upsert (`x-upsert: true`), so the
      remove before it is not needed for overwriting. */
  function UploadNoPreclear(s: Store, profileId: string, env: UploadEnv): (out: (Store, Result<string, UploadError>))
    // a rejected upload leaves the backend exactly as it was
    ensures !UploadAccepted(env.xhr) ==> out.0 == s && out.1.Failure?
    // it succeeds exactly when the original does, with the same URL and the same new state
    ensures out.1.Success? <==> Upload(s, profileId, env).1.Success?
    ensures out.1.Success? ==> out == Upload(s, profileId, env)
  {
    var key := AvatarKey(profileId);
    if env.compressed.None? then (s, Failure(CompressionFailed))
    else if !HasToken(env.accessToken) then (s, Failure(NotSignedIn))
    else if !UploadAccepted(env.xhr) then (s, Failure(UploadRejected(env.xhr)))
    else
      var uploaded := s.storage[key := env.compressed.value];
      var url := CacheBustedUrl(env.publicUrlPrefix, key, env.now);
      if env.dbFault.Some? then
        var rolledBack := if env.rollbackFault.None? then uploaded - {key} else uploaded;
        (s.(storage := rolledBack), Failure(DbWriteFailed(env.dbFault.value)))
      else
        (Store(SetImage(s.profiles, profileId, Some(url)), uploaded), Success(url))
  }

  /** Without the pre-clear, every run whose database write does not fail keeps row and
      storage consistent for a profile that has a row. */
  lemma NoPreclearKeepsAvatarConsistent(s: Store, profileId: string, env: UploadEnv)
    requires HasRow(s.profiles, profileId) && AvatarConsistent(s, profileId)
    requires env.dbFault.None?
    ensures AvatarConsistent(UploadNoPreclear(s, profileId, env).0, profileId)
  {
    if UploadNoPreclear(s, profileId, env).1.Success? {
      UploadSuccessConsistent(s, profileId, env);
    }
  }

  /** When the database write fails, both pipelines leave the row as it was and run the
      compensating remove of the key, which the upsert has just overwritten. Row and storage
      then agree exactly when the row had no image and the remove succeeded, or the row had
      an image and the remove failed: a failed write on a profile with an avatar and a
      working remove leaves the row pointing at a removed object. */
  lemma DbFailureConsistency(s: Store, profileId: string, env: UploadEnv)
    requires env.compressed.Some? && HasToken(env.accessToken) && UploadAccepted(env.xhr)
    requires env.dbFault.Some?
    ensures AvatarConsistent(Upload(s, profileId, env).0, profileId) <==>
      (ImageOf(s.profiles, profileId).Some? <==> env.rollbackFault.Some?)
    ensures AvatarConsistent(UploadNoPreclear(s, profileId, env).0, profileId) <==>
      (ImageOf(s.profiles, profileId).Some? <==> env.rollbackFault.Some?)
  {
  }

  /** `deleteProfileImage`: remove the object, then null the row's image; a storage error
      stops before the database is written. */
  function DeleteImage(s: Store, profileId: string, storageFault: Option<Error>, dbFault: Option<Error>)
    : (out: (Store, Result<(), Error>))
    ensures storageFault.Some? ==> out == (s, Failure(storageFault.value))
    ensures storageFault.None? ==> out.0.storage == s.storage - {AvatarKey(profileId)}
    ensures storageFault.None? && dbFault.Some? ==> out.0.profiles == s.profiles && out.1 == Failure(dbFault.value)
    ensures out.1.Success? <==> storageFault.None? && dbFault.None?
    ensures out.1.Success? ==> out.0.profiles == SetImage(s.profiles, profileId, None)
  {
    var key := AvatarKey(profileId);
    if storageFault.Some? then (s, Failure(storageFault.value))
    else
      var removed := s.storage - {key};
      if dbFault.Some? then (s.(storage := removed), Failure(dbFault.value))
      else (Store(SetImage(s.profiles, profileId, None), removed), Success(()))
  }

  /** After a full delete the key holds no object, the row's image is null, and the two agree. */
  lemma DeleteSuccessClears(s: Store, profileId: string)
    ensures var out := DeleteImage(s, profileId, None, None);
      && AvatarKey(profileId) !in out.0.storage
      && ImageOf(out.0.profiles, profileId) == None
      && AvatarConsistent(out.0, profileId)
  {
    ImageOfSetImage(s.profiles, profileId, None);
  }

  /** When the object is removed but nulling the row fails, row and storage agree exactly
      when the row had no image to begin with. */
  lemma DeleteDbFailureConsistency(s: Store, profileId: string, e: Error)
    ensures AvatarConsistent(DeleteImage(s, profileId, None, Some(e)).0, profileId) <==>
      ImageOf(s.profiles, profileId).None?
  {
  }

  // ---------------------------------------------------------------------------
  // The pipelines as the step-by-step sequences the library runs against the backend

  /** The upload pipeline, in its corrected form: the upsert replaces the object, so no
      remove runs before it. */
  method UploadProfileImage(db: Db, profileId: string, env: UploadEnv) returns (r: Result<string, UploadError>)
    modifies db
    ensures (Store(db.profiles, db.storage), r) == UploadNoPreclear(Store(old(db.profiles), old(db.storage)), profileId, env)
    ensures db.follows == old(db.follows)
  {
    // 1. compression
    if env.compressed.None? {
      return Failure(CompressionFailed);
    }
    var compressed := env.compressed.value;
    // 2. key and credentials
    var key := AvatarKey(profileId);
    if !HasToken(env.accessToken) {
      return Failure(NotSignedIn);
    }
    if !UploadAccepted(env.xhr) {
      return Failure(UploadRejected(env.xhr));
    }
    db.storage := db.storage[key := compressed];
    // 3. public URL
    var url := CacheBustedUrl(env.publicUrlPrefix, key, env.now);
    // 4. commit to the profile row, rolling storage back when that fails
    if env.dbFault.Some? {
      if env.rollbackFault.None? {
        db.storage := db.storage - {key};
      }
      return Failure(DbWriteFailed(env.dbFault.value));
    }
    db.profiles := SetImage(db.profiles, profileId, Some(url));
    return Success(url);
  }

  /** The delete pipeline. */
  method DeleteProfileImage(db: Db, profileId: string, storageFault: Option<Error>, dbFault: Option<Error>)
    returns (r: Result<(), Error>)
    modifies db
    ensures (Store(db.profiles, db.storage), r)
         == DeleteImage(Store(old(db.profiles), old(db.storage)), profileId, storageFault, dbFault)
    ensures db.follows == old(db.follows)
  {
    var key := AvatarKey(profileId);
    if storageFault.Some? {
      return Failure(storageFault.value);
    }
    db.storage := db.storage - {key};
    if dbFault.Some? {
      return Failure(dbFault.value);
    }
    db.profiles := SetImage(db.profiles, profileId, None);
    return Success(());
  }
}
