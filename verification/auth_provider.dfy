/** The provider that keeps the auth state in step with the auth service: it reads the
    current session once on mount, then follows every auth-state change until unmount. Each
    session it sees sets the user, ends auth loading, and either loads the profile of a
    confirmed user or clears the profile. */
module AuthProvider {
  import opened Common
  import opened Backend
  import ProfileStore

  /** `session?.user?.email_confirmed_at`: a profile is loaded only for a confirmed user. */
  predicate LoadsProfile(session: Option<AuthUser>)
    // no profile is fetched without a session or for an unconfirmed address
    ensures session.None? ==> !LoadsProfile(session)
    ensures session.Some? ==> (LoadsProfile(session) <==> session.value.confirmed)
  {
    session.Some? && session.value.confirmed
  }

  /** The profile the store holds once a session has been handled: the user's earliest
      profile row when the user is confirmed and the lookup succeeds, none otherwise. */
  function ProfileAfterSession(session: Option<AuthUser>, rows: seq<Profile>, fault: Option<Error>): (r: Option<Profile>)
    ensures r.Some? ==> LoadsProfile(session) && r.value in rows && r.value.userId == session.value.id
    ensures r.None? <==>
      || !LoadsProfile(session) || fault.Some?
      || (forall i :: 0 <= i < |rows| ==> rows[i].userId != session.value.id)
  {
    if LoadsProfile(session) && fault.None? then ProfileStore.EarliestOfUser(rows, session.value.id) else None
  }

  class AuthProvider {
    /** The auth store's `session`/`user` (one value: the user of the session) and `isLoading`. */
    var user: Option<AuthUser>
    var authLoading: bool
    /** Whether the auth-state subscription is live. */
    var subscribed: bool

    constructor ()
      ensures user == None && authLoading && !subscribed
    {
      user := None;
      authLoading := true;
      subscribed := false;
    }

    /** What `initializeAuth` and the auth-state listener both do with a session. */
    method HandleSession(session: Option<AuthUser>, store: ProfileStore.ProfileStore, db: Db, fault: Option<Error>)
      modifies this, store
      ensures user == session && !authLoading && subscribed == old(subscribed)
      ensures store.profile == ProfileAfterSession(session, db.profiles, fault)
      ensures !store.isLoading
      ensures store.profile.Some? ==> user.Some? && user.value.confirmed && store.profile.value.userId == user.value.id
    {
      user := session;
      authLoading := false;
      if LoadsProfile(session) {
        var _ := store.FetchProfile(db, session.value.id, fault);
      } else {
        store.SetProfile(None);
        store.SetIsLoading(false);
      }
    }

    /** Mounting handles the current session and subscribes to later changes. */
    method Mount(session: Option<AuthUser>, store: ProfileStore.ProfileStore, db: Db, fault: Option<Error>)
      modifies this, store
      ensures subscribed
      ensures user == session && !authLoading
      ensures store.profile == ProfileAfterSession(session, db.profiles, fault) && !store.isLoading
    {
      HandleSession(session, store, db, fault);
      subscribed := true;
    }

    /** The auth-state listener: called only while subscribed. */
    method OnAuthStateChange(session: Option<AuthUser>, store: ProfileStore.ProfileStore, db: Db, fault: Option<Error>)
      requires subscribed
      modifies this, store
      ensures subscribed
      ensures user == session && !authLoading
      ensures store.profile == ProfileAfterSession(session, db.profiles, fault) && !store.isLoading
    {
      HandleSession(session, store, db, fault);
    }

    /** The effect cleanup unsubscribes; the auth state is left as it was. */
    method Unmount()
      modifies this
      ensures !subscribed && user == old(user) && authLoading == old(authLoading)
    {
      subscribed := false;
    }
  }
}
