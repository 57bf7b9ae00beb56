/** The profile store: the signed-in user's profile and its loading flag, and the fetch,
    create, update, refresh and username-availability operations over the `profiles` table. */
module ProfileStore {
  import opened Common
  import opened Backend

  /** The code the backend returns when `.single()` finds no row. */
  const NotFoundCode: string := "PGRST116"
  /** The code of a primary-key violation on insert. */
  const UniqueViolationCode: string := "23505"

  /** `.eq('user_id', userId).order('created_at', { ascending: true }).limit(1).single()`:
      the user's earliest row; rows created at the same instant keep table order. */
  function EarliestOfUser(rows: seq<Profile>, userId: string): (r: Option<Profile>)
    ensures r.Some? ==> r.value in rows && r.value.userId == userId
    ensures r.Some? ==> forall i :: 0 <= i < |rows| && rows[i].userId == userId ==> r.value.createdAt <= rows[i].createdAt
    ensures r.None? <==> forall i :: 0 <= i < |rows| ==> rows[i].userId != userId
  {
    if |rows| == 0 then None
    else
      var rest := EarliestOfUser(rows[1..], userId);
      if rows[0].userId != userId then rest
      else if rest.Some? && rest.value.createdAt < rows[0].createdAt then rest
      else Some(rows[0])
  }

  /** The rows carrying the given username, in table order. */
  function Named(rows: seq<Profile>, username: string): (r: seq<Profile>)
    ensures forall p :: p in r <==> p in rows && p.username == username
  {
    if |rows| == 0 then []
    else if rows[0].username == username then [rows[0]] + Named(rows[1..], username)
    else Named(rows[1..], username)
  }

  /** `bio: data.bio || ''`: a missing or empty bio is stored as the empty string. */
  function BioOrEmpty(bio: Option<string>): string {
    if bio.Some? then bio.value else ""
  }

  /** The row the insert of `createProfile` writes; the backend assigns the id and the
      timestamps and leaves the image null and the account public. */
  function NewRow(id: string, userId: string, username: string, displayName: string, bio: Option<string>, now: nat): (r: Profile)
    ensures r.id == id && r.userId == userId && r.username == username && r.displayName == displayName
    ensures bio.Some? ==> r.bio == bio.value
    ensures bio.None? ==> r.bio == ""
    // a fresh row: no image, public, created and updated at the same instant
    ensures r.profileImage.None? && !r.isPrivate && r.createdAt == now && r.updatedAt == now
  {
    Profile(id, userId, username, displayName, BioOrEmpty(bio), None, false, now, now)
  }

  /** The fields `updateProfile` may change; `None` is an undefined field. */
  datatype ProfilePatch = ProfilePatch(username: Option<string>, displayName: Option<string>, bio: Option<string>)

  datatype Column = UsernameColumn | DisplayNameColumn | BioColumn

  function PatchField(data: ProfilePatch, c: Column): Option<string> {
    match c
    case UsernameColumn => data.username
    case DisplayNameColumn => data.displayName
    case BioColumn => data.bio
  }

  /** Applies an update to one row: the listed columns get their new values, every other
      column (id, owner, image, privacy, timestamps) keeps its value. */
  function ApplyUpdate(row: Profile, u: map<Column, string>): (r: Profile)
    ensures r.id == row.id && r.userId == row.userId && r.profileImage == row.profileImage
    ensures r.isPrivate == row.isPrivate && r.createdAt == row.createdAt && r.updatedAt == row.updatedAt
    ensures r.username == (if UsernameColumn in u then u[UsernameColumn] else row.username)
    ensures r.displayName == (if DisplayNameColumn in u then u[DisplayNameColumn] else row.displayName)
    ensures r.bio == (if BioColumn in u then u[BioColumn] else row.bio)
  {
    row.(username := if UsernameColumn in u then u[UsernameColumn] else row.username,
         displayName := if DisplayNameColumn in u then u[DisplayNameColumn] else row.displayName,
         bio := if BioColumn in u then u[BioColumn] else row.bio)
  }

  /** `.update(u).eq('id', id)` over the table. */
  function UpdateRows(rows: seq<Profile>, id: string, u: map<Column, string>): (r: seq<Profile>)
    ensures |r| == |rows|
    ensures forall i :: 0 <= i < |rows| ==> r[i] == if rows[i].id == id then ApplyUpdate(rows[i], u) else rows[i]
  {
    seq(|rows|, i requires 0 <= i < |rows| => if rows[i].id == id then ApplyUpdate(rows[i], u) else rows[i])
  }

  /** `checkUsernameAvailable`: a `.maybeSingle()` lookup of the name. No row means
      available; one row means available only to its owner; a lookup error (including more
      than one row) means unavailable. */
  function UsernameAvailable(rows: seq<Profile>, username: string, currentUserId: Option<string>, fault: Option<Error>): (r: bool)
    // an available name is free or belongs to the asking user
    ensures r ==> fault.None?
    // two or more rows make `.maybeSingle()` fail, and a failed lookup means unavailable
    ensures |Named(rows, username)| > 1 ==> !r
    ensures r ==> forall p :: p in rows && p.username == username ==>
                    currentUserId.Some? && currentUserId.value != "" && p.userId == currentUserId.value
    // a free name is available whenever the lookup works
    ensures fault.None? && (forall p :: p in rows ==> p.username != username) ==> r
    // so is the asking user's own name, when it is the only row with that name
    ensures (&& fault.None? && |Named(rows, username)| == 1 && currentUserId.Some? && currentUserId.value != ""
             && Named(rows, username)[0].userId == currentUserId.value) ==> r
  {
    var m := Named(rows, username);
    assert |m| > 0 ==> m[0] in m;
    if fault.Some? then false
    else if |m| == 0 then true
    else if |m| > 1 then false
    else
      assert forall p :: p in rows && p.username == username ==> p == m[0];
      currentUserId.Some? && currentUserId.value != "" && m[0].userId == currentUserId.value
  }

  /** Creating a profile for a user without one makes it the profile a later fetch finds. */
  lemma FetchAfterCreate(rows: seq<Profile>, row: Profile)
    requires forall i :: 0 <= i < |rows| ==> rows[i].userId != row.userId
    ensures EarliestOfUser(rows + [row], row.userId) == Some(row)
  {
    var all := rows + [row];
    var r := EarliestOfUser(all, row.userId);
    assert all[|rows|] == row;
    assert forall p :: p in all && p.userId == row.userId ==> p == row by {
      forall p | p in all && p.userId == row.userId ensures p == row {
        var i :| 0 <= i < |all| && all[i] == p;
        if i < |rows| {
          assert rows[i] == p;
        }
      }
    }
  }

  class ProfileStore {
    var profile: Option<Profile>
    var isLoading: bool

    constructor ()
      ensures profile == None && isLoading
    {
      profile := None;
      isLoading := true;
    }

    method SetProfile(p: Option<Profile>)
      modifies this
      ensures profile == p && isLoading == old(isLoading)
    {
      profile := p;
    }

    method SetIsLoading(b: bool)
      modifies this
      ensures isLoading == b && profile == old(profile)
    {
      isLoading := b;
    }

    /** `fetchProfile`: the found row, or null on not-found and on any other error; always
        ends with loading off and returns what it stored. */
    method FetchProfile(db: Db, userId: string, fault: Option<Error>) returns (r: Option<Profile>)
      modifies this
      ensures r == profile && !isLoading
      ensures r == if fault.Some? then None else EarliestOfUser(db.profiles, userId)
    {
      isLoading := true;
      if fault.Some? {
        profile, isLoading := None, false;
        return None;
      }
      var found := EarliestOfUser(db.profiles, userId);
      if found.None? {
        // PGRST116: no profile yet
        profile, isLoading := None, false;
        return None;
      }
      profile, isLoading := found, false;
      return found;
    }

    /** `createProfile`: insert the row and store it; an error is returned and leaves store
        and table as they were. The insert fails on a backend error or when the id is taken. */
    method CreateProfile(db: Db, userId: string, username: string, displayName: string, bio: Option<string>,
                         newId: string, now: nat, fault: Option<Error>) returns (err: Option<Error>)
      modifies this, db
      ensures db.storage == old(db.storage) && db.follows == old(db.follows)
      ensures err.None? <==> fault.None? && !HasRow(old(db.profiles), newId)
      ensures err.None? ==>
        && db.profiles == old(db.profiles) + [NewRow(newId, userId, username, displayName, bio, now)]
        && profile == Some(NewRow(newId, userId, username, displayName, bio, now))
        && !isLoading
      ensures err.Some? ==> db.profiles == old(db.profiles) && profile == old(profile) && isLoading == old(isLoading)
    {
      if fault.Some? {
        return fault;
      }
      if HasRow(db.profiles, newId) {
        return Some(Error(UniqueViolationCode, "duplicate key value violates unique constraint"));
      }
      var row := NewRow(newId, userId, username, displayName, bio, now);
      db.profiles := db.profiles + [row];
      profile, isLoading := Some(row), false;
      return None;
    }

    /** `updateProfile`: copy the defined fields into the update, apply it to the row with
        that id and store the updated row; on error nothing changes. */
    method UpdateProfile(db: Db, profileId: string, data: ProfilePatch, fault: Option<Error>) returns (err: Option<Error>)
      modifies this, db
      ensures db.storage == old(db.storage) && db.follows == old(db.follows)
      ensures err.None? <==> fault.None? && HasRow(old(db.profiles), profileId)
      ensures err.None? ==>
        var u := UpdateData(data);
        && db.profiles == UpdateRows(old(db.profiles), profileId, u)
        && profile == Some(ApplyUpdate(RowById(old(db.profiles), profileId).value, u))
        && !isLoading
      ensures err.Some? ==> db.profiles == old(db.profiles) && profile == old(profile) && isLoading == old(isLoading)
    {
      var u := BuildUpdateData(data);
      if fault.Some? {
        return fault;
      }
      var row := RowById(db.profiles, profileId);
      if row.None? {
        // `.single()` over no updated row
        return Some(Error(NotFoundCode, "no rows returned"));
      }
      db.profiles := UpdateRows(db.profiles, profileId, u);
      profile, isLoading := Some(ApplyUpdate(row.value, u)), false;
      return None;
    }

    /** `refreshProfile`: replace the profile with the user's earliest row; loading is not
        touched and any error (including no row) leaves the store as it was. */
    method RefreshProfile(db: Db, userId: string, fault: Option<Error>)
      modifies this
      ensures isLoading == old(isLoading)
      ensures profile == if fault.None? && EarliestOfUser(db.profiles, userId).Some?
                         then EarliestOfUser(db.profiles, userId) else old(profile)
    {
      if fault.Some? {
        return;
      }
      var found := EarliestOfUser(db.profiles, userId);
      if found.None? {
        return;
      }
      profile := found;
    }
  }

  const AllColumns: set<Column> := {UsernameColumn, DisplayNameColumn, BioColumn}

  lemma ColumnListed(c: Column)
    ensures c in AllColumns
  {
    if c.UsernameColumn? {
    } else if c.DisplayNameColumn? {
    } else {
      assert c.BioColumn?;
    }
  }

  /** The update object of `updateProfile`: exactly the defined fields, with their values. */
  function UpdateData(data: ProfilePatch): (u: map<Column, string>)
    ensures forall c :: c in u <==> PatchField(data, c).Some?
    ensures forall c :: c in u ==> u[c] == PatchField(data, c).value
  {
    assert forall c: Column :: c in AllColumns by {
      forall c: Column ensures c in AllColumns {
        ColumnListed(c);
      }
    }
    map c | c in AllColumns && PatchField(data, c).Some? :: PatchField(data, c).value
  }

  /** Builds the update object field by field, as `updateProfile` does. */
  method BuildUpdateData(data: ProfilePatch) returns (u: map<Column, string>)
    ensures u == UpdateData(data)
  {
    u := map[];
    if data.username.Some? {
      u := u[UsernameColumn := data.username.value];
    }
    if data.displayName.Some? {
      u := u[DisplayNameColumn := data.displayName.value];
    }
    if data.bio.Some? {
      u := u[BioColumn := data.bio.value];
    }
  }
}
