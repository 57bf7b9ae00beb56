/** The follow button of a profile page: the signed-in user's follow status towards one
    target profile, looked up once and flipped by the toggle, which deletes or inserts the
    row of the pair (me, target) in the `follows` table. Every new follow is accepted at
    once. */
module UseFollow {
  import opened Common
  import opened Backend

  /** `select('status').eq('follower_id', me).eq('following_id', target).maybeSingle()`:
      the status of the pair's row. No row gives null data, and so does more than one row,
      which the backend reports as an error. */
  function StatusLookup(edges: seq<Follow>, me: string, target: string): (r: Option<FollowStatus>)
    ensures r.Some? ==> Follow(me, target, r.value) in edges
    ensures r.None? ==> |EdgesOf(edges, me, target)| != 1
  {
    var m := EdgesOf(edges, me, target);
    if |m| == 1 then
      assert m[0] in m;
      Some(m[0].status)
    else None
  }

  /** `data?.status === 'accepted'`. */
  predicate FollowsIn(edges: seq<Follow>, me: string, target: string) {
    StatusLookup(edges, me, target) == Some(Accepted)
  }

  /** Under the table's key, the lookup says "following" exactly when the accepted row of
      the pair is present. */
  lemma FollowsIffAcceptedRow(edges: seq<Follow>, me: string, target: string)
    requires UniquePairs(edges)
    ensures FollowsIn(edges, me, target) <==> Follow(me, target, Accepted) in edges
  {
    EdgesOfUnique(edges, me, target);
    var m := EdgesOf(edges, me, target);
    var e := Follow(me, target, Accepted);
    if e in edges {
      var i :| 0 <= i < |edges| && edges[i] == e;
      assert HasPair(edges, me, target);
      assert e in m;
      assert m == [m[0]];
    }
  }

  /** After the unfollow delete, the lookup finds nothing. */
  lemma UnfollowClears(edges: seq<Follow>, me: string, target: string)
    requires UniquePairs(edges)
    ensures StatusLookup(DeletePair(edges, me, target), me, target) == None
  {
    DeletePairKeepsUnique(edges, me, target);
    EdgesOfAbsent(DeletePair(edges, me, target), me, target);
  }

  /** After the follow insert into a table without the pair, the lookup finds it accepted. */
  lemma FollowSets(edges: seq<Follow>, me: string, target: string)
    requires UniquePairs(edges) && !HasPair(edges, me, target)
    ensures UniquePairs(edges + [Follow(me, target, Accepted)])
    ensures StatusLookup(edges + [Follow(me, target, Accepted)], me, target) == Some(Accepted)
  {
    var e := Follow(me, target, Accepted);
    AppendKeepsUnique(edges, e);
    FollowsIffAcceptedRow(edges + [e], me, target);
    assert (edges + [e])[|edges|] == e;
  }

  /** Deleting one pair leaves the rows of every other pair as they were. */
  lemma {:induction false} DeleteKeepsOtherPairs(edges: seq<Follow>, me: string, target: string, a: string, b: string)
    requires a != me || b != target
    ensures EdgesOf(DeletePair(edges, me, target), a, b) == EdgesOf(edges, a, b)
    ensures StatusLookup(DeletePair(edges, me, target), a, b) == StatusLookup(edges, a, b)
  {
    if |edges| > 0 {
      DeleteKeepsOtherPairs(edges[1..], me, target, a, b);
    }
  }

  /** Appending the row of one pair leaves the rows of every other pair as they were. */
  lemma {:induction false} AppendKeepsOtherPairs(edges: seq<Follow>, e: Follow, a: string, b: string)
    requires !SamePair(e, a, b)
    ensures EdgesOf(edges + [e], a, b) == EdgesOf(edges, a, b)
    ensures StatusLookup(edges + [e], a, b) == StatusLookup(edges, a, b)
  {
    if |edges| == 0 {
      assert EdgesOf([e], a, b) == EdgesOf([e][1..], a, b);
    } else {
      assert (edges + [e])[1..] == edges[1..] + [e];
      AppendKeepsOtherPairs(edges[1..], e, a, b);
    }
  }

  /** `!profile?.id`: the own profile id is missing or empty. */
  predicate HasOwnId(me: Option<string>) {
    me.Some? && me.value != ""
  }

  datatype ToggleOutcome = NeedsSignIn | SelfFollow | Unfollowed | Followed | Failed(error: Error)

  class FollowButton {
    /** The signed-in user's profile id, and the profile the button is for. */
    const me: Option<string>
    const target: string
    var isFollowing: bool
    var isLoading: bool

    constructor (me: Option<string>, target: string)
      ensures this.me == me && this.target == target
      ensures !isFollowing && isLoading
    {
      this.me := me;
      this.target := target;
      isFollowing := false;
      isLoading := true;
    }

    /** The button agrees with the table. */
    ghost predicate InSync(edges: seq<Follow>)
      reads this
    {
      HasOwnId(me) && isFollowing == FollowsIn(edges, me.value, target)
    }

    /** The status effect: skipped without an own id or a target; otherwise following is
        whether the lookup returned an accepted row (a failed lookup returns no data). */
    method LoadStatus(db: Db, fault: Option<Error>)
      modifies this
      ensures !HasOwnId(me) || target == "" ==> isFollowing == old(isFollowing) && isLoading == old(isLoading)
      ensures HasOwnId(me) && target != "" ==>
        && isFollowing == (fault.None? && FollowsIn(db.follows, me.value, target))
        && !isLoading
      ensures HasOwnId(me) && target != "" && fault.None? ==> InSync(db.follows)
    {
      if !HasOwnId(me) || target == "" {
        return;
      }
      var status := if fault.None? then StatusLookup(db.follows, me.value, target) else None;
      isFollowing := status == Some(Accepted);
      isLoading := false;
    }

    /** `toggleFollow`: refused without an own id or on one's own profile; otherwise deletes
        the pair when following and inserts it accepted when not, flips the flag only when
        the call succeeds, and ends with loading off. */
    method ToggleFollow(db: Db, fault: Option<Error>) returns (out: ToggleOutcome)
      modifies this, db
      ensures db.profiles == old(db.profiles) && db.storage == old(db.storage)
      ensures !HasOwnId(me) ==> out == NeedsSignIn
      ensures HasOwnId(me) && me.value == target ==> out == SelfFollow
      ensures out == NeedsSignIn || out == SelfFollow ==>
        db.follows == old(db.follows) && isFollowing == old(isFollowing) && isLoading == old(isLoading)
      ensures HasOwnId(me) && me.value != target ==> !isLoading
      ensures HasOwnId(me) && me.value != target && old(isFollowing) ==>
        && (out == Unfollowed <==> fault.None?)
        && (out == Unfollowed ==> db.follows == DeletePair(old(db.follows), me.value, target) && !isFollowing)
        && (out != Unfollowed ==> out.Failed? && db.follows == old(db.follows) && isFollowing)
      ensures HasOwnId(me) && me.value != target && !old(isFollowing) ==>
        && (out == Followed <==> fault.None? && !HasPair(old(db.follows), me.value, target))
        && (out == Followed ==> db.follows == old(db.follows) + [Follow(me.value, target, Accepted)] && isFollowing)
        && (out != Followed ==> out.Failed? && db.follows == old(db.follows) && !isFollowing)
      // the key is kept, a button in sync with the table stays in sync, and no other pair is touched
      ensures UniquePairs(old(db.follows)) ==> UniquePairs(db.follows)
      ensures UniquePairs(old(db.follows)) && old(InSync(db.follows)) && me.value != target ==> InSync(db.follows)
      ensures HasOwnId(me) ==> forall a, b :: a != me.value || b != target ==>
        StatusLookup(db.follows, a, b) == StatusLookup(old(db.follows), a, b)
    {
      if !HasOwnId(me) {
        return NeedsSignIn;
      }
      if me.value == target {
        return SelfFollow;
      }
      isLoading := true;
      var before := db.follows;
      if isFollowing {
        if fault.Some? {
          out := Failed(fault.value);
        } else {
          db.follows := DeletePair(db.follows, me.value, target);
          isFollowing := false;
          out := Unfollowed;
          if UniquePairs(before) {
            DeletePairKeepsUnique(before, me.value, target);
            UnfollowClears(before, me.value, target);
          }
          forall a, b | a != me.value || b != target
            ensures StatusLookup(db.follows, a, b) == StatusLookup(before, a, b)
          {
            DeleteKeepsOtherPairs(before, me.value, target, a, b);
          }
        }
      } else {
        var row := Follow(me.value, target, Accepted);
        if fault.Some? {
          out := Failed(fault.value);
        } else if HasPair(db.follows, me.value, target) {
          // the pair is the primary key
          out := Failed(Error("23505", "duplicate key value violates unique constraint"));
        } else {
          db.follows := db.follows + [row];
          isFollowing := true;
          out := Followed;
          if UniquePairs(before) {
            FollowSets(before, me.value, target);
          }
          forall a, b | a != me.value || b != target
            ensures StatusLookup(db.follows, a, b) == StatusLookup(before, a, b)
          {
            AppendKeepsOtherPairs(before, row, a, b);
          }
        }
      }
      isLoading := false;
    }
  }
}
