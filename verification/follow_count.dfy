/** The follower and following counts of a profile: the number of accepted rows of the
    `follows` table on each side of it. */
module UseFollowCount {
  import opened Common
  import opened Backend

  /** `select('*', { count: 'exact', head: true }).eq(<filter>, p).eq('status', 'accepted')`:
      the accepted rows whose filter column is `p`. The follower count filters on
      `following_id`, the following count on `follower_id`. */
  function AcceptedCount(edges: seq<Follow>, kind: ListKind, p: string): (r: nat)
    ensures r <= |edges|
    ensures r == 0 <==> forall i :: 0 <= i < |edges| ==> !(edges[i].status == Accepted && FilterId(edges[i], kind) == p)
  {
    if |edges| == 0 then 0
    else
      var rest := AcceptedCount(edges[1..], kind, p);
      assert forall i :: 1 <= i < |edges| ==> edges[i] == edges[1..][i - 1];
      (if edges[0].status == Accepted && FilterId(edges[0], kind) == p then 1 else 0) + rest
  }

  /** The row a successful follow inserts adds one follower to the target and one followed
      profile to the follower; every other count is unchanged. */
  lemma {:induction false} CountAfterAppend(edges: seq<Follow>, e: Follow, kind: ListKind, p: string)
    ensures AcceptedCount(edges + [e], kind, p)
         == AcceptedCount(edges, kind, p) + (if e.status == Accepted && FilterId(e, kind) == p then 1 else 0)
  {
    if |edges| > 0 {
      assert (edges + [e])[1..] == edges[1..] + [e];
      CountAfterAppend(edges[1..], e, kind, p);
    } else {
      assert [e][1..] == [];
    }
  }

  /** The follower or following end of a pair, as `FilterId` reads it. */
  function PairEnd(follower: string, following: string, kind: ListKind): string {
    if kind == Followers then following else follower
  }

  /** A successful unfollow of an accepted pair removes exactly one from the target's
      follower count and from the follower's following count, and changes no other count. */
  lemma {:induction false} CountAfterDelete(edges: seq<Follow>, follower: string, following: string, kind: ListKind, p: string)
    requires UniquePairs(edges)
    ensures AcceptedCount(DeletePair(edges, follower, following), kind, p)
         == AcceptedCount(edges, kind, p)
            - (if p == PairEnd(follower, following, kind) && Follow(follower, following, Accepted) in edges then 1 else 0)
  {
    if |edges| > 0 {
      if SamePair(edges[0], follower, following) {
        CountAfterDeleteAtHead(edges, follower, following, kind, p);
      } else {
        var x := edges[0];
        var rest := edges[1..];
        UniqueTail(edges);
        CountAfterDelete(rest, follower, following, kind, p);
        var d := DeletePair(rest, follower, following);
        var head := if x.status == Accepted && FilterId(x, kind) == p then 1 else 0;
        assert edges == [x] + rest;
        assert DeletePair(edges, follower, following) == [x] + d;
        assert ([x] + d)[1..] == d;
        assert AcceptedCount([x] + d, kind, p) == head + AcceptedCount(d, kind, p);
        assert Follow(follower, following, Accepted) in edges <==> Follow(follower, following, Accepted) in rest;
      }
    }
  }

  /** The case of `CountAfterDelete` where the first row is the deleted pair: the key
      leaves no second row of the pair, so the delete drops exactly that row. */
  lemma CountAfterDeleteAtHead(edges: seq<Follow>, follower: string, following: string, kind: ListKind, p: string)
    requires UniquePairs(edges) && |edges| > 0 && SamePair(edges[0], follower, following)
    ensures AcceptedCount(DeletePair(edges, follower, following), kind, p)
         == AcceptedCount(edges, kind, p)
            - (if p == PairEnd(follower, following, kind) && Follow(follower, following, Accepted) in edges then 1 else 0)
  {
    var x := edges[0];
    var rest := edges[1..];
    UniqueTail(edges);
    DeleteAbsentIsIdentity(rest, follower, following);
    var e := Follow(follower, following, Accepted);
    assert e !in rest by {
      forall k | 0 <= k < |rest| ensures rest[k] != e {
        assert !SamePair(rest[k], x.followerId, x.followingId);
      }
    }
    assert edges == [x] + rest;
    assert e in edges <==> x == e;
  }

  /** Deleting a pair that is absent changes nothing. */
  lemma {:induction false} DeleteAbsentIsIdentity(edges: seq<Follow>, follower: string, following: string)
    requires !HasPair(edges, follower, following)
    ensures DeletePair(edges, follower, following) == edges
  {
    if |edges| > 0 {
      assert !SamePair(edges[0], follower, following);
      forall k | 0 <= k < |edges| - 1 ensures !SamePair(edges[1..][k], follower, following) {
        assert edges[1..][k] == edges[k + 1];
      }
      DeleteAbsentIsIdentity(edges[1..], follower, following);
      assert [edges[0]] + edges[1..] == edges;
    }
  }

  class FollowCounts {
    const profileId: string
    var followerCount: nat
    var followingCount: nat
    var isLoading: bool

    constructor (profileId: string)
      ensures this.profileId == profileId
      ensures followerCount == 0 && followingCount == 0 && isLoading
    {
      this.profileId := profileId;
      followerCount, followingCount := 0, 0;
      isLoading := true;
    }

    /** The count effect: nothing for an empty id; otherwise both counts are fetched and
        stored, a failed count (no `count` in the response) reading as 0, and loading ends. */
    method FetchCounts(db: Db, followerFault: Option<Error>, followingFault: Option<Error>)
      modifies this
      ensures profileId == "" ==>
        followerCount == old(followerCount) && followingCount == old(followingCount) && isLoading == old(isLoading)
      ensures profileId != "" ==>
        && followerCount == (if followerFault.None? then AcceptedCount(db.follows, Followers, profileId) else 0)
        && followingCount == (if followingFault.None? then AcceptedCount(db.follows, Following, profileId) else 0)
        && !isLoading
    {
      if profileId == "" {
        return;
      }
      var followerRes: Option<nat> := if followerFault.None? then Some(AcceptedCount(db.follows, Followers, profileId)) else None;
      var followingRes: Option<nat> := if followingFault.None? then Some(AcceptedCount(db.follows, Following, profileId)) else None;
      followerCount := if followerRes.Some? then followerRes.value else 0;
      followingCount := if followingRes.Some? then followingRes.value else 0;
      isLoading := false;
    }
  }
}
