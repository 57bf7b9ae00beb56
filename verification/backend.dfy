/** The hosted backend as the client sees it: a `profiles` table, the `profile-images`
    storage bucket (a map from object key to bytes) and a `follows` table. Each backend call
    the client makes is modelled where it is made, with its outcome (success or an error)
    chosen by the caller; this module holds only the state and the row-level operations
    those calls share. */
module Backend {
  import opened Common

  type Blob = seq<bv8>

  datatype FollowStatus = Accepted | Pending

  /** A row of the `follows` table; the pair (followerId, followingId) is its primary key. */
  datatype Follow = Follow(followerId: string, followingId: string, status: FollowStatus)

  class Db {
    var profiles: seq<Profile>
    var storage: map<string, Blob>
    var follows: seq<Follow>

    constructor (profiles: seq<Profile>, storage: map<string, Blob>, follows: seq<Follow>)
      ensures this.profiles == profiles && this.storage == storage && this.follows == follows
    {
      this.profiles := profiles;
      this.storage := storage;
      this.follows := follows;
    }
  }

  /** The image column of the first row whose id is `id`; `None` when there is no such row
      or its image is null. */
  function ImageOf(rows: seq<Profile>, id: string): Option<string>
  {
    if |rows| == 0 then None
    else if rows[0].id == id then rows[0].profileImage
    else ImageOf(rows[1..], id)
  }

  /** `update({ profile_image: url }).eq('id', id)`: every row with that id gets the new
      image, every other row is untouched. */
  function SetImage(rows: seq<Profile>, id: string, url: Option<string>): (r: seq<Profile>)
    ensures |r| == |rows|
    ensures forall i :: 0 <= i < |rows| && rows[i].id != id ==> r[i] == rows[i]
    ensures forall i :: 0 <= i < |rows| && rows[i].id == id ==> r[i] == rows[i].(profileImage := url)
  {
    seq(|rows|, i requires 0 <= i < |rows| =>
      if rows[i].id == id then rows[i].(profileImage := url) else rows[i])
  }

  predicate HasRow(rows: seq<Profile>, id: string) {
    exists i :: 0 <= i < |rows| && rows[i].id == id
  }

  /** The first row with the given id. */
  function RowById(rows: seq<Profile>, id: string): (r: Option<Profile>)
    ensures r.Some? ==> r.value in rows && r.value.id == id
    ensures r.None? <==> !HasRow(rows, id)
  {
    if |rows| == 0 then None
    else if rows[0].id == id then Some(rows[0])
    else
      var r := RowById(rows[1..], id);
      assert HasRow(rows, id) ==> HasRow(rows[1..], id) by {
        if HasRow(rows, id) {
          var i :| 0 <= i < |rows| && rows[i].id == id;
          assert rows[1..][i - 1].id == id;
        }
      }
      r
  }

  lemma {:induction false} ImageOfSetImage(rows: seq<Profile>, id: string, url: Option<string>)
    ensures ImageOf(SetImage(rows, id, url), id) == if HasRow(rows, id) then url else None
  {
    if |rows| > 0 {
      var r := SetImage(rows, id, url);
      if rows[0].id != id {
        ImageOfSetImage(rows[1..], id, url);
        assert SetImage(rows[1..], id, url) == r[1..];
        assert HasRow(rows, id) ==> HasRow(rows[1..], id) by {
          if HasRow(rows, id) {
            var i :| 0 <= i < |rows| && rows[i].id == id;
            assert rows[1..][i - 1].id == id;
          }
        }
        assert HasRow(rows[1..], id) ==> HasRow(rows, id) by {
          if HasRow(rows[1..], id) {
            var i :| 0 <= i < |rows[1..]| && rows[1..][i].id == id;
            assert rows[i + 1].id == id;
          }
        }
      } else {
        assert HasRow(rows, id);
      }
    }
  }

  /** Setting an image on a row leaves the images of rows with other ids as they were. */
  lemma {:induction false} ImageOfSetImageOther(rows: seq<Profile>, id: string, other: string, url: Option<string>)
    requires other != id
    ensures ImageOf(SetImage(rows, id, url), other) == ImageOf(rows, other)
  {
    if |rows| > 0 {
      ImageOfSetImageOther(rows[1..], id, other, url);
      assert SetImage(rows[1..], id, url) == SetImage(rows, id, url)[1..];
    }
  }

  /** The two lists a profile has, and the column each is selected by: followers are the
      rows whose `following_id` is the profile, following the rows whose `follower_id` is. */
  datatype ListKind = Followers | Following

  /** The column a list or count filters on. */
  function FilterId(e: Follow, kind: ListKind): string {
    if kind == Followers then e.followingId else e.followerId
  }

  /** The column whose profile a list shows: the other end of the edge. */
  function ListedId(e: Follow, kind: ListKind): string {
    if kind == Followers then e.followerId else e.followingId
  }

  predicate SamePair(e: Follow, follower: string, following: string) {
    e.followerId == follower && e.followingId == following
  }

  /** The pair (follower, following) is the primary key of the table. */
  predicate UniquePairs(edges: seq<Follow>) {
    forall i, j :: 0 <= i < j < |edges| ==> !SamePair(edges[j], edges[i].followerId, edges[i].followingId)
  }

  predicate HasPair(edges: seq<Follow>, follower: string, following: string) {
    exists i :: 0 <= i < |edges| && SamePair(edges[i], follower, following)
  }

  /** The rows of one pair, in table order. */
  function EdgesOf(edges: seq<Follow>, follower: string, following: string): (r: seq<Follow>)
    ensures forall e :: e in r <==> e in edges && SamePair(e, follower, following)
    ensures |r| <= |edges|
  {
    if |edges| == 0 then []
    else if SamePair(edges[0], follower, following) then [edges[0]] + EdgesOf(edges[1..], follower, following)
    else EdgesOf(edges[1..], follower, following)
  }

  /** `.delete().eq('follower_id', a).eq('following_id', b)`: every row of the pair goes,
      every other row stays, in order. */
  function DeletePair(edges: seq<Follow>, follower: string, following: string): (r: seq<Follow>)
    ensures forall e :: e in r <==> e in edges && !SamePair(e, follower, following)
    ensures |r| <= |edges|
  {
    if |edges| == 0 then []
    else if SamePair(edges[0], follower, following) then DeletePair(edges[1..], follower, following)
    else [edges[0]] + DeletePair(edges[1..], follower, following)
  }

  /** The rest of a keyed table is keyed and does not repeat the first row's pair. */
  lemma UniqueTail(edges: seq<Follow>)
    requires UniquePairs(edges) && |edges| > 0
    ensures UniquePairs(edges[1..])
    ensures !HasPair(edges[1..], edges[0].followerId, edges[0].followingId)
  {
    var ys := edges[1..];
    forall k | 0 <= k < |ys| ensures !SamePair(ys[k], edges[0].followerId, edges[0].followingId) {
      assert ys[k] == edges[k + 1];
    }
    forall i, j | 0 <= i < j < |ys| ensures !SamePair(ys[j], ys[i].followerId, ys[i].followingId) {
      assert ys[i] == edges[i + 1] && ys[j] == edges[j + 1];
    }
  }

  /** A row in front of a keyed table that lacks its pair gives a keyed table. */
  lemma UniqueCons(x: Follow, ys: seq<Follow>)
    requires UniquePairs(ys) && !HasPair(ys, x.followerId, x.followingId)
    ensures UniquePairs([x] + ys)
  {
    var zs := [x] + ys;
    forall i, j | 0 <= i < j < |zs| ensures !SamePair(zs[j], zs[i].followerId, zs[i].followingId) {
      assert zs[j] == ys[j - 1];
      if i > 0 {
        assert zs[i] == ys[i - 1];
      }
    }
  }

  /** A table without the pair has no rows of it. */
  lemma {:induction false} EdgesOfAbsent(edges: seq<Follow>, follower: string, following: string)
    requires !HasPair(edges, follower, following)
    ensures EdgesOf(edges, follower, following) == []
  {
    if |edges| > 0 {
      assert !SamePair(edges[0], follower, following);
      forall k | 0 <= k < |edges| - 1 ensures !SamePair(edges[1..][k], follower, following) {
        assert edges[1..][k] == edges[k + 1];
      }
      EdgesOfAbsent(edges[1..], follower, following);
    }
  }

  /** Deleting a pair keeps the key unique and leaves no row of the pair. */
  lemma {:induction false} DeletePairKeepsUnique(edges: seq<Follow>, follower: string, following: string)
    requires UniquePairs(edges)
    ensures UniquePairs(DeletePair(edges, follower, following))
    ensures !HasPair(DeletePair(edges, follower, following), follower, following)
  {
    var r := DeletePair(edges, follower, following);
    if |edges| > 0 {
      UniqueTail(edges);
      var rest := edges[1..];
      DeletePairKeepsUnique(rest, follower, following);
      if !SamePair(edges[0], follower, following) {
        var d := DeletePair(rest, follower, following);
        forall i | 0 <= i < |d| ensures !SamePair(d[i], edges[0].followerId, edges[0].followingId) {
          assert d[i] in d;
          var j :| 0 <= j < |rest| && rest[j] == d[i];
        }
        UniqueCons(edges[0], d);
      }
    }
    forall i | 0 <= i < |r| ensures !SamePair(r[i], follower, following) {
      assert r[i] in r;
    }
  }

  /** Appending a row whose pair is absent keeps the key unique. */
  lemma AppendKeepsUnique(edges: seq<Follow>, e: Follow)
    requires UniquePairs(edges) && !HasPair(edges, e.followerId, e.followingId)
    ensures UniquePairs(edges + [e])
  {
    var r := edges + [e];
    forall i, j | 0 <= i < j < |r| ensures !SamePair(r[j], r[i].followerId, r[i].followingId) {
      if j == |edges| {
        assert r[i] == edges[i];
      } else {
        assert r[i] == edges[i] && r[j] == edges[j];
      }
    }
  }

  /** Under the key there is at most one row per pair, and one exactly when the pair is
      present. */
  lemma {:induction false} EdgesOfUnique(edges: seq<Follow>, follower: string, following: string)
    requires UniquePairs(edges)
    ensures |EdgesOf(edges, follower, following)| <= 1
    ensures |EdgesOf(edges, follower, following)| == 1 <==> HasPair(edges, follower, following)
  {
    if |edges| > 0 {
      UniqueTail(edges);
      var rest := edges[1..];
      if SamePair(edges[0], follower, following) {
        EdgesOfAbsent(rest, follower, following);
        assert HasPair(edges, follower, following);
      } else {
        EdgesOfUnique(rest, follower, following);
        assert HasPair(edges, follower, following) <==> HasPair(rest, follower, following) by {
          if HasPair(edges, follower, following) {
            var i :| 0 <= i < |edges| && SamePair(edges[i], follower, following);
            assert rest[i - 1] == edges[i];
          }
          if HasPair(rest, follower, following) {
            var i :| 0 <= i < |rest| && SamePair(rest[i], follower, following);
            assert edges[i + 1] == rest[i];
          }
        }
      }
    }
  }
}
