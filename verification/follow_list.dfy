/** The followers or following list of a profile: the accepted rows of the `follows` table
    on one side of the profile, each joined to the profile row at the other end, and the
    client-side parse that keeps only single profile records. */
module UseFollowList {
  import opened Common
  import opened Backend
  import UseFollowCount

  /** An embedded join value as the client receives it: null, one record, or an array. */
  datatype Embedded = Null | Record(profile: Profile) | Array(items: seq<Embedded>)

  /** `.flat()`: arrays are spread one level, every other entry stays. */
  function Flat(xs: seq<Embedded>): (r: seq<Embedded>)
    ensures (forall i :: 0 <= i < |xs| ==> !xs[i].Array?) ==> r == xs
  {
    if |xs| == 0 then []
    else (if xs[0].Array? then xs[0].items else [xs[0]]) + Flat(xs[1..])
  }

  /** `.filter((p) => !!p && !Array.isArray(p))`: the records, in order. */
  function Records(xs: seq<Embedded>): (r: seq<Profile>)
    ensures |r| <= |xs|
    ensures forall p :: p in r <==> Record(p) in xs
    ensures (forall i :: 0 <= i < |xs| ==> xs[i].Record?) ==> |r| == |xs|
  {
    if |xs| == 0 then []
    else
      assert xs == [xs[0]] + xs[1..];
      (if xs[0].Record? then [xs[0].profile] else []) + Records(xs[1..])
  }

  /** An entry of the response that brings the record of `p` into the list: the record
      itself, or an array holding it. */
  predicate Carries(x: Embedded, p: Profile) {
    x == Record(p) || (x.Array? && Record(p) in x.items)
  }

  /** `(data ?? []).map(d => d.profiles).flat().filter(...)`. */
  function Parse(data: Option<seq<Embedded>>): (r: seq<Profile>)
    // no data gives the empty list
    ensures data.None? ==> r == []
    // a response without arrays gives exactly its records, one per record entry at most
    ensures data.Some? && (forall i :: 0 <= i < |data.value| ==> !data.value[i].Array?) ==>
      |r| <= |data.value| && forall q :: q in r <==> Record(q) in data.value
  {
    if data.None? then [] else Records(Flat(data.value))
  }

  lemma {:induction false} FlatMembers(xs: seq<Embedded>, y: Embedded)
    ensures y in Flat(xs) <==> exists i :: 0 <= i < |xs| && (if xs[i].Array? then y in xs[i].items else y == xs[i])
  {
    if |xs| > 0 {
      FlatMembers(xs[1..], y);
      if exists i :: 0 <= i < |xs[1..]| && (if xs[1..][i].Array? then y in xs[1..][i].items else y == xs[1..][i]) {
        var i :| 0 <= i < |xs[1..]| && (if xs[1..][i].Array? then y in xs[1..][i].items else y == xs[1..][i]);
        assert xs[i + 1] == xs[1..][i];
      }
      if exists i :: 0 <= i < |xs| && (if xs[i].Array? then y in xs[i].items else y == xs[i]) {
        var i :| 0 <= i < |xs| && (if xs[i].Array? then y in xs[i].items else y == xs[i]);
        if i > 0 {
          assert xs[1..][i - 1] == xs[i];
        }
      }
    }
  }

  /** A profile is in the parsed list exactly when some response entry carries its record;
      nulls, and records nested two arrays deep, never reach the list. */
  lemma ParseMembers(data: seq<Embedded>, p: Profile)
    ensures p in Parse(Some(data)) <==> exists i :: 0 <= i < |data| && Carries(data[i], p)
  {
    FlatMembers(data, Record(p));
    if exists i :: 0 <= i < |data| && Carries(data[i], p) {
      var i :| 0 <= i < |data| && Carries(data[i], p);
      assert if data[i].Array? then Record(p) in data[i].items else Record(p) == data[i];
    }
  }

  /** The accepted rows with `p` in the filter column, in table order. */
  function Selected(edges: seq<Follow>, kind: ListKind, p: string): (r: seq<Follow>)
    ensures forall e :: e in r <==> e in edges && e.status == Accepted && FilterId(e, kind) == p
    ensures |r| == UseFollowCount.AcceptedCount(edges, kind, p)
  {
    if |edges| == 0 then []
    else if edges[0].status == Accepted && FilterId(edges[0], kind) == p then [edges[0]] + Selected(edges[1..], kind, p)
    else Selected(edges[1..], kind, p)
  }

  /** `profiles!<column>(...)`: the edge's foreign key to the listed profile embeds that
      profile's row, or null when there is none. */
  function Embed(rows: seq<Profile>, id: string): (r: Embedded)
    ensures !r.Array?
    ensures r.Record? <==> RowById(rows, id).Some?
    ensures r.Record? ==> r.profile == RowById(rows, id).value
  {
    var row := RowById(rows, id);
    if row.Some? then Record(row.value) else Null
  }

  /** The response to the list query. */
  function Response(edges: seq<Follow>, rows: seq<Profile>, kind: ListKind, p: string): (r: seq<Embedded>)
    ensures |r| == |Selected(edges, kind, p)|
    ensures forall i :: 0 <= i < |r| ==> r[i] == Embed(rows, ListedId(Selected(edges, kind, p)[i], kind))
  {
    var sel := Selected(edges, kind, p);
    seq(|sel|, i requires 0 <= i < |sel| => Embed(rows, ListedId(sel[i], kind)))
  }

  /** The list a successful query yields. */
  function FollowList(edges: seq<Follow>, rows: seq<Profile>, kind: ListKind, p: string): (r: seq<Profile>)
    // never longer than the matching count, and only rows of the profiles table
    ensures |r| <= UseFollowCount.AcceptedCount(edges, kind, p)
    ensures forall q :: q in r ==> q in rows
  {
    var resp := Response(edges, rows, kind, p);
    assert forall i :: 0 <= i < |resp| ==> !resp[i].Array?;
    Parse(Some(resp))
  }

  /** The followers list holds exactly the profiles of accepted followers of `p`, the
      following list exactly the profiles `p` follows with an accepted row. */
  lemma FollowListMembers(edges: seq<Follow>, rows: seq<Profile>, kind: ListKind, p: string, q: Profile)
    ensures q in FollowList(edges, rows, kind, p) <==>
      exists e :: e in edges && e.status == Accepted && FilterId(e, kind) == p && RowById(rows, ListedId(e, kind)) == Some(q)
  {
    var sel := Selected(edges, kind, p);
    var resp := Response(edges, rows, kind, p);
    ParseMembers(resp, q);
    if q in FollowList(edges, rows, kind, p) {
      var i :| 0 <= i < |resp| && Carries(resp[i], q);
      assert sel[i] in sel;
    }
    if exists e :: e in edges && e.status == Accepted && FilterId(e, kind) == p && RowById(rows, ListedId(e, kind)) == Some(q) {
      var e :| e in edges && e.status == Accepted && FilterId(e, kind) == p && RowById(rows, ListedId(e, kind)) == Some(q);
      assert e in sel;
      var i :| 0 <= i < |sel| && sel[i] == e;
      assert Carries(resp[i], q);
    }
  }

  /** When every listed profile exists, the list is as long as the matching count. */
  lemma ListLengthMatchesCount(edges: seq<Follow>, rows: seq<Profile>, kind: ListKind, p: string)
    requires forall e :: e in edges && e.status == Accepted && FilterId(e, kind) == p ==> HasRow(rows, ListedId(e, kind))
    ensures |FollowList(edges, rows, kind, p)| == UseFollowCount.AcceptedCount(edges, kind, p)
  {
    var sel := Selected(edges, kind, p);
    var resp := Response(edges, rows, kind, p);
    forall i | 0 <= i < |resp| ensures resp[i].Record? {
      assert sel[i] in sel;
    }
  }

  class FollowListState {
    const profileId: string
    const kind: ListKind
    var list: seq<Profile>
    var isLoading: bool

    constructor (profileId: string, kind: ListKind)
      ensures this.profileId == profileId && this.kind == kind
      ensures list == [] && isLoading
    {
      this.profileId := profileId;
      this.kind := kind;
      list := [];
      isLoading := true;
    }

    /** The list effect: nothing for an empty id; otherwise the query runs, a failed query
        (no data) gives the empty list, and loading ends once the list is stored. */
    method FetchList(db: Db, fault: Option<Error>)
      modifies this
      ensures profileId == "" ==> list == old(list) && isLoading == old(isLoading)
      ensures profileId != "" ==>
        && list == (if fault.None? then FollowList(db.follows, db.profiles, kind, profileId) else [])
        && !isLoading
    {
      if profileId == "" {
        return;
      }
      isLoading := true;
      var data := if fault.None? then Some(Response(db.follows, db.profiles, kind, profileId)) else None;
      list := Parse(data);
      isLoading := false;
    }
  }
}
