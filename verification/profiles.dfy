/** The profile list of the explore page: the newest 50 profiles, or, for a non-blank search
    query, the newest 50 whose username or display name contains the trimmed query without
    regard to case. A new query replaces the pending fetch; a search waits 300 ms, the
    plain list is fetched at once. */
module UseProfiles {
  import opened Common
  import opened Backend

  const PageSize: nat := 50
  const SearchDelayMs: nat := 300

  /** `ilike '%t%'` on one column: a case-insensitive substring test. */
  predicate ILike(column: string, t: string)
    // the empty pattern `%%` matches every value, and a match is never longer than the value
    ensures t == [] ==> ILike(column, t)
    ensures ILike(column, t) ==> |t| <= |column|
  {
    ContainsIffOccurs(Lower(column), Lower(t));
    assert OccursAt(Lower(column), Lower(t), 0) <== t == [];
    Contains(Lower(column), Lower(t))
  }

  /** The `or` filter: the username or the display name contains the term. */
  predicate Matches(p: Profile, t: string)
    ensures t == [] ==> Matches(p, t)
    ensures Matches(p, t) ==> |t| <= |p.username| || |t| <= |p.displayName|
  {
    ILike(p.username, t) || ILike(p.displayName, t)
  }

  /** A row matches exactly when the lower-cased term occurs in one of its lower-cased
      columns at some position. */
  lemma MatchesIffOccurs(p: Profile, t: string)
    ensures Matches(p, t) <==>
      (exists i :: OccursAt(Lower(p.username), Lower(t), i)) || (exists i :: OccursAt(Lower(p.displayName), Lower(t), i))
  {
    ContainsIffOccurs(Lower(p.username), Lower(t));
    ContainsIffOccurs(Lower(p.displayName), Lower(t));
  }

  /** The rows the filter keeps, in table order. */
  function Filter(rows: seq<Profile>, t: string): (r: seq<Profile>)
    ensures |r| <= |rows|
    ensures forall p :: p in r <==> p in rows && Matches(p, t)
    ensures multiset(r) <= multiset(rows)
  {
    if |rows| == 0 then []
    else
      assert rows == [rows[0]] + rows[1..];
      (if Matches(rows[0], t) then [rows[0]] else []) + Filter(rows[1..], t)
  }

  /** The rows the query selects before ordering: all of them for a blank query, the
      matches of the trimmed query otherwise. */
  function Candidates(rows: seq<Profile>, query: string): (r: seq<Profile>)
    ensures IsBlank(query) ==> r == rows
    ensures !IsBlank(query) ==> forall p :: p in r <==> p in rows && Matches(p, Trim(query))
    ensures multiset(r) <= multiset(rows)
  {
    if IsBlank(query) then rows else Filter(rows, Trim(query))
  }

  /** Newest first. */
  predicate NewestFirst(s: seq<Profile>) {
    forall i, j :: 0 <= i < j < |s| ==> s[i].createdAt >= s[j].createdAt
  }

  /** `order('created_at', { ascending: false })`, as an insertion of each row before the
      first older one; rows of equal age keep no particular order in the backend. */
  function Insert(p: Profile, s: seq<Profile>): (r: seq<Profile>)
    requires NewestFirst(s)
    ensures NewestFirst(r)
    ensures multiset(r) == multiset(s) + multiset{p}
    ensures |r| == |s| + 1
  {
    if |s| == 0 || p.createdAt >= s[0].createdAt then [p] + s
    else
      var rest := Insert(p, s[1..]);
      assert multiset(s) == multiset{s[0]} + multiset(s[1..]) by {
        assert s == [s[0]] + s[1..];
      }
      forall q | q in s[1..] ensures s[0].createdAt >= q.createdAt {
        var m :| 0 <= m < |s[1..]| && s[1..][m] == q;
        assert s[m + 1] == q;
      }
      NoNewerThanHead(s[0], s[1..], p, rest);
      [s[0]] + rest
  }

  /** A row at least as new as every row of `tail` and as `p` can head a newest-first
      permutation of `tail` plus `p`. */
  lemma NoNewerThanHead(head: Profile, tail: seq<Profile>, p: Profile, rest: seq<Profile>)
    requires forall q :: q in tail ==> head.createdAt >= q.createdAt
    requires head.createdAt >= p.createdAt
    requires multiset(rest) == multiset(tail) + multiset{p}
    requires NewestFirst(rest)
    ensures NewestFirst([head] + rest)
  {
    forall k | 0 <= k < |rest| ensures head.createdAt >= rest[k].createdAt {
      assert rest[k] in multiset(rest);
      if rest[k] != p {
        assert rest[k] in multiset(tail);
      }
    }
    forall i, j | 0 <= i < j < |[head] + rest| ensures ([head] + rest)[i].createdAt >= ([head] + rest)[j].createdAt {
      if i > 0 {
        assert ([head] + rest)[i] == rest[i - 1];
      }
      assert ([head] + rest)[j] == rest[j - 1];
    }
  }

  function SortNewestFirst(s: seq<Profile>): (r: seq<Profile>)
    ensures NewestFirst(r)
    ensures multiset(r) == multiset(s)
    ensures |r| == |s|
  {
    if |s| == 0 then []
    else
      assert s == [s[0]] + s[1..];
      Insert(s[0], SortNewestFirst(s[1..]))
  }

  /** The data of a successful profile query. */
  function Search(rows: seq<Profile>, query: string): (r: seq<Profile>)
    // `limit(50)`: every selected row up to fifty
    ensures |r| == if |Candidates(rows, query)| <= PageSize then |Candidates(rows, query)| else PageSize
  {
    var sorted := SortNewestFirst(Candidates(rows, query));
    if |sorted| <= PageSize then sorted else sorted[..PageSize]
  }

  /** The result holds at most 50 rows, newest first, each a row of the table that the
      query selects. */
  lemma SearchShape(rows: seq<Profile>, query: string)
    ensures |Search(rows, query)| <= PageSize
    ensures NewestFirst(Search(rows, query))
    ensures multiset(Search(rows, query)) <= multiset(rows)
    ensures forall p :: p in Search(rows, query) ==> p in rows && (IsBlank(query) || Matches(p, Trim(query)))
  {
    var c := Candidates(rows, query);
    var sorted := SortNewestFirst(c);
    var r := Search(rows, query);
    PrefixKeepsOrder(sorted, |r|);
    assert r == sorted[..|r|];
    forall p | p in r ensures p in rows && (IsBlank(query) || Matches(p, Trim(query))) {
      assert p in multiset(r);
      assert p in multiset(c);
    }
  }

  /** A prefix of a newest-first list is newest first and a sub-multiset of it. */
  lemma PrefixKeepsOrder(s: seq<Profile>, n: nat)
    requires NewestFirst(s) && n <= |s|
    ensures NewestFirst(s[..n])
    ensures multiset(s[..n]) <= multiset(s)
  {
    assert s == s[..n] + s[n..];
    assert multiset(s) == multiset(s[..n]) + multiset(s[n..]);
  }

  /** The result is the newest selected rows: a selected row left out is no newer than any
      row returned, and when at most 50 rows are selected none is left out. */
  lemma SearchKeepsNewest(rows: seq<Profile>, query: string, p: Profile)
    requires p in Candidates(rows, query)
    ensures p !in Search(rows, query) ==>
      |Search(rows, query)| == PageSize && forall q :: q in Search(rows, query) ==> q.createdAt >= p.createdAt
    ensures |Candidates(rows, query)| <= PageSize ==> p in Search(rows, query)
  {
    var c := Candidates(rows, query);
    var sorted := SortNewestFirst(c);
    var r := Search(rows, query);
    assert p in multiset(c);
    assert p in sorted;
    var j :| 0 <= j < |sorted| && sorted[j] == p;
    if p !in r {
      assert j >= |r|;
      forall q | q in r ensures q.createdAt >= p.createdAt {
        var i :| 0 <= i < |r| && r[i] == q;
        assert sorted[i] == q;
      }
    }
  }

  /** A blank or all-whitespace query lists the newest profiles of the whole table. */
  lemma BlankQueryNoFilter(rows: seq<Profile>, query: string)
    ensures Trim(query) == [] ==> Search(rows, query) == Search(rows, "")
  {
    BlankIffAllSpace(query);
  }

  /** `searchQuery.trim() ? 300 : 0`. */
  function DebounceDelay(query: string): (r: nat)
    ensures r == SearchDelayMs <==> !IsBlank(query)
    ensures r == 0 <==> IsBlank(query)
  {
    if IsBlank(query) then 0 else SearchDelayMs
  }

  /** A scheduled fetch: the query it was created for and its delay. */
  datatype PendingFetch = PendingFetch(query: string, delay: nat)

  class ProfilesHook {
    var searchQuery: string
    var profiles: seq<Profile>
    var isLoading: bool
    /** The timer of the last effect run, until it fires or is cleared. */
    var pending: Option<PendingFetch>

    /** A pending fetch is always for the current query. */
    ghost predicate Valid()
      reads this
    {
      pending.Some? ==> pending.value == PendingFetch(searchQuery, DebounceDelay(searchQuery))
    }

    /** Mounting runs the effect for the initial query. */
    constructor (searchQuery: string)
      ensures Valid()
      ensures this.searchQuery == searchQuery && profiles == [] && isLoading
      ensures pending == Some(PendingFetch(searchQuery, DebounceDelay(searchQuery)))
    {
      this.searchQuery := searchQuery;
      profiles := [];
      isLoading := true;
      pending := Some(PendingFetch(searchQuery, DebounceDelay(searchQuery)));
    }

    /** A render with `query`: the effect depends on `[searchQuery]` only, so an unchanged
        query leaves the hook alone; a new one runs the cleanup, which clears the pending
        timer, and then the effect, which sets a new one for the new query. */
    method SetQuery(query: string)
      requires Valid()
      modifies this
      ensures Valid()
      ensures searchQuery == query
      ensures query == old(searchQuery) ==> pending == old(pending)
      ensures query != old(searchQuery) ==> pending == Some(PendingFetch(query, DebounceDelay(query)))
      ensures profiles == old(profiles) && isLoading == old(isLoading)
    {
      if query == searchQuery {
        return;
      }
      pending := None;
      searchQuery := query;
      pending := Some(PendingFetch(query, DebounceDelay(query)));
    }

    /** The timer fires: the fetch runs to completion for the query it was set for; a
        failed query (no data) gives the empty list, and loading ends. */
    method OnTimer(db: Db, fault: Option<Error>)
      requires Valid() && pending.Some?
      modifies this
      ensures Valid()
      ensures pending == None && searchQuery == old(searchQuery) && !isLoading
      ensures profiles == (if fault.None? then Search(db.profiles, searchQuery) else [])
    {
      var query := pending.value.query;
      assert query == searchQuery;
      pending := None;
      isLoading := true;
      var data: Option<seq<Profile>> := None;
      if fault.None? {
        data := Some(Search(db.profiles, query));
      }
      profiles := if data.Some? then data.value else [];
      isLoading := false;
    }

    /** Unmounting clears the pending timer. */
    method Unmount()
      requires Valid()
      modifies this
      ensures Valid()
      ensures pending == None && profiles == old(profiles) && isLoading == old(isLoading)
    {
      pending := None;
    }
  }
}
