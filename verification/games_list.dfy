/**
 * The games list page: three optional filters combined by conjunction, a sort
 * chosen by name with an ascending/descending switch, and the platform facet.
 */
module GamesList {
  import opened Wrappers
  import opened Text
  import opened Sequences
  import opened Models
  import opened Ordering

  /** The page's query-string parameters, each possibly absent. */
  datatype ListQuery = ListQuery(
    searchTerm: Option<string>,
    statusFilter: Option<string>,
    platformFilter: Option<string>,
    sortBy: Option<string>,
    sortOrder: Option<string>)

  /** The parameters before the user sets any: newest first. */
  const DefaultQuery := ListQuery(None, None, None, Some("DateAdded"), Some("desc"))

  /** The search term occurs in the title or in the description, when there is one. */
  predicate MatchesTerm(term: string, g: Game) {
    Contains(g.title, term) || (g.description.Some? && Contains(g.description.value, term))
  }

  /** The status the filter text names, if the filter is set and parses. */
  function StatusFilterOf(text: Option<string>): (r: Option<GameStatus>)
    ensures r.Some? ==> text.Some? && text.value == StatusName(r.value)
    ensures text.Some? && ParseStatus(text.value).Some? ==> r == ParseStatus(text.value)
  {
    if IsNullOrEmpty(text) then None else ParseStatus(text.value)
  }

  predicate PassesSearch(q: ListQuery, g: Game) {
    IsNullOrEmpty(q.searchTerm) || MatchesTerm(q.searchTerm.value, g)
  }

  predicate PassesStatus(q: ListQuery, g: Game) {
    StatusFilterOf(q.statusFilter).None? || g.status == StatusFilterOf(q.statusFilter).value
  }

  predicate PassesPlatform(q: ListQuery, g: Game) {
    IsNullOrEmpty(q.platformFilter) || g.platform == q.platformFilter.value
  }

  /** A record is listed when it passes every active filter. */
  predicate Listed(q: ListQuery, g: Game) {
    PassesSearch(q, g) && PassesStatus(q, g) && PassesPlatform(q, g)
  }

  /** With only the status text "Playing" set, a record is listed exactly when it is Playing. */
  lemma PlayingQueryListsPlaying(g: Game)
    ensures Listed(DefaultQuery.(statusFilter := Some("Playing")), g) <==> g.status == Playing
  {
    assert StatusFilterOf(Some("Playing")) == Some(Playing);
  }

  /** The sort key a `SortBy` value selects; anything unrecognised, absence
      included, selects the date added. */
  function SortFieldOf(sortBy: Option<string>): (f: SortField)
    ensures f == ByTitle <==> sortBy == Some("Title")
    ensures f == ByPlatform <==> sortBy == Some("Platform")
    ensures f == ByStatus <==> sortBy == Some("Status")
    ensures f == ByRating <==> sortBy == Some("Rating")
    ensures f == ByDateAdded <==> sortBy !in {Some("Title"), Some("Platform"), Some("Status"), Some("Rating")}
  {
    match sortBy
    case Some("Title") => ByTitle
    case Some("Platform") => ByPlatform
    case Some("Status") => ByStatus
    case Some("Rating") => ByRating
    case _ => ByDateAdded
  }

  /** Only the exact text "asc" sorts ascending; every other value sorts descending. */
  predicate IsAscending(sortOrder: Option<string>) {
    sortOrder == Some("asc")
  }

  /** The list the page shows: each filter narrows the previous result, then
      the survivors are ordered by the selected key. */
  function ListGames(store: seq<Game>, q: ListQuery): (r: seq<Game>)
    ensures forall g :: multiset(r)[g] == if Listed(q, g) then multiset(store)[g] else 0
    ensures SortedBy(SortFieldOf(q.sortBy), IsAscending(q.sortOrder), r)
  {
    var bySearch :=
      if IsNullOrEmpty(q.searchTerm) then store
      else Where(store, (g: Game) => MatchesTerm(q.searchTerm.value, g));
    var byStatus :=
      match StatusFilterOf(q.statusFilter)
      case None => bySearch
      case Some(s) => Where(bySearch, (g: Game) => g.status == s);
    var byPlatform :=
      if IsNullOrEmpty(q.platformFilter) then byStatus
      else Where(byStatus, (g: Game) => g.platform == q.platformFilter.value);
    SortGames(SortFieldOf(q.sortBy), IsAscending(q.sortOrder), byPlatform)
  }

  /** A status filter that is empty or does not name a status is ignored. */
  lemma UnparsedStatusIgnored(store: seq<Game>, q: ListQuery)
    requires StatusFilterOf(q.statusFilter).None?
    ensures ListGames(store, q) == ListGames(store, q.(statusFilter := None))
  {
  }

  /** Filtering by a platform and by its complement splits the table: together
      they hold every record exactly once. */
  lemma PlatformFilterPartition(store: seq<Game>, q: ListQuery, platform: string)
    requires IsNullOrEmpty(q.searchTerm) && IsNullOrEmpty(q.statusFilter) && platform != ""
    ensures multiset(ListGames(store, q.(platformFilter := Some(platform))))
          + multiset(Where(store, (g: Game) => g.platform != platform)) == multiset(store)
  {
    var r := ListGames(store, q.(platformFilter := Some(platform)));
    var on := (g: Game) => g.platform == platform;
    var off := (g: Game) => g.platform != platform;
    WherePartition(store, on, off);
    assert multiset(r) == multiset(Where(store, on)) by {
      forall x
        ensures multiset(r)[x] == multiset(Where(store, on))[x]
      {
      }
    }
  }

  /** Strictly ascending in ordinal order, hence free of duplicates. */
  ghost predicate StrictlyAscending(s: seq<string>) {
    forall i, j :: 0 <= i < j < |s| ==> LexLt(s[i], s[j])
  }

  /** Adds `p` to a strictly ascending list unless it is already there. */
  function InsertDistinct(p: string, s: seq<string>): (r: seq<string>)
    requires StrictlyAscending(s)
    ensures StrictlyAscending(r)
    ensures forall x :: x in r <==> x == p || x in s
  {
    if |s| == 0 then [p]
    else if p == s[0] then s
    else if LexLe(p, s[0]) then
      PrependAscending(p, s);
      [p] + s
    else
      var rest := InsertDistinct(p, s[1..]);
      LexLeTotal(p, s[0]);
      assert s == [s[0]] + s[1..];
      ConsAscending(s, rest);
      [s[0]] + rest
  }

  lemma PrependAscending(p: string, s: seq<string>)
    requires StrictlyAscending(s) && |s| > 0 && LexLt(p, s[0])
    ensures StrictlyAscending([p] + s)
  {
    var r := [p] + s;
    forall i, j | 0 <= i < j < |r|
      ensures LexLt(r[i], r[j])
    {
      if i == 0 {
        if j > 1 {
          LexLeTransitive(p, s[0], s[j - 1]);
          if p == s[j - 1] {
            LexLeAntisymmetric(p, s[0]);
          }
        }
      } else {
        assert r[i] == s[i - 1] && r[j] == s[j - 1];
      }
    }
  }

  lemma ConsAscending(s: seq<string>, rest: seq<string>)
    requires StrictlyAscending(s) && |s| > 0 && StrictlyAscending(rest)
    requires forall x :: x in rest ==> x in s[1..] || LexLt(s[0], x)
    ensures StrictlyAscending([s[0]] + rest)
  {
    var r := [s[0]] + rest;
    forall i, j | 0 <= i < j < |r|
      ensures LexLt(r[i], r[j])
    {
      if i == 0 {
        assert r[j] in rest;
        if r[j] in s[1..] {
          var k :| 0 <= k < |s[1..]| && s[1..][k] == r[j];
          assert s[k + 1] == r[j];
        }
      } else {
        assert r[i] == rest[i - 1] && r[j] == rest[j - 1];
      }
    }
  }

  /** The platform facet: every non-empty platform in use, once each, in ascending order. */
  function PlatformFacet(store: seq<Game>): (r: seq<string>)
    ensures StrictlyAscending(r)
    ensures forall i, j :: 0 <= i < j < |r| ==> r[i] != r[j]
    ensures forall p :: p in r <==> p != "" && exists g :: g in store && g.platform == p
  {
    if |store| == 0 then []
    else
      var rest := PlatformFacet(store[1..]);
      assert store == [store[0]] + store[1..];
      if store[0].platform == "" then rest
      else InsertDistinct(store[0].platform, rest)
  }
}
