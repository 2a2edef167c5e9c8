/**
 * The game-catalog lookup behind the add flow, as implemented by the mock
 * provider: a fixed list of five entries, searched by case-insensitive
 * substring of the title and looked up by exact id.
 */
module Catalog {
  import opened Wrappers
  import opened Text
  import opened Models

  /** A catalog entry with everything the add flow can copy from it. */
  datatype GameDetails = GameDetails(
    id: string,
    title: string,
    description: Option<string>,
    imageUrl: Option<string>,
    releaseDate: Option<Timestamp>,
    genre: Option<string>,
    platforms: seq<string>)

  /** The summary a search returns for one entry. */
  datatype SearchResult = SearchResult(
    id: string,
    title: string,
    imageUrl: Option<string>,
    releaseDate: Option<Timestamp>,
    genre: Option<string>)

  function Summary(d: GameDetails): SearchResult {
    SearchResult(d.id, d.title, d.imageUrl, d.releaseDate, d.genre)
  }

  /** The titles of the mock provider's entries. */
  const ZeldaTitle := "The Legend of Zelda: Breath of the Wild"
  const CyberpunkTitle := "Cyberpunk 2077"
  const EldenRingTitle := "Elden Ring"
  const GodOfWarTitle := "God of War"
  const HollowKnightTitle := "Hollow Knight"

  /** The mock provider's fixed entries, in order. Release dates are written as
      the integer yyyymmdd; nothing but the add flow's copy ever reads them. */
  const Zelda: GameDetails :=
    GameDetails(
    "zelda-botw",
    ZeldaTitle,
    Some("Step into a world of discovery, exploration, and adventure in The Legend of Zelda: Breath of the Wild, a boundary-breaking new game in the acclaimed series."),
    Some("https://images.igdb.com/igdb/image/upload/t_cover_big/co1tmu.jpg"),
    Some(20170303),
    Some("Action-Adventure"),
    ["Nintendo Switch", "Wii U"])

  const Cyberpunk: GameDetails :=
    GameDetails(
    "cyberpunk-2077",
    CyberpunkTitle,
    Some("Cyberpunk 2077 is an open-world, action-adventure story set in Night City, a megalopolis obsessed with power, glamour and body modification."),
    Some("https://images.igdb.com/igdb/image/upload/t_cover_big/co1wyy.jpg"),
    Some(20201210),
    Some("RPG"),
    ["PC", "PlayStation 4", "PlayStation 5", "Xbox One", "Xbox Series X/S"])

  const EldenRing: GameDetails :=
    GameDetails(
    "elden-ring",
    EldenRingTitle,
    Some("THE NEW FANTASY ACTION RPG. Rise, Tarnished, and be guided by grace to brandish the power of the Elden Ring and become an Elden Lord in the Lands Between."),
    Some("https://images.igdb.com/igdb/image/upload/t_cover_big/co4jni.jpg"),
    Some(20220225),
    Some("Action RPG"),
    ["PC", "PlayStation 4", "PlayStation 5", "Xbox One", "Xbox Series X/S"])

  const GodOfWar: GameDetails :=
    GameDetails(
    "god-of-war",
    GodOfWarTitle,
    Some("His vengeance against the Gods of Olympus years behind him, Kratos now lives as a man in the realm of Norse Gods and monsters."),
    Some("https://images.igdb.com/igdb/image/upload/t_cover_big/co1tmu.jpg"),
    Some(20180420),
    Some("Action-Adventure"),
    ["PlayStation 4", "PC"])

  const HollowKnight: GameDetails :=
    GameDetails(
    "hollow-knight",
    HollowKnightTitle,
    Some("Forge your own path in Hollow Knight! An epic action adventure through a vast ruined kingdom of insects and heroes."),
    Some("https://images.igdb.com/igdb/image/upload/t_cover_big/co1rgr.jpg"),
    Some(20170224),
    Some("Metroidvania"),
    ["PC", "Nintendo Switch", "PlayStation 4", "Xbox One"])

  const MockCatalog: seq<GameDetails> := [Zelda, Cyberpunk, EldenRing, GodOfWar, HollowKnight]

  predicate TitleMatches(d: GameDetails, query: string) {
    ContainsIgnoreCase(d.title, query)
  }

  /** The summaries of the entries whose title contains `query`, ignoring case. */
  function SearchIn(entries: seq<GameDetails>, query: string): (r: seq<SearchResult>)
    ensures |r| <= |entries|
    ensures forall x :: x in r <==> exists e :: e in entries && TitleMatches(e, query) && x == Summary(e)
  {
    if |entries| == 0 then []
    else
      var rest := SearchIn(entries[1..], query);
      assert entries == [entries[0]] + entries[1..];
      (if TitleMatches(entries[0], query) then [Summary(entries[0])] else []) + rest
  }

  /** Each pair of results comes from two entries in the same relative order. */
  ghost predicate InEntryOrder(r: seq<SearchResult>, entries: seq<GameDetails>) {
    forall k, l :: 0 <= k < l < |r| ==> PairInEntryOrder(r[k], r[l], entries)
  }

  ghost predicate PairInEntryOrder(x: SearchResult, y: SearchResult, entries: seq<GameDetails>) {
    exists i, j :: 0 <= i < j < |entries| && x == Summary(entries[i]) && y == Summary(entries[j])
  }

  lemma InEntryOrderSkip(r: seq<SearchResult>, entries: seq<GameDetails>)
    requires |entries| > 0 && InEntryOrder(r, entries[1..])
    ensures InEntryOrder(r, entries)
  {
    var tail := entries[1..];
    forall k, l | 0 <= k < l < |r|
      ensures PairInEntryOrder(r[k], r[l], entries)
    {
      assert PairInEntryOrder(r[k], r[l], tail);
      var i, j :| 0 <= i < j < |tail| && r[k] == Summary(tail[i]) && r[l] == Summary(tail[j]);
      assert entries[i + 1] == tail[i] && entries[j + 1] == tail[j];
    }
  }

  lemma InEntryOrderCons(rest: seq<SearchResult>, entries: seq<GameDetails>)
    requires |entries| > 0 && InEntryOrder(rest, entries[1..])
    requires forall x :: x in rest ==> exists e :: e in entries[1..] && x == Summary(e)
    ensures InEntryOrder([Summary(entries[0])] + rest, entries)
  {
    var r := [Summary(entries[0])] + rest;
    InEntryOrderSkip(rest, entries);
    forall k, l | 0 <= k < l < |r|
      ensures PairInEntryOrder(r[k], r[l], entries)
    {
      if k == 0 {
        assert r[l] == rest[l - 1] && r[l] in rest;
        var e :| e in entries[1..] && r[l] == Summary(e);
        var j :| 0 <= j < |entries[1..]| && entries[1..][j] == e;
        assert entries[j + 1] == e;
        assert r[k] == Summary(entries[0]);
      } else {
        assert r[k] == rest[k - 1] && r[l] == rest[l - 1];
        assert PairInEntryOrder(rest[k - 1], rest[l - 1], entries);
      }
    }
  }

  /** Results keep the catalog's order. */
  lemma {:induction false} SearchInKeepsOrder(entries: seq<GameDetails>, query: string)
    ensures InEntryOrder(SearchIn(entries, query), entries)
  {
    if |entries| == 0 {
      assert SearchIn(entries, query) == [];
    } else {
      SearchInKeepsOrder(entries[1..], query);
      var rest := SearchIn(entries[1..], query);
      if TitleMatches(entries[0], query) {
        InEntryOrderCons(rest, entries);
      } else {
        InEntryOrderSkip(rest, entries);
      }
    }
  }

  /** `SearchGamesAsync` of the mock provider. */
  function Search(query: string): (r: seq<SearchResult>)
    ensures |r| <= 5
    ensures forall x :: x in r <==> exists e :: e in MockCatalog && TitleMatches(e, query) && x == Summary(e)
  {
    SearchIn(MockCatalog, query)
  }

  /** `FirstOrDefault(g => g.Id == id)` over the entries. */
  function DetailsIn(entries: seq<GameDetails>, id: string): (r: Option<GameDetails>)
    ensures r.Some? <==> exists e :: e in entries && e.id == id
    ensures r.Some? ==> r.value.id == id
    ensures r.Some? ==> exists i :: 0 <= i < |entries| && entries[i] == r.value
                                    && forall j :: 0 <= j < i ==> entries[j].id != id
  {
    if |entries| == 0 then None
    else if entries[0].id == id then Some(entries[0])
    else
      var r := DetailsIn(entries[1..], id);
      assert entries == [entries[0]] + entries[1..];
      assert forall i :: 0 < i < |entries| ==> entries[i] == entries[1..][i - 1];
      r
  }

  /** `GetGameDetailsAsync` of the mock provider. */
  function Details(id: string): (r: Option<GameDetails>)
    ensures r.Some? <==> exists e :: e in MockCatalog && e.id == id
    ensures r.Some? ==> r.value.id == id && r.value in MockCatalog
  {
    DetailsIn(MockCatalog, id)
  }

  /** No two catalog entries share an id, so a lookup has at most one candidate. */
  lemma CatalogIdsDistinct()
    ensures forall i, j :: 0 <= i < j < |MockCatalog| ==> MockCatalog[i].id != MockCatalog[j].id
  {
  }

  /** A search every entry matches returns one summary per entry. */
  lemma {:induction false} SearchInAll(entries: seq<GameDetails>, query: string)
    requires forall i :: 0 <= i < |entries| ==> TitleMatches(entries[i], query)
    ensures |SearchIn(entries, query)| == |entries|
  {
    if |entries| > 0 {
      SearchInAll(entries[1..], query);
    }
  }

  /** Every title contains the empty string, so an empty query returns the whole catalog. */
  lemma SearchEmptyQueryReturnsAll()
    ensures |Search("")| == |MockCatalog|
    ensures forall e :: e in MockCatalog ==> Summary(e) in Search("")
  {
    forall i | 0 <= i < |MockCatalog|
      ensures TitleMatches(MockCatalog[i], "")
    {
      ContainsEmpty(ToLower(MockCatalog[i].title));
    }
    SearchInAll(MockCatalog, "");
  }

  /** A search where only the first entry matches returns just its summary. */
  lemma {:induction false} SearchInOnlyFirst(entries: seq<GameDetails>, query: string)
    requires |entries| > 0 && TitleMatches(entries[0], query)
    requires forall i :: 1 <= i < |entries| ==> !TitleMatches(entries[i], query)
    ensures SearchIn(entries, query) == [Summary(entries[0])]
  {
    SearchInNone(entries[1..], query);
  }

  /** A search where no entry matches returns nothing. */
  lemma {:induction false} SearchInNone(entries: seq<GameDetails>, query: string)
    requires forall i :: 0 <= i < |entries| ==> !TitleMatches(entries[i], query)
    ensures SearchIn(entries, query) == []
  {
    if |entries| > 0 {
      SearchInNone(entries[1..], query);
    }
  }

  lemma ZeldaTitleSpelling()
    ensures ZeldaTitle == "The Legend of " + "Zelda" + ": Breath of the Wild"
  {
  }

  lemma LowerZelda()
    ensures ToLower("zelda") == "zelda"
  {
    assert ToLower("zelda")[0] == 'z';
  }

  lemma ZeldaInFirstTitle()
    ensures TitleMatches(Zelda, "zelda")
  {
    ZeldaTitleSpelling();
    LowerZelda();
    assert ToLower(ZeldaTitle)[14..19] == "zelda";
    assert OccursAt(ToLower(ZeldaTitle), ToLower("zelda"), 14);
  }

  /** A title without the letters z and x, in either case, matches neither query. */
  lemma NoZeldaNoXyz(title: string)
    requires 'z' !in title && 'Z' !in title && 'x' !in title && 'X' !in title
    ensures !ContainsIgnoreCase(title, "zelda") && !ContainsIgnoreCase(title, "xyz-none")
  {
    LetterAbsentNoMatch(title, "zelda", 'z');
    LetterAbsentNoMatch(title, "xyz-none", 'x');
  }

  /** The first title has no x in either case. */
  lemma ZeldaTitleLacksX()
    ensures 'x' !in ZeldaTitle && 'X' !in ZeldaTitle
  {
    ZeldaTitleSpelling();
    assert 'x' !in "The Legend of " && 'X' !in "The Legend of ";
    assert 'x' !in "Zelda" && 'X' !in "Zelda";
    assert 'x' !in ": Breath of the Wild" && 'X' !in ": Breath of the Wild";
  }

  lemma CyberpunkTitleLacksZX()
    ensures 'z' !in CyberpunkTitle && 'Z' !in CyberpunkTitle && 'x' !in CyberpunkTitle && 'X' !in CyberpunkTitle
  {
  }

  lemma EldenRingTitleLacksZX()
    ensures 'z' !in EldenRingTitle && 'Z' !in EldenRingTitle && 'x' !in EldenRingTitle && 'X' !in EldenRingTitle
  {
  }

  lemma GodOfWarTitleLacksZX()
    ensures 'z' !in GodOfWarTitle && 'Z' !in GodOfWarTitle && 'x' !in GodOfWarTitle && 'X' !in GodOfWarTitle
  {
  }

  lemma HollowKnightTitleLacksZX()
    ensures 'z' !in HollowKnightTitle && 'Z' !in HollowKnightTitle && 'x' !in HollowKnightTitle && 'X' !in HollowKnightTitle
  {
  }

  lemma OtherTitlesLackZX()
    ensures forall i :: 1 <= i < |MockCatalog| ==>
      !TitleMatches(MockCatalog[i], "zelda") && !TitleMatches(MockCatalog[i], "xyz-none")
  {
    CyberpunkTitleLacksZX();
    NoZeldaNoXyz(CyberpunkTitle);
    EldenRingTitleLacksZX();
    NoZeldaNoXyz(EldenRingTitle);
    GodOfWarTitleLacksZX();
    NoZeldaNoXyz(GodOfWarTitle);
    HollowKnightTitleLacksZX();
    NoZeldaNoXyz(HollowKnightTitle);
  }

  /** Searching "zelda" finds exactly the Breath of the Wild entry. */
  lemma SearchZelda()
    ensures Search("zelda") == [Summary(Zelda)]
    ensures Search("zelda")[0].id == "zelda-botw"
  {
    ZeldaInFirstTitle();
    OtherTitlesLackZX();
    SearchInOnlyFirst(MockCatalog, "zelda");
  }

  /** The query "xyz-none", which no catalog title contains, finds nothing. */
  lemma SearchNoMatch()
    ensures Search("xyz-none") == []
  {
    ZeldaTitleLacksX();
    LetterAbsentNoMatch(ZeldaTitle, "xyz-none", 'x');
    OtherTitlesLackZX();
    SearchNoneMatching("xyz-none");
  }

  /** A query that no catalog title contains, ignoring case, finds nothing. */
  lemma SearchNoneMatching(query: string)
    requires forall e :: e in MockCatalog ==> !TitleMatches(e, query)
    ensures Search(query) == []
  {
    SearchInNone(MockCatalog, query);
  }
}
