# Gaming backlog: a Dafny model of the core

This project models the core of GamingBacklogWebApp, an ASP.NET Razor Pages
application. It keeps a personal backlog of video games, each with a status,
an optional rating and optional details copied from a game catalog. The model covers:

- the `Game` record, its status enum and the validation its data annotations impose
  (`Models`);
- the edit flow, with the completion-date rule (`EditGame`);
- the add flow: catalog search, selection of a catalog entry into the draft,
  and the insert with its date stamping (`AddGame`);
- the games list: the search, status and platform filters, the sort, the platform
  facet and delete (`GamesList`, `Ordering`, `Backlog`);
- the dashboard figures (`Dashboard`);
- the mock catalog provider (`Catalog`);
- the seeded sample data, as a fixture (`SeedData`).

The database table is a `seq<Game>`. Each page handler is a pure function from
the table, the bound input and the current time to a result and the new table.
`Text` holds the string operations the handlers use. `Sequences` holds a
generic LINQ-style `Where`. `Wrappers` holds `Option`.

Three behaviours of the code are easy to miss:

- An empty catalog query matches every entry in the provider
  (`Catalog.SearchEmptyQueryReturnsAll`). The page shows no results only
  because the add page never calls the provider with an empty query
  (`AddGame.SearchStep`).
- The list and dashboard sorts set no tie-break. The model promises only the
  key order.
- `Platform` carries no `[Required]` attribute, but it is a non-nullable
  `string` next to `string?` properties, so the project compiles with nullable
  reference types enabled. ASP.NET Core then validates it as required, and a
  blank platform binds to null. The model therefore rejects a blank platform
  (`Models.Validate`, error `PlatformRequired`).

## Model

| member | source | states |
|---|---|---|
| `Models.StatusOfValue` | GamingBacklogWebApp/Models/Game.cs:44-51 | an integer names a status exactly when it is 0 to 4, and the status found has that underlying value |
| `Models.StatusValueRoundTrip` | GamingBacklogWebApp/Models/Game.cs:44-51 | every status's underlying value is below five and maps back to the same status |
| `Models.ParseStatus` | GamingBacklogWebApp/Pages/Games.cshtml.cs:48 | parsing succeeds exactly on the five member names and returns the status whose name was given |
| `Models.NewGame` | GamingBacklogWebApp/Models/Game.cs:7-41 | a fresh record is a Wishlist with no completion date, empty title and platform, date added = now, and is not valid until a title and a platform are bound |
| `Models.Validate` | GamingBacklogWebApp/Models/Game.cs:9-37 | the error set is empty iff the record is valid; each error is reported iff its own annotation fails (title required, title 200, platform required, platform 50, rating 0..10, notes 1000, description 500, image URL 200, genre 100) |
| `Models.ValidIffNoViolation` | GamingBacklogWebApp/Models/Game.cs:9-37 | a record is valid exactly when it breaks none of the annotations |
| `Models.ValidityIgnoresUnannotatedFields` | GamingBacklogWebApp/Models/Game.cs:7-41 | changing the id, status, dates or external id never changes whether a record is valid |
| `Text.ContainsEmpty` | GamingBacklogWebApp/Services/GameDataService.cs:93 | every string contains the empty string |
| `Text.ContainsImpliesContainsIgnoreCase` | GamingBacklogWebApp/Services/GameDataService.cs:93 | an exact substring match is also a case-insensitive one |
| `Text.LexLeTotal` | GamingBacklogWebApp/Pages/Games.cshtml.cs:61-62 | any two strings are comparable in ordinal order |
| `Text.LexLeTransitive` | GamingBacklogWebApp/Pages/Games.cshtml.cs:61-62 | ordinal order on strings is transitive |
| `Text.LexLeAntisymmetric` | GamingBacklogWebApp/Pages/Games.cshtml.cs:61-62 | two strings each ordinally at most the other are equal |
| `Sequences.Where` | GamingBacklogWebApp/Pages/Games.cshtml.cs:42-56 | a filter keeps every copy of each element that passes and no copy of any that fails |
| `Sequences.WherePartition` | GamingBacklogWebApp/Pages/Games.cshtml.cs:53-56 | filtering by a predicate and by its negation together yield the whole input |
| `Ordering.PrecedesTotal` | GamingBacklogWebApp/Pages/Games.cshtml.cs:59-66 | for every sort key and direction, any two records can be placed one before the other |
| `Ordering.PrecedesTransitive` | GamingBacklogWebApp/Pages/Games.cshtml.cs:59-66 | the order a sort key induces is transitive in both directions |
| `Ordering.Insert` | GamingBacklogWebApp/Pages/Games.cshtml.cs:59-66 | inserting into a sorted list keeps it sorted and adds exactly the one record |
| `Ordering.SortGames` | GamingBacklogWebApp/Pages/Games.cshtml.cs:59-66 | the result is a permutation of the input, ordered by the key in the requested direction |
| `Backlog.FindById` | GamingBacklogWebApp/Pages/EditGame.cshtml.cs:28 | a record is found iff one has the id; it is in the table, carries the id, and no earlier record has it |
| `Backlog.FindByIdUnique` | GamingBacklogWebApp/Pages/EditGame.cshtml.cs:28 | with unique ids, the lookup returns the record at whatever position holds the id |
| `Backlog.NextId` | GamingBacklogWebApp/Pages/AddGame.cshtml.cs:83-84 | the id the database assigns is positive and used by no record in the table |
| `Backlog.Replace` | GamingBacklogWebApp/Pages/EditGame.cshtml.cs:55-59 | saving a modified record overwrites the record with its id and leaves every other position as it was |
| `Backlog.ReplaceThenFind` | GamingBacklogWebApp/Pages/EditGame.cshtml.cs:55-59 | after the overwrite, looking the id up returns the saved record |
| `Backlog.ReplaceKeepsUnique` | GamingBacklogWebApp/Pages/EditGame.cshtml.cs:55-59 | an overwrite keeps the ids unique |
| `Backlog.AppendThenFind` | GamingBacklogWebApp/Pages/AddGame.cshtml.cs:83-84 | a record added under an unused id is what its id then finds, and uniqueness survives |
| `Backlog.RemoveById` | GamingBacklogWebApp/Pages/Games.cshtml.cs:79-88 | delete of an unknown id changes nothing; otherwise exactly one record goes, and every record with another id is kept with its multiplicity |
| `Backlog.RemoveByIdKeepsUnique` | GamingBacklogWebApp/Pages/Games.cshtml.cs:81-85 | with unique ids, a delete keeps the ids unique and leaves no record with the deleted id |
| `Backlog.RemoveByIdIdempotent` | GamingBacklogWebApp/Pages/Games.cshtml.cs:81-85 | deleting the same id twice is deleting it once |
| `Backlog.RemoveThenFindNothing` | GamingBacklogWebApp/Pages/Games.cshtml.cs:81-85 | after a delete, the id finds nothing |
| `EditGame.LoadForEdit` | GamingBacklogWebApp/Pages/EditGame.cshtml.cs:21-36 | no id or an unknown id is not found; otherwise the loaded record is in the table and has the id |
| `EditGame.ApplyCompletionRule` | GamingBacklogWebApp/Pages/EditGame.cshtml.cs:45-53 | after the rule, a record has a completion date iff it is Completed; a missing date is stamped with now, an existing one is kept; nothing else changes |
| `EditGame.CompletionRuleIdempotent` | GamingBacklogWebApp/Pages/EditGame.cshtml.cs:45-53 | applying the rule again, even later, changes nothing, so a completed record is never re-stamped |
| `EditGame.SaveEdit` | GamingBacklogWebApp/Pages/EditGame.cshtml.cs:38-74 | an invalid post and a vanished id leave the table as it was; a save happens iff the post is valid and the id exists, and then the id finds the post with its completion date settled while other records stay put |
| `EditGame.SaveEditKeepsUnique` | GamingBacklogWebApp/Pages/EditGame.cshtml.cs:55-59 | an edit keeps the ids unique |
| `EditGame.SavedEditIsValid` | GamingBacklogWebApp/Pages/EditGame.cshtml.cs:40-53 | a valid post for an existing id is saved, and the record then stored under that id is valid |
| `EditGame.CompletionNotBeforeAdded` | GamingBacklogWebApp/Pages/EditGame.cshtml.cs:46-49 | a record completed by this save is dated no earlier than it was added, when now is not before its date added |
| `AddGame.SearchStep` | GamingBacklogWebApp/Pages/AddGame.cshtml.cs:35-43 | an empty query shows no results; otherwise the page shows the catalog's matches, each the summary of a matching entry |
| `AddGame.SelectCandidate` | GamingBacklogWebApp/Pages/AddGame.cshtml.cs:45-68 | an empty or unknown id leaves the draft alone; a known one copies title, description, image, genre, release date and id in, takes the first platform when there is one, and keeps the user's own fields |
| `AddGame.SelectionRoundTrip` | GamingBacklogWebApp/Pages/AddGame.cshtml.cs:52-57 | the selected record's external id looks up the same catalog entry, whose title the record carries |
| `AddGame.SaveNew` | GamingBacklogWebApp/Pages/AddGame.cshtml.cs:70-87 | an invalid draft leaves the table; a valid one is appended under a fresh id with date added = now, a Completed draft without a date stamped now, and every other field as drafted |
| `AddGame.AddThenFind` | GamingBacklogWebApp/Pages/AddGame.cshtml.cs:77-84 | the new id finds the draft with only the server-filled fields changed, and ids stay unique |
| `AddGame.AddKeepsWhatEditClears` | GamingBacklogWebApp/Pages/AddGame.cshtml.cs:78-81 | adding a non-Completed draft keeps a completion date it carries, which the edit rule would clear |
| `GamesList.StatusFilterOf` | GamingBacklogWebApp/Pages/Games.cshtml.cs:48 | the filter yields a status only for non-empty text naming it, and always when the text parses |
| `GamesList.SortFieldOf` | GamingBacklogWebApp/Pages/Games.cshtml.cs:59-66 | each of Title, Platform, Status and Rating selects its own key, and every other value, absence included, selects date added |
| `GamesList.ListGames` | GamingBacklogWebApp/Pages/Games.cshtml.cs:39-68 | the list holds exactly the records passing every active filter, with their multiplicities, ordered by the selected key and direction |
| `GamesList.UnparsedStatusIgnored` | GamingBacklogWebApp/Pages/Games.cshtml.cs:48-51 | a status filter that is empty or names no status lists the same as no filter |
| `GamesList.PlatformFilterPartition` | GamingBacklogWebApp/Pages/Games.cshtml.cs:53-56 | the records listed for a platform and those on any other platform together make up the table |
| `GamesList.PlayingQueryListsPlaying` | GamingBacklogWebApp/Pages/Games.cshtml.cs:48-51 | with the status filter "Playing", a record is listed iff it is Playing |
| `GamesList.InsertDistinct` | GamingBacklogWebApp/Pages/Games.cshtml.cs:74-75 | adding a platform to the ascending distinct list keeps it ascending and distinct, and adds just that platform |
| `GamesList.PlatformFacet` | GamingBacklogWebApp/Pages/Games.cshtml.cs:71-76 | the facet lists, ascending and once each, exactly the non-empty platforms in use |
| `Dashboard.CountStatus` | GamingBacklogWebApp/Pages/Index.cshtml.cs:30-32 | a status count is at most the total; it is the total iff all records have the status, and zero iff none do |
| `Dashboard.CountStatusIsFilterLength` | GamingBacklogWebApp/Pages/Index.cshtml.cs:30-32 | a status count is the length of the table filtered by that status |
| `Dashboard.StatusCountsPartition` | GamingBacklogWebApp/Pages/Index.cshtml.cs:29-32 | the counts of the five statuses add up to the total |
| `Dashboard.TopRecent` | GamingBacklogWebApp/Pages/Index.cshtml.cs:35-36 | taking three from a newest-first list keeps min(3, n) records in order, and nothing left behind is newer than the last one kept |
| `Dashboard.RecentlyAdded` | GamingBacklogWebApp/Pages/Index.cshtml.cs:34-37 | min(3, total) records from the table, newest first, and no record left out was added later than the last shown |
| `Dashboard.RecentlyCompleted` | GamingBacklogWebApp/Pages/Index.cshtml.cs:39-43 | min(3, number finished) records, all Completed with a date, latest first, and no finished record left out was completed later than the last shown |
| `Dashboard.Summarize` | GamingBacklogWebApp/Pages/Index.cshtml.cs:29-43 | total, per-status counts (never summing past the total) and the two recent lists |
| `Catalog.SearchIn` | GamingBacklogWebApp/Services/GameDataService.cs:92-102 | results are exactly the summaries of entries whose title contains the query, ignoring case, and never outnumber the entries |
| `Catalog.SearchInKeepsOrder` | GamingBacklogWebApp/Services/GameDataService.cs:92-102 | results come in catalog order |
| `Catalog.Search` | GamingBacklogWebApp/Services/GameDataService.cs:88-105 | at most five results, exactly the summaries of matching catalog entries |
| `Catalog.DetailsIn` | GamingBacklogWebApp/Services/GameDataService.cs:111 | an entry is found iff one has the id; it carries the id and is the first such entry |
| `Catalog.Details` | GamingBacklogWebApp/Services/GameDataService.cs:107-112 | the provider finds an entry iff the catalog has that id, and returns a catalog entry with that id |
| `Catalog.CatalogIdsDistinct` | GamingBacklogWebApp/Services/GameDataService.cs:34-86 | no two catalog entries share an id |
| `Catalog.SearchEmptyQueryReturnsAll` | GamingBacklogWebApp/Services/GameDataService.cs:92-93 | the provider answers an empty query with every entry |
| `Catalog.SearchZelda` | GamingBacklogWebApp/Services/GameDataService.cs:34-105 | the query "zelda" finds only Breath of the Wild, id "zelda-botw" |
| `Catalog.SearchNoneMatching` | GamingBacklogWebApp/Services/GameDataService.cs:92-102 | any query that no catalog title contains, ignoring case, finds nothing |
| `Catalog.SearchNoMatch` | GamingBacklogWebApp/Services/GameDataService.cs:34-105 | the query "xyz-none" finds nothing |
| `SeedData.SeedIsWellFormed` | GamingBacklogWebApp/Data/GamingBacklogContext.cs:19-52 | the seed has unique ids and every seeded record is valid |
| `SeedData.SeedDashboardCounts` | GamingBacklogWebApp/Data/GamingBacklogContext.cs:19-52 | over the seed the dashboard shows three games, one Wishlist, one Playing, one Completed |
| `SeedData.SeedPlayingFilter` | GamingBacklogWebApp/Data/GamingBacklogContext.cs:34-41 | filtering the seed by "Playing" lists only Cyberpunk 2077 |

## Left out

- Asynchronous execution, the simulated provider delay, Entity Framework change tracking and the connection are not modelled. Every handler is a pure function of the table.
- The clock is not modelled. `DateTime.Now` is a `now` parameter in whole seconds, and `AddDays` is a multiple of 86 400.
- Model binding, the model-state dictionary, page results, redirects and the rendering of the pages are left out. Each handler returns an outcome of `Saved`, `Invalid` or `NotFound` instead.
- EditGame.SaveEdit does not model the rethrow of a concurrency exception for a record that still exists (EditGame.cshtml.cs:69). The table is not shared, so that race cannot occur.
- Enum.TryParse quirks are left out: numeric strings, comma lists, surrounding white space and the `ignoreCase` overload. Only the five exact names parse.
- The list search's `Contains` is modelled as an ordinal, case-sensitive match. Its real case sensitivity depends on the database collation.
- The Title and Platform sorts and the platform facet assume a binary collation that compares characters by code point. The database's collation may order strings differently.
- Models.Validate counts string lengths in Unicode scalar values, where .NET's `StringLength` counts UTF-16 code units. The two differ for characters outside the Basic Multilingual Plane, which count once here and twice in .NET, so the model accepts some long strings that the application rejects.
- Models.Validate assumes nullable reference types are enabled for `Platform`. The project file that would settle this is not part of this model.
- Case-insensitive catalog search folds only ASCII letters. Culture-specific and non-ASCII case mappings are left out.
- The database's identity column is modelled as one more than the largest id in use.
- Catalog release dates are integers written yyyymmdd. Nothing computes with them.
- Rating sorts with absent ratings before every present one. This is a choice, because the database provider decides where nulls go.
- Ordering.SortGames does not order records with equal keys. The code sets no tie-break, so their relative order is whatever the database returns.
- Dashboard.RecentlyAdded and Dashboard.RecentlyCompleted state the key order, not which of several records with equal keys are shown. That choice is the database's too.
- The client-side script under wwwroot is not part of this model.
- The hosting set-up, the migrations and the layout pages are not part of this model.
