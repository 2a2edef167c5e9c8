/**
 * The add page: a catalog search, the selection that copies a catalog entry
 * into the draft record, and the final insert.
 */
module AddGame {
  import opened Wrappers
  import opened Text
  import opened Models
  import opened Backlog
  import opened Catalog
  import opened EditGame

  /** The search handler: the catalog is asked only for a non-empty query;
      otherwise the page shows no results. */
  function SearchStep(query: Option<string>): (r: seq<SearchResult>)
    ensures IsNullOrEmpty(query) ==> r == []
    ensures !IsNullOrEmpty(query) ==> r == Search(query.value)
    ensures forall x :: x in r ==> exists e :: e in MockCatalog && TitleMatches(e, query.value) && x == Summary(e)
  {
    if IsNullOrEmpty(query) then [] else Search(query.value)
  }

  /** The draft with a catalog entry's details copied in; the platform takes the
      entry's first platform when it lists any. */
  function Enrich(draft: Game, d: GameDetails): Game {
    draft.(
      title := d.title,
      description := d.description,
      imageUrl := d.imageUrl,
      genre := d.genre,
      releaseDate := d.releaseDate,
      externalId := Some(d.id),
      platform := if |d.platforms| > 0 then d.platforms[0] else draft.platform)
  }

  /** The selection handler. An empty id or one the catalog does not know leaves
      the draft untouched; a known id fills in the enrichment fields and keeps
      the user's status, rating, notes and dates. */
  function SelectCandidate(draft: Game, selectedId: Option<string>): (r: Game)
    ensures IsNullOrEmpty(selectedId) ==> r == draft
    ensures !IsNullOrEmpty(selectedId) && Details(selectedId.value).None? ==> r == draft
    ensures !IsNullOrEmpty(selectedId) && Details(selectedId.value).Some? ==>
      var d := Details(selectedId.value).value;
      && r.title == d.title && r.description == d.description && r.imageUrl == d.imageUrl
      && r.genre == d.genre && r.releaseDate == d.releaseDate
      && r.externalId == Some(selectedId.value)
      && (|d.platforms| > 0 ==> r.platform == d.platforms[0])
      && (|d.platforms| == 0 ==> r.platform == draft.platform)
      && r.id == draft.id && r.status == draft.status && r.rating == draft.rating && r.notes == draft.notes
      && r.dateAdded == draft.dateAdded && r.dateCompleted == draft.dateCompleted
  {
    if IsNullOrEmpty(selectedId) then draft
    else
      match Details(selectedId.value)
      case None => draft
      case Some(d) => Enrich(draft, d)
  }

  /** A selected record points back at its catalog entry: looking up its
      external id returns an entry with the record's title. */
  lemma SelectionRoundTrip(draft: Game, selectedId: string)
    requires Details(selectedId).Some?
    ensures var r := SelectCandidate(draft, Some(selectedId));
      && r.externalId.Some?
      && Details(r.externalId.value) == Details(selectedId)
      && Details(r.externalId.value).value.title == r.title
  {
  }

  /** The record as inserted: date added is `now`, a Completed record without a
      completion date gets `now` too, and the database assigns the next id. */
  function Stamped(store: Store, draft: Game, now: Timestamp): Game {
    draft.(
      id := NextId(store),
      dateAdded := now,
      dateCompleted :=
        if draft.status == Completed && draft.dateCompleted.None? then Some(now)
        else draft.dateCompleted)
  }

  /** The add handler. An invalid draft is rejected and the table is unchanged;
      a valid one is appended under a fresh id. Unlike an edit, adding never
      clears a completion date the draft already carries. */
  function SaveNew(store: Store, draft: Game, now: Timestamp): (r: Response)
    ensures !IsValid(draft) ==> r == Response(Invalid, store)
    ensures IsValid(draft) ==>
      && r.outcome == Saved
      && |r.store| == |store| + 1
      && r.store[..|store|] == store
      && var g := r.store[|store|];
         && !HasId(store, g.id)
         && g.dateAdded == now
         && (draft.status == Completed && draft.dateCompleted.None? ==> g.dateCompleted == Some(now))
         && (draft.status != Completed || draft.dateCompleted.Some? ==> g.dateCompleted == draft.dateCompleted)
         && g == draft.(id := g.id, dateAdded := now, dateCompleted := g.dateCompleted)
  {
    if !IsValid(draft) then Response(Invalid, store)
    else
      var g := Stamped(store, draft, now);
      assert (store + [g])[..|store|] == store;
      Response(Saved, store + [g])
  }

  /** Adding then looking up the new id returns the draft, except for the fields
      the server fills in; the key stays unique. */
  lemma AddThenFind(store: Store, draft: Game, now: Timestamp)
    requires IsValid(draft)
    ensures var r := SaveNew(store, draft, now);
      var id := r.store[|store|].id;
      && FindById(r.store, id).Some?
      && FindById(r.store, id).value == draft.(id := id, dateAdded := now,
                                               dateCompleted := FindById(r.store, id).value.dateCompleted)
      && (UniqueIds(store) ==> UniqueIds(r.store))
  {
    AppendThenFind(store, Stamped(store, draft, now));
  }

  /** A non-Completed draft that carries a completion date keeps it when added,
      while an edit with the same status would clear it. */
  lemma AddKeepsWhatEditClears(store: Store, draft: Game, now: Timestamp)
    requires IsValid(draft) && draft.status != Completed && draft.dateCompleted.Some?
    ensures SaveNew(store, draft, now).store[|store|].dateCompleted == draft.dateCompleted
    ensures ApplyCompletionRule(draft, now).dateCompleted.None?
  {
  }
}
