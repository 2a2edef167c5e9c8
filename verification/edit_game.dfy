/**
 * The edit page: loading a record by id, and saving a posted record with the
 * completion-date rule applied.
 */
module EditGame {
  import opened Wrappers
  import opened Models
  import opened Backlog

  /** Loading for edit: no id, or an id with no record, is not found. */
  function LoadForEdit(store: Store, id: Option<int>): (r: Option<Game>)
    ensures r.None? <==> id.None? || !HasId(store, id.value)
    ensures r.Some? ==> r.value in store && r.value.id == id.value
  {
    match id
    case None => None
    case Some(k) => FindById(store, k)
  }

  /** The completion date on save: stamped with `now` when a Completed record
      has none, kept when it has one, cleared for every other status. */
  function ApplyCompletionRule(g: Game, now: Timestamp): (r: Game)
    ensures r.dateCompleted.Some? <==> r.status == Completed
    ensures g.status == Completed && g.dateCompleted.None? ==> r.dateCompleted == Some(now)
    ensures g.status == Completed && g.dateCompleted.Some? ==> r.dateCompleted == g.dateCompleted
    ensures r == g.(dateCompleted := r.dateCompleted)
  {
    if g.status == Completed && g.dateCompleted.None? then g.(dateCompleted := Some(now))
    else if g.status != Completed then g.(dateCompleted := None)
    else g
  }

  /** Applying the rule a second time changes nothing, even at a later `now`:
      a Completed record is never re-stamped. */
  lemma CompletionRuleIdempotent(g: Game, now: Timestamp, later: Timestamp)
    ensures ApplyCompletionRule(ApplyCompletionRule(g, now), later) == ApplyCompletionRule(g, now)
  {
  }

  /** Saving an edit: an invalid record is rejected and a vanished id is not
      found, both leaving the table as it was; otherwise the stored record is
      overwritten by the posted one with its completion date settled. */
  function SaveEdit(store: Store, posted: Game, now: Timestamp): (r: Response)
    ensures !IsValid(posted) ==> r == Response(Invalid, store)
    ensures IsValid(posted) && !HasId(store, posted.id) ==> r == Response(NotFound, store)
    ensures r.outcome == Saved <==> IsValid(posted) && HasId(store, posted.id)
    ensures r.outcome == Saved ==>
      && |r.store| == |store|
      && FindById(r.store, posted.id) == Some(ApplyCompletionRule(posted, now))
      && (forall i :: 0 <= i < |store| && store[i].id != posted.id ==> r.store[i] == store[i])
  {
    if !IsValid(posted) then Response(Invalid, store)
    else if !HasId(store, posted.id) then Response(NotFound, store)
    else
      var saved := ApplyCompletionRule(posted, now);
      ReplaceThenFind(store, saved);
      Response(Saved, Replace(store, saved))
  }

  /** An edit keeps the primary key unique. */
  lemma SaveEditKeepsUnique(store: Store, posted: Game, now: Timestamp)
    requires UniqueIds(store)
    ensures UniqueIds(SaveEdit(store, posted, now).store)
  {
    if IsValid(posted) && HasId(store, posted.id) {
      ReplaceKeepsUnique(store, ApplyCompletionRule(posted, now));
    }
  }

  /** A valid post for an existing id is saved, and the record stored under
      that id is still valid: the rule touches only the completion date. */
  lemma SavedEditIsValid(store: Store, posted: Game, now: Timestamp)
    requires IsValid(posted) && HasId(store, posted.id)
    ensures SaveEdit(store, posted, now).outcome == Saved
    ensures IsValid(FindById(SaveEdit(store, posted, now).store, posted.id).value)
  {
  }

  /** A record completed by this save is stamped no earlier than it was added,
      provided the clock has not gone back past its date added. */
  lemma CompletionNotBeforeAdded(g: Game, now: Timestamp)
    requires g.status == Completed && g.dateCompleted.None? && g.dateAdded <= now
    ensures ApplyCompletionRule(g, now).dateCompleted.value >= ApplyCompletionRule(g, now).dateAdded
  {
  }
}
