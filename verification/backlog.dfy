/**
 * The games table as an immutable sequence of records: lookup by id, the id
 * the database assigns on insert, whole-record update and removal by id.
 */
module Backlog {
  import opened Wrappers
  import opened Models

  type Store = seq<Game>

  /** How a save handler ends: written, rejected by validation, or aimed at a
      missing id. The page's redirects and re-renders are not modelled. */
  datatype Outcome = Saved | Invalid | NotFound

  /** The outcome together with the table as it stands afterwards. */
  datatype Response = Response(outcome: Outcome, store: Store)

  predicate HasId(store: Store, id: int) {
    exists i :: 0 <= i < |store| && store[i].id == id
  }

  /** The primary key really is one: no two records share an id. */
  ghost predicate UniqueIds(store: Store) {
    forall i, j :: 0 <= i < j < |store| ==> store[i].id != store[j].id
  }

  /** `FirstOrDefault(g => g.Id == id)`: the first record with that id, if any. */
  function FindById(store: Store, id: int): (r: Option<Game>)
    ensures r.Some? <==> HasId(store, id)
    ensures r.Some? ==> r.value.id == id && r.value in store
    ensures r.Some? ==> exists i :: 0 <= i < |store| && store[i] == r.value
                                    && forall j :: 0 <= j < i ==> store[j].id != id
  {
    if |store| == 0 then None
    else if store[0].id == id then Some(store[0])
    else
      var r := FindById(store[1..], id);
      assert forall i :: 0 <= i < |store[1..]| ==> store[1..][i] == store[i + 1];
      assert HasId(store, id) ==> HasId(store[1..], id);
      r
  }

  /** A record found by id is the only one with that id when ids are unique. */
  lemma FindByIdUnique(store: Store, id: int, i: int)
    requires UniqueIds(store) && 0 <= i < |store| && store[i].id == id
    ensures FindById(store, id) == Some(store[i])
  {
  }

  /** The id the database assigns to an inserted record: one past the largest in use. */
  function NextId(store: Store): (r: int)
    ensures r >= 1
    ensures forall i :: 0 <= i < |store| ==> store[i].id < r
    ensures !HasId(store, r)
  {
    if |store| == 0 then 1
    else
      var rest := NextId(store[1..]);
      assert forall i :: 0 < i < |store| ==> store[i] == store[1..][i - 1];
      if store[0].id < rest then rest else store[0].id + 1
  }

  /** Writes `g` over the stored record that has its id; every other record is kept. */
  function Replace(store: Store, g: Game): (r: Store)
    ensures |r| == |store|
    ensures forall i :: 0 <= i < |store| && store[i].id != g.id ==> r[i] == store[i]
    ensures forall i :: 0 <= i < |store| && store[i].id == g.id ==> r[i] == g
  {
    if |store| == 0 then []
    else [if store[0].id == g.id then g else store[0]] + Replace(store[1..], g)
  }

  /** After a replace, the id leads to the new record. */
  lemma {:induction false} ReplaceThenFind(store: Store, g: Game)
    requires HasId(store, g.id)
    ensures FindById(Replace(store, g), g.id) == Some(g)
  {
    var r := Replace(store, g);
    assert r[0] == if store[0].id == g.id then g else store[0];
    if store[0].id != g.id {
      var k :| 0 <= k < |store| && store[k].id == g.id;
      assert store[1..][k - 1].id == g.id;
      ReplaceThenFind(store[1..], g);
      assert r[1..] == Replace(store[1..], g);
    }
  }

  /** Replacing a record keeps every id where it was, so the key stays unique. */
  lemma ReplaceKeepsUnique(store: Store, g: Game)
    requires UniqueIds(store)
    ensures UniqueIds(Replace(store, g))
  {
    var r := Replace(store, g);
    assert forall i :: 0 <= i < |store| ==> r[i].id == store[i].id;
  }

  /** Appending a record under an unused id: the id now finds it, and uniqueness survives. */
  lemma AppendThenFind(store: Store, g: Game)
    requires !HasId(store, g.id)
    ensures FindById(store + [g], g.id) == Some(g)
    ensures UniqueIds(store) ==> UniqueIds(store + [g])
  {
    var r := store + [g];
    assert forall i :: 0 <= i < |store| ==> r[i] == store[i];
    assert r[|store|] == g;
  }

  /** `Remove(FindAsync(id))`: drops the first record with that id, if there is one. */
  function RemoveById(store: Store, id: int): (r: Store)
    ensures !HasId(store, id) ==> r == store
    ensures HasId(store, id) ==> |r| == |store| - 1
    ensures forall g: Game :: g.id != id ==> multiset(r)[g] == multiset(store)[g]
    ensures multiset(r) <= multiset(store)
  {
    if |store| == 0 then []
    else
      var head, tail := store[0], store[1..];
      assert store == [head] + tail;
      assert forall i :: 0 < i < |store| ==> store[i] == tail[i - 1];
      if head.id == id then
        tail
      else
        assert HasId(store, id) <==> HasId(tail, id);
        [head] + RemoveById(tail, id)
  }

  /** With unique ids, removal takes out the only record with that id. */
  lemma {:induction false} RemoveByIdKeepsUnique(store: Store, id: int)
    requires UniqueIds(store)
    ensures UniqueIds(RemoveById(store, id))
    ensures !HasId(RemoveById(store, id), id)
  {
    if |store| > 0 {
      var head, tail := store[0], store[1..];
      assert forall i :: 0 < i < |store| ==> store[i] == tail[i - 1];
      assert UniqueIds(tail);
      if head.id == id {
        assert !HasId(tail, id);
      } else {
        RemoveByIdKeepsUnique(tail, id);
        var rest := RemoveById(tail, id);
        assert RemoveById(store, id) == [head] + rest;
        ConsUnique(store, rest);
        ConsLacksId(head, rest, id);
      }
    }
  }

  lemma ConsLacksId(head: Game, rest: Store, id: int)
    requires head.id != id && !HasId(rest, id)
    ensures !HasId([head] + rest, id)
  {
    forall i | 0 < i < |[head] + rest|
      ensures ([head] + rest)[i].id != id
    {
      assert ([head] + rest)[i] == rest[i - 1];
    }
  }

  lemma ConsUnique(store: Store, rest: Store)
    requires |store| > 0 && multiset(rest) <= multiset(store[1..])
    requires UniqueIds(store) && UniqueIds(rest)
    ensures UniqueIds([store[0]] + rest)
  {
    var r := [store[0]] + rest;
    forall i, j | 0 <= i < j < |r|
      ensures r[i].id != r[j].id
    {
      if i == 0 {
        assert r[j] in multiset(rest);
        var k :| 0 <= k < |store[1..]| && store[1..][k] == r[j];
        assert store[k + 1] == r[j];
      } else {
        assert r[i] == rest[i - 1] && r[j] == rest[j - 1];
      }
    }
  }

  /** Deleting twice is deleting once. */
  lemma RemoveByIdIdempotent(store: Store, id: int)
    requires UniqueIds(store)
    ensures RemoveById(RemoveById(store, id), id) == RemoveById(store, id)
  {
    RemoveByIdKeepsUnique(store, id);
  }

  /** After a delete, looking the id up finds nothing. */
  lemma RemoveThenFindNothing(store: Store, id: int)
    requires UniqueIds(store)
    ensures FindById(RemoveById(store, id), id).None?
  {
    RemoveByIdKeepsUnique(store, id);
  }
}
