/**
 * The three records the database is seeded with, as a fixture, and what the
 * list page and the dashboard report for them.
 */
module SeedData {
  import opened Wrappers
  import opened Models
  import opened Backlog
  import opened GamesList
  import opened Dashboard

  const Day := 86400

  /** The seed, dated relative to the moment `now` it is created. */
  function Seed(now: Timestamp): Store {
    [
      Game(1, "The Legend of Zelda: Breath of the Wild", "Nintendo Switch", Completed, Some(9), None,
           now - 30 * Day, Some(now - 5 * Day),
           Some("An open-world action-adventure game"), None, Some("Action-Adventure"), None, None),
      Game(2, "Cyberpunk 2077", "PC", Playing, None, None,
           now - 15 * Day, None,
           Some("A futuristic RPG set in Night City"), None, Some("RPG"), None, None),
      Game(3, "Elden Ring", "PlayStation 5", Wishlist, None, None,
           now - 7 * Day, None,
           Some("A dark fantasy action RPG"), None, Some("Action RPG"), None, None)
    ]
  }

  /** The seed is a legal table: unique ids and every record valid. */
  lemma SeedIsWellFormed(now: Timestamp)
    ensures UniqueIds(Seed(now))
    ensures forall i :: 0 <= i < |Seed(now)| ==> IsValid(Seed(now)[i])
  {
    var s := Seed(now);
    forall i | 0 <= i < |s|
      ensures IsValid(s[i])
    {
      assert !Text.IsWhiteSpace(s[i].title[0]);
      assert !Text.IsWhiteSpace(s[i].platform[0]);
    }
  }

  /** The dashboard over the seed: three records, one each of Wishlist, Playing and Completed. */
  lemma SeedDashboardCounts(now: Timestamp)
    ensures var d := Summarize(Seed(now));
      d.totalGames == 3 && d.wishlistCount == 1 && d.playingCount == 1 && d.completedCount == 1
  {
    var s := Seed(now);
    assert s == [s[0], s[1], s[2]];
    CountOfThree(s[0], s[1], s[2], Wishlist);
    CountOfThree(s[0], s[1], s[2], Playing);
    CountOfThree(s[0], s[1], s[2], Completed);
  }

  /** How a three-record table's count of one status is made up. */
  lemma CountOfThree(a: Game, b: Game, c: Game, st: GameStatus)
    ensures CountStatus([a, b, c], st)
         == (if a.status == st then 1 else 0) + (if b.status == st then 1 else 0) + (if c.status == st then 1 else 0)
  {
    assert [a, b, c][1..] == [b, c];
    assert [b, c][1..] == [c];
    assert [c][1..] == [];
  }

  /** A list holding, with their multiplicities, exactly the records that pass
      `q`, when only one record passes, is just that record. */
  lemma OnlyOneListed(r: seq<Game>, store: seq<Game>, q: ListQuery, k: int)
    requires forall g :: multiset(r)[g] == if Listed(q, g) then multiset(store)[g] else 0
    requires 0 <= k < |store| && Listed(q, store[k])
    requires forall i :: 0 <= i < |store| && i != k ==> !Listed(q, store[i])
    ensures r == [store[k]]
  {
    assert multiset(r) == multiset{store[k]} by {
      forall g
        ensures multiset(r)[g] == multiset{store[k]}[g]
      {
        if Listed(q, g) && g in store {
          var i :| 0 <= i < |store| && store[i] == g;
          assert i == k;
          assert store == store[..k] + [store[k]] + store[k + 1..];
          assert g !in store[..k] && g !in store[k + 1..] by {
            forall j | 0 <= j < |store| && j != k
              ensures store[j] != g
            {
            }
          }
        }
      }
    }
    assert |r| == 1 by {
      assert |multiset(r)| == 1;
    }
    assert r[0] in multiset(r);
  }

  /** Of the seed, only the Cyberpunk record passes the "Playing" status filter. */
  lemma SeedOnlyCyberpunkPlays(now: Timestamp)
    ensures var q := DefaultQuery.(statusFilter := Some("Playing"));
      && Listed(q, Seed(now)[1])
      && forall i :: 0 <= i < |Seed(now)| && i != 1 ==> !Listed(q, Seed(now)[i])
  {
    var s := Seed(now);
    PlayingQueryListsPlaying(s[0]);
    PlayingQueryListsPlaying(s[1]);
    PlayingQueryListsPlaying(s[2]);
  }

  /** Filtering the seed by the status text "Playing" lists exactly the Cyberpunk record. */
  lemma SeedPlayingFilter(now: Timestamp)
    ensures ListGames(Seed(now), DefaultQuery.(statusFilter := Some("Playing"))) == [Seed(now)[1]]
  {
    SeedOnlyCyberpunkPlays(now);
    var q := DefaultQuery.(statusFilter := Some("Playing"));
    OnlyOneListed(ListGames(Seed(now), q), Seed(now), q, 1);
  }
}
