/**
 * The home page's summary: record counts overall and per status, and the three
 * most recently added and most recently completed records.
 */
module Dashboard {
  import opened Sequences
  import opened Models
  import opened Ordering

  datatype Summary = Summary(
    totalGames: nat,
    wishlistCount: nat,
    playingCount: nat,
    completedCount: nat,
    recentlyAdded: seq<Game>,
    recentlyCompleted: seq<Game>)

  /** How many slots each "recent" list has. */
  const RecentCount := 3

  function Min(a: int, b: int): int {
    if a <= b then a else b
  }

  /** The number of records with status `s`. */
  function CountStatus(store: seq<Game>, s: GameStatus): (n: nat)
    ensures n <= |store|
    ensures n == |store| <==> forall i :: 0 <= i < |store| ==> store[i].status == s
    ensures n == 0 <==> forall i :: 0 <= i < |store| ==> store[i].status != s
  {
    if |store| == 0 then 0
    else (if store[0].status == s then 1 else 0) + CountStatus(store[1..], s)
  }

  /** The count agrees with the status filter: it is the length of the list of
      records with that status. */
  lemma {:induction false} CountStatusIsFilterLength(store: seq<Game>, s: GameStatus)
    ensures CountStatus(store, s) == |Where(store, (g: Game) => g.status == s)|
  {
    if |store| > 0 {
      CountStatusIsFilterLength(store[1..], s);
    }
  }

  /** The five status counts add up to the number of records. */
  lemma {:induction false} StatusCountsPartition(store: seq<Game>)
    ensures CountStatus(store, Wishlist) + CountStatus(store, Playing) + CountStatus(store, Completed)
          + CountStatus(store, OnHold) + CountStatus(store, Dropped) == |store|
  {
    if |store| > 0 {
      StatusCountsPartition(store[1..]);
    }
  }

  /** The first `RecentCount` records of a list ordered newest first, and the
      promise that nothing left out is newer than the last one kept. */
  function TopRecent(f: SortField, sorted: seq<Game>): (r: seq<Game>)
    requires SortedBy(f, false, sorted)
    ensures |r| == Min(RecentCount, |sorted|)
    ensures SortedBy(f, false, r)
    ensures multiset(r) + multiset(sorted[|r|..]) == multiset(sorted)
    ensures forall g :: g in multiset(sorted[|r|..]) ==> |r| > 0 && KeyLe(f, g, r[|r| - 1])
  {
    var n := Min(RecentCount, |sorted|);
    PrefixSplit(f, sorted, n);
    sorted[..n]
  }

  /** Cutting a newest-first list after `n` records keeps the prefix ordered and
      leaves behind nothing newer than the prefix's last record. */
  lemma PrefixSplit(f: SortField, sorted: seq<Game>, n: nat)
    requires SortedBy(f, false, sorted)
    requires n <= |sorted|
    requires n == 0 ==> sorted == []
    ensures SortedBy(f, false, sorted[..n])
    ensures multiset(sorted[..n]) + multiset(sorted[n..]) == multiset(sorted)
    ensures forall g :: g in multiset(sorted[n..]) ==> n > 0 && KeyLe(f, g, sorted[..n][n - 1])
  {
    assert sorted == sorted[..n] + sorted[n..];
    forall g | g in multiset(sorted[n..])
      ensures n > 0 && KeyLe(f, g, sorted[..n][n - 1])
    {
      var j :| 0 <= j < |sorted[n..]| && sorted[n..][j] == g;
      assert sorted[n + j] == g;
    }
  }

  /** Finished in the dashboard's sense: Completed and carrying a completion date. */
  predicate IsFinished(g: Game) {
    g.status == Completed && g.dateCompleted.Some?
  }

  /** The three most recently added records, newest first. */
  function RecentlyAdded(store: seq<Game>): (r: seq<Game>)
    ensures |r| == Min(RecentCount, |store|)
    ensures SortedBy(ByDateAdded, false, r)
    ensures multiset(r) <= multiset(store)
    ensures forall g :: g in multiset(store) - multiset(r) ==> g.dateAdded <= r[|r| - 1].dateAdded
  {
    var sorted := SortGames(ByDateAdded, false, store);
    TopRecent(ByDateAdded, sorted)
  }

  /** The three most recently completed finished records, latest first. */
  function RecentlyCompleted(store: seq<Game>): (r: seq<Game>)
    ensures |r| == Min(RecentCount, |Where(store, IsFinished)|)
    ensures forall g :: g in r ==> IsFinished(g)
    ensures SortedBy(ByDateCompleted, false, r)
    ensures multiset(r) <= multiset(store)
    ensures forall g :: g in multiset(store) - multiset(r) && IsFinished(g) ==>
      |r| > 0 && OptLe(g.dateCompleted, r[|r| - 1].dateCompleted)
  {
    var finished := Where(store, IsFinished);
    var sorted := SortGames(ByDateCompleted, false, finished);
    var r := TopRecent(ByDateCompleted, sorted);
    LeftOutFinished(store, finished, sorted, r);
    r
  }

  lemma LeftOutFinished(store: seq<Game>, finished: seq<Game>, sorted: seq<Game>, r: seq<Game>)
    requires forall g :: multiset(finished)[g] == if IsFinished(g) then multiset(store)[g] else 0
    requires multiset(sorted) == multiset(finished)
    requires |r| <= |sorted| && multiset(r) + multiset(sorted[|r|..]) == multiset(sorted)
    requires forall g :: g in multiset(sorted[|r|..]) ==> |r| > 0 && KeyLe(ByDateCompleted, g, r[|r| - 1])
    ensures forall g :: g in r ==> IsFinished(g)
    ensures multiset(r) <= multiset(store)
    ensures forall g :: g in multiset(store) - multiset(r) && IsFinished(g) ==>
      |r| > 0 && OptLe(g.dateCompleted, r[|r| - 1].dateCompleted)
  {
    forall g | g in r
      ensures IsFinished(g)
    {
      assert g in multiset(r);
    }
    forall g | g in multiset(store) - multiset(r) && IsFinished(g)
      ensures |r| > 0 && OptLe(g.dateCompleted, r[|r| - 1].dateCompleted)
    {
      assert g in multiset(sorted[|r|..]);
    }
  }

  /** The home page's figures for a table. */
  function Summarize(store: seq<Game>): (d: Summary)
    ensures d.totalGames == |store|
    ensures d.wishlistCount == CountStatus(store, Wishlist)
    ensures d.playingCount == CountStatus(store, Playing)
    ensures d.completedCount == CountStatus(store, Completed)
    ensures d.wishlistCount + d.playingCount + d.completedCount <= d.totalGames
    ensures d.recentlyAdded == RecentlyAdded(store)
    ensures d.recentlyCompleted == RecentlyCompleted(store)
  {
    StatusCountsPartition(store);
    Summary(|store|, CountStatus(store, Wishlist), CountStatus(store, Playing), CountStatus(store, Completed),
            RecentlyAdded(store), RecentlyCompleted(store))
  }
}
