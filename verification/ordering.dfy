/**
 * Sort keys over Game records and a sort that arranges a sequence by one key,
 * ascending or descending. Only the key order is promised: records with equal
 * keys may come out in any order, as the database gives no tie-break.
 */
module Ordering {
  import opened Wrappers
  import opened Text
  import opened Models

  /** The keys the list page and the dashboard order by. */
  datatype SortField = ByTitle | ByPlatform | ByStatus | ByRating | ByDateAdded | ByDateCompleted

  /** Order on optional integers; an absent value sorts before every present one. */
  predicate OptLe(a: Option<int>, b: Option<int>) {
    a.None? || (b.Some? && a.value <= b.value)
  }

  /** `a`'s key is at most `b`'s key for the chosen field. */
  predicate KeyLe(f: SortField, a: Game, b: Game) {
    match f
    case ByTitle => LexLe(a.title, b.title)
    case ByPlatform => LexLe(a.platform, b.platform)
    case ByStatus => StatusValue(a.status) <= StatusValue(b.status)
    case ByRating => OptLe(a.rating, b.rating)
    case ByDateAdded => a.dateAdded <= b.dateAdded
    case ByDateCompleted => OptLe(a.dateCompleted, b.dateCompleted)
  }

  /** `a` may come before `b` in a result ordered by `f` in the given direction. */
  predicate Precedes(f: SortField, ascending: bool, a: Game, b: Game) {
    if ascending then KeyLe(f, a, b) else KeyLe(f, b, a)
  }

  ghost predicate SortedBy(f: SortField, ascending: bool, s: seq<Game>) {
    forall i, j :: 0 <= i < j < |s| ==> Precedes(f, ascending, s[i], s[j])
  }

  lemma PrecedesTotal(f: SortField, ascending: bool, a: Game, b: Game)
    ensures Precedes(f, ascending, a, b) || Precedes(f, ascending, b, a)
  {
    match f
    case ByTitle => LexLeTotal(a.title, b.title);
    case ByPlatform => LexLeTotal(a.platform, b.platform);
    case _ =>
  }

  lemma PrecedesTransitive(f: SortField, ascending: bool, a: Game, b: Game, c: Game)
    requires Precedes(f, ascending, a, b) && Precedes(f, ascending, b, c)
    ensures Precedes(f, ascending, a, c)
  {
    match f
    case ByTitle =>
      if ascending { LexLeTransitive(a.title, b.title, c.title); }
      else { LexLeTransitive(c.title, b.title, a.title); }
    case ByPlatform =>
      if ascending { LexLeTransitive(a.platform, b.platform, c.platform); }
      else { LexLeTransitive(c.platform, b.platform, a.platform); }
    case _ =>
  }

  /** Putting `x` in front of a sorted sequence whose every element it may precede. */
  lemma PrependSorted(f: SortField, ascending: bool, x: Game, s: seq<Game>)
    requires SortedBy(f, ascending, s)
    requires forall y :: y in multiset(s) ==> Precedes(f, ascending, x, y)
    ensures SortedBy(f, ascending, [x] + s)
  {
    var r := [x] + s;
    forall i, j | 0 <= i < j < |r|
      ensures Precedes(f, ascending, r[i], r[j])
    {
      if i == 0 {
        assert r[j] == s[j - 1] && r[j] in multiset(s);
      } else {
        assert r[i] == s[i - 1] && r[j] == s[j - 1];
      }
    }
  }

  /** Inserts `x` into a sorted sequence, keeping it sorted. */
  function Insert(f: SortField, ascending: bool, x: Game, s: seq<Game>): (r: seq<Game>)
    requires SortedBy(f, ascending, s)
    ensures multiset(r) == multiset(s) + multiset{x}
    ensures SortedBy(f, ascending, r)
  {
    if |s| == 0 then [x]
    else if Precedes(f, ascending, x, s[0]) then
      InsertFront(f, ascending, x, s);
      [x] + s
    else
      var rest := Insert(f, ascending, x, s[1..]);
      InsertBehind(f, ascending, x, s, rest);
      assert s == [s[0]] + s[1..];
      [s[0]] + rest
  }

  lemma InsertFront(f: SortField, ascending: bool, x: Game, s: seq<Game>)
    requires SortedBy(f, ascending, s) && |s| > 0 && Precedes(f, ascending, x, s[0])
    ensures SortedBy(f, ascending, [x] + s)
  {
    forall y | y in multiset(s)
      ensures Precedes(f, ascending, x, y)
    {
      var j :| 0 <= j < |s| && s[j] == y;
      if j > 0 {
        PrecedesTransitive(f, ascending, x, s[0], y);
      }
    }
    PrependSorted(f, ascending, x, s);
  }

  lemma InsertBehind(f: SortField, ascending: bool, x: Game, s: seq<Game>, rest: seq<Game>)
    requires SortedBy(f, ascending, s) && |s| > 0 && !Precedes(f, ascending, x, s[0])
    requires SortedBy(f, ascending, rest)
    requires multiset(rest) == multiset(s[1..]) + multiset{x}
    ensures SortedBy(f, ascending, [s[0]] + rest)
  {
    PrecedesTotal(f, ascending, x, s[0]);
    forall y | y in multiset(rest)
      ensures Precedes(f, ascending, s[0], y)
    {
      if y != x {
        assert y in multiset(s[1..]);
        var j :| 0 <= j < |s[1..]| && s[1..][j] == y;
        assert s[j + 1] == y;
      }
    }
    PrependSorted(f, ascending, s[0], rest);
  }

  /** Orders `s` by `f`: `OrderBy` when ascending, `OrderByDescending` otherwise. */
  function SortGames(f: SortField, ascending: bool, s: seq<Game>): (r: seq<Game>)
    ensures multiset(r) == multiset(s)
    ensures SortedBy(f, ascending, r)
  {
    if |s| == 0 then []
    else
      assert s == [s[0]] + s[1..];
      Insert(f, ascending, s[0], SortGames(f, ascending, s[1..]))
  }
}
