/** LINQ's `Where` over immutable sequences. */
module Sequences {

  /** The elements of `s` satisfying `keep`, in their original order. */
  function Where<T(!new)>(s: seq<T>, keep: T -> bool): (r: seq<T>)
    ensures |r| <= |s|
    ensures forall x :: multiset(r)[x] == if keep(x) then multiset(s)[x] else 0
  {
    if |s| == 0 then []
    else
      assert s == [s[0]] + s[1..];
      (if keep(s[0]) then [s[0]] else []) + Where(s[1..], keep)
  }

  /** Splitting a sequence by a predicate and its negation loses and adds nothing. */
  lemma WherePartition<T(!new)>(s: seq<T>, keep: T -> bool, drop: T -> bool)
    requires forall x :: drop(x) <==> !keep(x)
    ensures multiset(Where(s, keep)) + multiset(Where(s, drop)) == multiset(s)
  {
    var a, b := Where(s, keep), Where(s, drop);
    forall x
      ensures (multiset(a) + multiset(b))[x] == multiset(s)[x]
    {
    }
  }
}
