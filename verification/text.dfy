/**
 * String helpers used by the backlog: .NET's null/empty/whitespace tests,
 * ordinal substring search, ASCII case folding and ordinal string order.
 * A Dafny `char` is a Unicode scalar value, so a string here is a sequence of
 * scalar values where .NET has UTF-16 code units; the two agree on every
 * character of the Basic Multilingual Plane.
 */
module Text {
  import opened Wrappers

  /** `string.IsNullOrEmpty`. */
  predicate IsNullOrEmpty(s: Option<string>) {
    s.None? || s.value == ""
  }

  /** `char.IsWhiteSpace`: the Unicode space separators plus the line/paragraph
      separators and the control characters U+0009..U+000D and U+0085. */
  predicate IsWhiteSpace(c: char) {
    var u := c as int;
    || (0x09 <= u <= 0x0D) || u == 0x20 || u == 0x85 || u == 0xA0 || u == 0x1680
    || (0x2000 <= u <= 0x200A) || u == 0x2028 || u == 0x2029 || u == 0x202F
    || u == 0x205F || u == 0x3000
  }

  /** `string.IsNullOrWhiteSpace`: absent, empty, or only whitespace. */
  predicate IsNullOrWhiteSpace(s: Option<string>) {
    s.None? || forall i :: 0 <= i < |s.value| ==> IsWhiteSpace(s.value[i])
  }

  /** `t` occurs in `s` starting at position `i`. */
  predicate OccursAt(s: string, t: string, i: int) {
    0 <= i && i + |t| <= |s| && s[i..i + |t|] == t
  }

  /** Ordinal `string.Contains`: `t` occurs in `s` at some position. */
  predicate Contains(s: string, t: string) {
    exists i :: 0 <= i <= |s| - |t| && OccursAt(s, t, i)
  }

  /** Every string contains the empty string. */
  lemma ContainsEmpty(s: string)
    ensures Contains(s, "")
  {
    assert OccursAt(s, "", 0);
  }

  /** ASCII case folding: 'A'..'Z' map to 'a'..'z', every other character is kept. */
  function ToLowerChar(c: char): (r: char)
    ensures 'A' <= c <= 'Z' ==> 'a' <= r <= 'z' && r as int - c as int == 32
    ensures !('A' <= c <= 'Z') ==> r == c
  {
    if 'A' <= c <= 'Z' then (c as int + 32) as char else c
  }

  function ToLower(s: string): string {
    seq(|s|, i requires 0 <= i < |s| => ToLowerChar(s[i]))
  }

  /** `s.Contains(t, StringComparison.OrdinalIgnoreCase)`, with ASCII folding only. */
  predicate ContainsIgnoreCase(s: string, t: string) {
    Contains(ToLower(s), ToLower(t))
  }

  /** An ordinal match is also a case-insensitive one. */
  lemma ContainsImpliesContainsIgnoreCase(s: string, t: string)
    requires Contains(s, t)
    ensures ContainsIgnoreCase(s, t)
  {
    var i :| 0 <= i <= |s| - |t| && OccursAt(s, t, i);
    var ls, lt := ToLower(s), ToLower(t);
    assert ls[i..i + |t|] == lt by {
      forall k | 0 <= k < |t|
        ensures ls[i..i + |t|][k] == lt[k]
      {
        assert s[i..i + |t|][k] == t[k];
      }
    }
    assert OccursAt(ls, lt, i);
  }

  /** A non-empty `t` can only occur in `s` if its first character does. */
  lemma ContainsHeadChar(s: string, t: string)
    requires |t| > 0
    ensures Contains(s, t) ==> t[0] in s
  {
    if Contains(s, t) {
      var i :| 0 <= i <= |s| - |t| && OccursAt(s, t, i);
      assert s[i..i + |t|][0] == s[i];
    }
  }

  /** A string with neither case of the letter `c` has no case-insensitive
      match for a pattern that starts with `c`. */
  lemma LetterAbsentNoMatch(s: string, t: string, c: char)
    requires 'a' <= c <= 'z' && |t| > 0 && ToLowerChar(t[0]) == c
    requires c !in s && (c as int - 32) as char !in s
    ensures !ContainsIgnoreCase(s, t)
  {
    forall i | 0 <= i < |s|
      ensures ToLower(s)[i] != c
    {
      assert s[i] in s;
    }
    ContainsHeadChar(ToLower(s), ToLower(t));
  }

  /** Ordinal string order, as `OrderBy` on strings under a binary collation:
      a proper prefix comes first, otherwise the first differing character decides. */
  predicate LexLe(a: string, b: string)
    decreases |a|
  {
    if |a| == 0 then true
    else if |b| == 0 then false
    else if a[0] != b[0] then a[0] < b[0]
    else LexLe(a[1..], b[1..])
  }

  predicate LexLt(a: string, b: string) {
    LexLe(a, b) && a != b
  }

  lemma {:induction false} LexLeTotal(a: string, b: string)
    ensures LexLe(a, b) || LexLe(b, a)
    decreases |a|
  {
    if |a| > 0 && |b| > 0 && a[0] == b[0] {
      LexLeTotal(a[1..], b[1..]);
    }
  }

  lemma {:induction false} LexLeTransitive(a: string, b: string, c: string)
    requires LexLe(a, b) && LexLe(b, c)
    ensures LexLe(a, c)
    decreases |a|
  {
    if |a| > 0 && |b| > 0 && |c| > 0 && a[0] == b[0] && b[0] == c[0] {
      LexLeTransitive(a[1..], b[1..], c[1..]);
    }
  }

  lemma {:induction false} LexLeAntisymmetric(a: string, b: string)
    requires LexLe(a, b) && LexLe(b, a)
    ensures a == b
    decreases |a|
  {
    if |a| > 0 && |b| > 0 {
      LexLeAntisymmetric(a[1..], b[1..]);
      assert a == [a[0]] + a[1..];
      assert b == [b[0]] + b[1..];
    }
  }
}
