/** String predicates the core relies on: the date-time shape zod accepts, SQLite's
    text ordering, per-character lowercasing and substring search. */
module Text {

  predicate IsDigit(c: char) {
    '0' <= c <= '9'
  }

  predicate DigitsAt(s: string, from: nat, count: nat) {
    from + count <= |s| && forall k :: from <= k < from + count ==> IsDigit(s[k])
  }

  /** zod's default `datetime()` format: `YYYY-MM-DDTHH:MM:SS`, optional fractional
      seconds, and a trailing `Z` (no offset). */
  predicate IsDateTime(s: string) {
    && |s| >= 20
    && DigitsAt(s, 0, 4) && s[4] == '-' && DigitsAt(s, 5, 2) && s[7] == '-' && DigitsAt(s, 8, 2)
    && s[10] == 'T' && DigitsAt(s, 11, 2) && s[13] == ':' && DigitsAt(s, 14, 2) && s[16] == ':'
    && DigitsAt(s, 17, 2)
    && s[|s| - 1] == 'Z'
    && (|s| == 20 || (|s| >= 22 && s[19] == '.' && DigitsAt(s, 20, |s| - 21)))
  }

  /** SQLite's BINARY collation on TEXT: `a` sorts at or before `b`, character by character. */
  predicate AtOrBefore(a: string, b: string) {
    a == [] || (b != [] && (a[0] < b[0] || (a[0] == b[0] && AtOrBefore(a[1..], b[1..]))))
  }

  lemma {:induction false} AtOrBeforeTotal(a: string, b: string)
    ensures AtOrBefore(a, b) || AtOrBefore(b, a)
  {
    if a != [] && b != [] && a[0] == b[0] {
      AtOrBeforeTotal(a[1..], b[1..]);
    }
  }

  lemma {:induction false} AtOrBeforeTransitive(a: string, b: string, c: string)
    requires AtOrBefore(a, b) && AtOrBefore(b, c)
    ensures AtOrBefore(a, c)
  {
    if a != [] && a[0] == b[0] && b[0] == c[0] {
      AtOrBeforeTransitive(a[1..], b[1..], c[1..]);
    }
  }

  /** `String.prototype.toLowerCase`, given the per-character case map `lower`. */
  function Lower(s: string, lower: char -> char): (r: string)
    ensures |r| == |s| && forall i :: 0 <= i < |s| ==> r[i] == lower(s[i])
  {
    seq(|s|, i requires 0 <= i < |s| => lower(s[i]))
  }

  /** `String.prototype.includes`: `needle` occurs in `hay` at some position. */
  predicate Contains(hay: string, needle: string)
    decreases |hay|
  {
    needle <= hay || (hay != [] && Contains(hay[1..], needle))
  }

}
