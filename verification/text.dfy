/**
  The string operations the list filters and the name sort rely on:
  `toLowerCase`, `includes` and the ordering used to compare names.
*/
module Text {

  /** An ASCII capital, A to Z. */
  predicate IsUpperAscii(c: char)
  {
    'A' <= c <= 'Z'
  }

  /** `toLowerCase` on a single character, restricted to the ASCII letters. */
  function LowerChar(c: char): char
  {
    if IsUpperAscii(c) then (c as int + 32) as char else c
  }

  /** `String.prototype.toLowerCase`, character by character. */
  function Lower(s: string): (r: string)
    ensures |r| == |s|
    ensures forall i :: 0 <= i < |r| ==> !IsUpperAscii(r[i])
    ensures forall i :: 0 <= i < |r| ==> !IsUpperAscii(s[i]) ==> r[i] == s[i]
    ensures forall i :: 0 <= i < |s| && IsUpperAscii(s[i]) ==> r[i] as int == s[i] as int + 32
  {
    seq(|s|, i requires 0 <= i < |s| => LowerChar(s[i]))
  }

  /** Lower-casing twice is lower-casing once, so a lower-cased query matches as itself. */
  lemma {:induction false} LowerIdempotent(s: string)
    ensures Lower(Lower(s)) == Lower(s)
  {
    var l := Lower(s);
    assert forall i :: 0 <= i < |l| ==> Lower(l)[i] == l[i];
  }

  /** `n` occurs in `h` starting at index `i`. */
  predicate OccursAt(h: string, n: string, i: int)
  {
    0 <= i && i + |n| <= |h| && h[i..i + |n|] == n
  }

  /** `String.prototype.includes`: tries each start position in turn. */
  function Includes(h: string, n: string): (r: bool)
    ensures r <==> exists i :: OccursAt(h, n, i)
    decreases |h|
  {
    if n <= h then
      assert OccursAt(h, n, 0);
      true
    else if |h| == 0 then
      assert forall i :: !OccursAt(h, n, i);
      false
    else
      var r := Includes(h[1..], n);
      ShiftOccurrence(h, n);
      r
  }

  /** An occurrence past the first position is an occurrence in the tail. */
  lemma {:induction false} ShiftOccurrence(h: string, n: string)
    requires |h| > 0 && !(n <= h)
    ensures (exists i :: OccursAt(h, n, i)) <==> (exists j :: OccursAt(h[1..], n, j))
  {
    if exists i :: OccursAt(h, n, i) {
      var i :| OccursAt(h, n, i);
      assert h[1..][i - 1..i - 1 + |n|] == h[i..i + |n|];
      assert OccursAt(h[1..], n, i - 1);
    }
    if exists j :: OccursAt(h[1..], n, j) {
      var j :| OccursAt(h[1..], n, j);
      assert h[1..][j..j + |n|] == h[j + 1..j + 1 + |n|];
      assert OccursAt(h, n, j + 1);
    }
  }

  /**
    Code-point lexicographic order on names: `a` sorts no later than `b`.
    This stands in for `localeCompare(a, b) <= 0`.
  */
  predicate NameLe(a: string, b: string)
  {
    if |a| == 0 then true
    else if |b| == 0 then false
    else if a[0] != b[0] then a[0] < b[0]
    else NameLe(a[1..], b[1..])
  }

  lemma {:induction false} NameLeTotal(a: string, b: string)
    ensures NameLe(a, b) || NameLe(b, a)
    decreases |a|
  {
    if |a| != 0 && |b| != 0 && a[0] == b[0] {
      NameLeTotal(a[1..], b[1..]);
    }
  }

  lemma {:induction false} NameLeTransitive(a: string, b: string, c: string)
    requires NameLe(a, b) && NameLe(b, c)
    ensures NameLe(a, c)
    decreases |a|
  {
    if |a| != 0 && |b| != 0 && |c| != 0 && a[0] == b[0] && b[0] == c[0] {
      NameLeTransitive(a[1..], b[1..], c[1..]);
    }
  }
}
