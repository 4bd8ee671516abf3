/** String helpers behind the search: `String.prototype.toLowerCase` (ASCII letters only) and
    `String.prototype.includes`. */
module Text {

  /** Maps an ASCII upper-case letter to its lower-case form and leaves every other character alone. */
  function LowerChar(c: char): (d: char)
    ensures 'A' <= c <= 'Z' ==> d as int - 'a' as int == c as int - 'A' as int
    ensures !('A' <= d <= 'Z')
    ensures d == c || 'A' <= c <= 'Z'
    ensures 'a' <= c <= 'z' ==> d == c
  {
    if 'A' <= c <= 'Z' then (c as int - 'A' as int + 'a' as int) as char else c
  }

  /** Lower-cases every character of `s`, keeping its length. */
  function Lower(s: string): (r: string)
    ensures |r| == |s|
    ensures forall i :: 0 <= i < |s| ==> r[i] == LowerChar(s[i])
  {
    seq(|s|, i requires 0 <= i < |s| => LowerChar(s[i]))
  }

  /** Lower-casing twice is lower-casing once. */
  lemma LowerIdempotent(s: string)
    ensures Lower(Lower(s)) == Lower(s)
  {
  }

  /** `n` occurs in `h` starting at position `i`. */
  ghost predicate OccursAt(h: string, n: string, i: int)
  {
    0 <= i && i + |n| <= |h| && h[i..i + |n|] == n
  }

  /** Whether `n` is a substring of `h`, tried at every start position from the left. */
  function Includes(h: string, n: string): bool
    decreases |h|
  {
    if |n| > |h| then false
    else if h[..|n|] == n then true
    else Includes(h[1..], n)
  }

  /** `Includes` holds exactly when `n` occurs somewhere in `h`; in particular the empty string
      occurs in every string. */
  lemma {:induction false} IncludesSpec(h: string, n: string)
    ensures Includes(h, n) <==> exists i :: OccursAt(h, n, i)
    decreases |h|
  {
    if |n| > |h| {
    } else if h[..|n|] == n {
      assert OccursAt(h, n, 0);
    } else {
      IncludesSpec(h[1..], n);
      if Includes(h[1..], n) {
        var i :| OccursAt(h[1..], n, i);
        assert h[1..][i..i + |n|] == h[i + 1..i + 1 + |n|];
        assert OccursAt(h, n, i + 1);
      } else {
        forall i | OccursAt(h, n, i)
          ensures false
        {
          if i > 0 {
            assert h[1..][i - 1..i - 1 + |n|] == h[i..i + |n|];
            assert OccursAt(h[1..], n, i - 1);
          }
        }
      }
    }
  }

  /** The empty string is included in every string. */
  lemma IncludesEmpty(h: string)
    ensures Includes(h, "")
  {
  }
}
