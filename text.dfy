/** String helpers with the semantics of the JavaScript built-ins the program uses. */
module Text {

  import opened Records

  function Clamp(x: int, lo: int, hi: int): int
    requires lo <= hi
  {
    if x < lo then lo else if x > hi then hi else x
  }

  /** `s.substring(start, end)`: both bounds are clamped into `[0, |s|]` and
      swapped when the first exceeds the second. */
  function Substring(s: string, start: int, end: int): (r: string)
    ensures |r| <= |s|
    ensures 0 <= start <= end <= |s| ==> r == s[start..end]
    ensures 0 <= end <= start <= |s| ==> r == s[end..start]
  {
    var a := Clamp(start, 0, |s|);
    var b := Clamp(end, 0, |s|);
    if a <= b then s[a..b] else s[b..a]
  }

  /** A bound outside `[0, |s|]` acts as the nearest end of the string, so with
      `Substring`'s own contract the result is fixed for every pair of bounds. */
  lemma {:induction false} SubstringClamps(s: string, start: int, end: int)
    ensures start < 0 ==> Substring(s, start, end) == Substring(s, 0, end)
    ensures start > |s| ==> Substring(s, start, end) == Substring(s, |s|, end)
    ensures end < 0 ==> Substring(s, start, end) == Substring(s, start, 0)
    ensures end > |s| ==> Substring(s, start, end) == Substring(s, start, |s|)
  {
  }

  /** The text written by `for (i = 0; i < n; i++) write(c)`: nothing when `n <= 0`. */
  function Repeat(c: char, n: int): (r: string)
    ensures |r| == if n > 0 then n else 0
    ensures forall k :: 0 <= k < |r| ==> r[k] == c
    decreases if n > 0 then n else 0
  {
    if n <= 0 then "" else [c] + Repeat(c, n - 1)
  }

  /** Largest length `new Array(n)` accepts; any other length throws a RangeError. */
  const MaxArrayLength: int := 0xFFFF_FFFF

  /** `new Array(n).fill('  ').join('')` for a valid array length `n`. */
  function Units(n: nat): string
  {
    if n == 0 then "" else "  " + Units(n - 1)
  }

  /** `indent(level)`: two spaces per level, or `None` where `new Array(level)` throws
      (a negative level, or one beyond the largest array length). */
  function Indent(level: int): (r: Option<string>)
    ensures r.Some? <==> 0 <= level <= MaxArrayLength
    ensures r.Some? ==> |r.value| == 2 * level
    ensures r.Some? ==> forall k :: 0 <= k < |r.value| ==> r.value[k] == ' '
  {
    if 0 <= level <= MaxArrayLength then
      UnitsAreSpaces(level);
      Some(Units(level))
    else
      None
  }

  lemma {:induction false} UnitsAreSpaces(n: nat)
    ensures |Units(n)| == 2 * n
    ensures forall k :: 0 <= k < |Units(n)| ==> Units(n)[k] == ' '
  {
    if n > 0 {
      UnitsAreSpaces(n - 1);
    }
  }
}
