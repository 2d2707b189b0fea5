/**
 * The JavaScript array and number operations the browser modules rely on,
 * with the edge cases the source meets: a remainder that keeps the sign of
 * the dividend, `Math.round` rounding halves up, and `splice` with a start
 * that counts from the end when negative and does nothing past the end.
 */
module JsRuntime {

  /** `a % b` in JavaScript: truncating division, so the remainder takes the sign of `a`. */
  function Rem(a: int, b: int): (r: int)
    requires b > 0
    ensures -b < r < b
    ensures a >= 0 ==> r == a % b
    ensures a < 0 ==> r <= 0 && (-a < b ==> r == a)
  {
    if a >= 0 then a % b else -((-a) % b)
  }

  /** The position `splice(start, 1)` acts on, for an array of length `len`. */
  function SpliceStart(len: nat, start: int): (k: nat)
    ensures k <= len
    ensures 0 <= start ==> k == if start < len then start else len
    ensures start < 0 && len + start >= 0 ==> k == len + start
  {
    if start < 0 then (if len + start < 0 then 0 else len + start)
    else if start > len then len
    else start
  }

  /** `xs.splice(start, 1)`: removes one element at the relative start, if there is one there. */
  function RemoveAt<T>(xs: seq<T>, start: int): (r: seq<T>)
    ensures 0 <= start < |xs| ==>
      |r| == |xs| - 1
      && (forall k :: 0 <= k < start ==> r[k] == xs[k])
      && (forall k :: start <= k < |r| ==> r[k] == xs[k + 1])
    ensures start >= |xs| ==> r == xs
    ensures start < 0 && |xs| + start >= 0 ==> r == xs[..|xs| + start] + xs[|xs| + start + 1..]
    ensures start < 0 && |xs| + start < 0 && xs != [] ==> r == xs[1..]
    ensures |r| <= |xs| && multiset(r) <= multiset(xs)
  {
    var k := SpliceStart(|xs|, start);
    if k < |xs| then
      assert xs == xs[..k] + [xs[k]] + xs[k + 1..];
      xs[..k] + xs[k + 1..]
    else xs
  }

  /** `Math.round(x)`: the nearest integer, a half rounding up (towards positive infinity). */
  function Round(x: real): (n: int)
    ensures n as real - 0.5 <= x < n as real + 0.5
  {
    (x + 0.5).Floor
  }
}
