/**
 * Values shared by the auditor's modules: an optional value, the keys of a
 * `bounds` dictionary, and the numeric conversions Python performs
 * (`round`, `abs`, `int` on a float).
 */
module Basics {

  datatype Option<+T> = None | Some(value: T)

  /** The four keys a `bounds` dictionary may carry. */
  datatype Key = X | Y | W | H

  /** A `bounds` dictionary: any subset of the keys may be present. */
  type Bounds = map<Key, real>

  function Abs(r: real): (a: real)
    ensures a >= 0.0
    ensures a == r || a == -r
  {
    if r < 0.0 then -r else r
  }

  /**
   * Python's built-in `round` on a number: the nearest integer, and on an
   * exact tie the even one of the two neighbours.
   */
  function Round(r: real): (n: int)
    ensures -0.5 <= n as real - r <= 0.5
    ensures (n as real - r == 0.5 || r - n as real == 0.5) ==> n % 2 == 0
    ensures r == r.Floor as real ==> n == r.Floor
  {
    var f := r.Floor;
    var d := r - f as real;
    if d < 0.5 then f
    else if d > 0.5 then f + 1
    else if f % 2 == 0 then f
    else f + 1
  }

  /** Python's `int(x)` on a float: truncation toward zero. */
  function Trunc(r: real): (n: int)
    ensures Abs(n as real) <= Abs(r) < Abs(n as real) + 1.0
    ensures r >= 0.0 ==> n >= 0
    ensures r <= 0.0 ==> n <= 0
  {
    if r >= 0.0 then r.Floor else -((-r).Floor)
  }
}
