/**
 * Python's slice bounds for a single integer `n`, as in `s[:n]` and `s[n:]`:
 * a negative `n` counts from the end, and every bound is clipped to the
 * sequence.
 */
module PySlice {

  /** The position that the slice bound `n` denotes in a sequence of length `len`. */
  function Bound(len: nat, n: int): (k: nat)
    ensures k <= len
    ensures 0 <= n <= len ==> k == n
    ensures n > len ==> k == len
    ensures n < 0 && -n <= len ==> k == len + n
    ensures n < 0 && -n > len ==> k == 0
  {
    if n < 0 then (if len + n < 0 then 0 else len + n)
    else if n > len then len
    else n
  }

  /** `s[:n]` */
  function Take<T>(s: seq<T>, n: int): seq<T>
  {
    s[..Bound(|s|, n)]
  }

  /** `s[n:]` */
  function Drop<T>(s: seq<T>, n: int): seq<T>
  {
    s[Bound(|s|, n)..]
  }
}
