/** numpy's rule for an integer index on an axis of length n. */
module NumpyIndex {

  /** An index i is accepted on an axis of length n when -n <= i < n; any
      other index raises IndexError. */
  predicate ValidIndex(i: int, n: nat) {
    -(n as int) <= i < n
  }

  /** The position an index names: a negative index counts from the end. */
  function Wrap(i: int, n: nat): (r: int)
    ensures ValidIndex(i, n) ==> 0 <= r < n
    ensures i >= 0 ==> r == i
    ensures i < 0 ==> r == i + n
  {
    if i < 0 then i + n else i
  }
}
