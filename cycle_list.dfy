/**
 * `CycleList`: a list whose indexing wraps around modulo its length
 * (kmap.py:4-11).  This is what makes the Karnaugh map a torus.
 */
module CycleList {
  import opened Wrappers
  import Arith

  /** What indexing an empty `CycleList` raises. */
  datatype IndexFailure =
    | IndexError      // a positive index into an empty list (kmap.py:7-8)
    | AttributeError  // any other index: `super().__getitem` does not exist (kmap.py:10)

  /**
   * `CycleList.__getitem__`.  Python's `%` with a positive divisor agrees
   * with Dafny's Euclidean `%`: the result lies in `[0, |l|)`.
   */
  function Get<T>(l: seq<T>, index: int): (r: Result<T, IndexFailure>)
    ensures r.Ok? <==> |l| > 0
    ensures r.Ok? ==> r.value in l
    ensures r.Err? ==> r.error == (if index > 0 then IndexError else AttributeError)
  {
    if |l| == 0 then
      Err(if index > 0 then IndexError else AttributeError)
    else
      Ok(l[index % |l|])
  }

  /** Within range the wrap-around index agrees with ordinary list indexing. */
  lemma GetInRange<T>(l: seq<T>, index: int)
    requires 0 <= index < |l|
    ensures Get(l, index) == Ok(l[index])
  {
  }

  /**
   * On a non-empty list every integer index is valid, and the list is
   * periodic: `l[i] == l[i + k * len(l)]` for every whole `k`, negative or not.
   */
  lemma {:induction false} GetPeriodic<T>(l: seq<T>, index: int, k: int)
    requires |l| > 0
    ensures Get(l, index + k * |l|) == Get(l, index)
    ensures Get(l, index) == Get(l, index % |l|)
  {
    Arith.ModShift(index, k, |l|);
    Arith.DivModUnique(index % |l|, 0, index % |l|, |l|);
  }

  /** Python's negative indexing: `-1` is the last element, `-len(l)` the first. */
  lemma GetNegative<T>(l: seq<T>, j: int)
    requires 1 <= j <= |l|
    ensures Get(l, -j) == Ok(l[|l| - j])
  {
    Arith.DivModUnique(-j, -1, |l| - j, |l|);
  }
}
