/** Failure-carrying results shared by every module of the model. */
module Wrappers {

  datatype Option<+T> = None | Some(value: T)

  /** The outcome of an operation that the source may abort with an exception. */
  datatype Result<+T, +E> = Ok(value: T) | Err(error: E)
}

/** Binary values: ground-truth labels and the closed phase's placeholder metric. */
module Binary {

  type Bit = x: int | 0 <= x <= 1

  function SumBits(s: seq<Bit>): (r: nat)
    ensures r <= |s|
  {
    if |s| == 0 then 0 else s[0] + SumBits(s[1..])
  }

  /** The sum counts the ones: it is positive exactly when a one occurs, and below
      the length exactly when a zero occurs. */
  lemma {:induction false} SumBitsCounts(s: seq<Bit>)
    ensures SumBits(s) > 0 <==> 1 in s
    ensures SumBits(s) < |s| <==> 0 in s
  {
    if |s| > 0 {
      SumBitsCounts(s[1..]);
      assert s == [s[0]] + s[1..];
    }
  }
}
