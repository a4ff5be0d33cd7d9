/** Optional values, the results that the scheduler's functions return, and counting. */
module Results {

  datatype Option<+T> = None | Some(value: T)

  /** Success, AVERROR_EOF, or any other error. */
  datatype Ret = Ok | EndOfFile | Error

  /** A condition as a number. */
  function Bit(b: bool): (n: nat)
    ensures n <= 1
    ensures n == 1 <==> b
  {
    if b then 1 else 0
  }
}
