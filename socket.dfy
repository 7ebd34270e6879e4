/**
 * The decision each pass of the socket adapter's retry loop makes on the
 * result of a `read`, `recv` or `write` call.
 */
module Socket {

  /** What one pass does with the syscall's result. */
  datatype Step =
    | Transferred(n: nat) // return the byte count
    | Failed              // return CWS_ERROR_ERRNO
    | Closed              // return CWS_ERROR_CONNECTION_CLOSED
    | Yield               // give way to the other coroutines, then call again

  /**
   * Classify the result `n` of the syscall; `wouldBlock` says whether
   * `errno` was EWOULDBLOCK. A positive count is returned, a negative result
   * with any other errno is an error, zero means the peer closed the
   * connection, and only a would-block failure retries.
   */
  function Classify(n: int, wouldBlock: bool): (s: Step)
    ensures s.Transferred? <==> n > 0
    ensures s.Transferred? ==> s.n == n
    ensures s.Failed? <==> n < 0 && !wouldBlock
    ensures s.Closed? <==> n == 0
    ensures s.Yield? <==> n < 0 && wouldBlock
  {
    if n > 0 then Transferred(n)
    else if n < 0 && !wouldBlock then Failed
    else if n == 0 then Closed
    else Yield
  }
}
