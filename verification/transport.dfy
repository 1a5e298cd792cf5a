/**
 * The serial port and the millisecond clock as seen by one waiting loop: a trace of
 * clock readings and of the chunks `serial.readString()` returns.
 */
module Transport {

  /**
   * `times[0]` is the reading taken when the wait starts; `times[i + 1]` is the reading at
   * the top of iteration `i`; `chunks[i]` is what iteration `i` reads (nothing once the
   * chunks run out).
   */
  datatype Trace = Trace(times: seq<int>, chunks: seq<string>)

  /** The clock eventually passes the deadline `timeout` after the start. */
  predicate Expires(t: Trace, timeout: int) {
    |t.times| >= 2 && t.times[|t.times| - 1] - t.times[0] > timeout
  }

  /** The reading at the top of iteration `i` is past the deadline. */
  predicate Late(t: Trace, timeout: int, i: nat)
    requires i + 1 < |t.times|
  {
    t.times[i + 1] - t.times[0] > timeout
  }

  /** Every iteration from `i` up to, not including, `n` found the clock within the deadline. */
  predicate OnTime(t: Trace, timeout: int, i: nat, n: nat) {
    forall j | i <= j < n && j + 1 < |t.times| :: !Late(t, timeout, j)
  }

  /** An on-time iteration in front of an on-time run extends the run. */
  lemma OnTimeStep(t: Trace, timeout: int, i: nat, n: nat)
    requires i + 1 < |t.times| && !Late(t, timeout, i) && OnTime(t, timeout, i + 1, n)
    ensures OnTime(t, timeout, i, n)
  {
  }

  /** What iteration `i` reads from the serial port. */
  function ChunkAt(t: Trace, i: nat): string {
    if i < |t.chunks| then t.chunks[i] else ""
  }

  /** Everything read by iterations `i` up to, not including, `j`, in arrival order. */
  function Received(t: Trace, i: nat, j: nat): string
    decreases j - i
  {
    if i >= j then "" else ChunkAt(t, i) + Received(t, i + 1, j)
  }
}
