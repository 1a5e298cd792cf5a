/**
 * Line framing over a receive accumulator: lines end at the first CR LF, and the two
 * truncation policies the engine applies to accumulators that grow without one.
 */
module Framing {
  import opened Text

  const CRLF: string := "\r\n"

  /** The final result codes of a command's reply, which the waiting loops look for. */
  const OK: string := "OK"
  const ERROR: string := "ERROR"

  /** The accumulator holds at least one complete line. */
  predicate HasLine(buf: string) {
    Contains(buf, CRLF)
  }

  /** `buf.slice(0, buf.indexOf("\r\n"))`: the earliest complete line, without its terminator. */
  function FirstLine(buf: string): string
    requires HasLine(buf)
  {
    buf[..IndexOf(buf, CRLF)]
  }

  /** `buf.slice(buf.indexOf("\r\n") + 2)`: what follows the earliest line's terminator. */
  function AfterLine(buf: string): string
    requires HasLine(buf)
  {
    buf[IndexOf(buf, CRLF) + 2..]
  }

  /**
   * Taking a line loses nothing and reorders nothing: the accumulator is the line, the
   * terminator and the rest, and the line itself holds no terminator.
   */
  lemma LineSplit(buf: string)
    requires HasLine(buf)
    ensures buf == FirstLine(buf) + CRLF + AfterLine(buf)
    ensures !Contains(FirstLine(buf), CRLF)
  {
    var i := IndexOf(buf, CRLF);
    IndexOfOccurs(buf, CRLF);
    var line := FirstLine(buf);
    assert buf[i..i + 2] == CRLF;
    forall j | 0 <= j && j + 2 <= |line|
      ensures !OccursAt(line, CRLF, j)
    {
      assert line[j..j + 2] == buf[j..j + 2];
      IndexOfFirst(buf, CRLF, j);
    }
    IndexOfOccurs(line, CRLF);
  }

  const BOUND: nat := 30
  const KEEP: nat := 15

  /**
   * The scan loops' policy (`s.slice(s.length - 15)` once `s.length > 30`): keep only the
   * last 15 characters, so the buffer never exceeds 30.
   */
  function KeepTail(s: string): (r: string)
    ensures |r| <= BOUND
    ensures |r| <= |s| && r == s[|s| - |r|..]
    ensures |s| > BOUND ==> |r| == KEEP
    ensures |s| <= BOUND ==> r == s
  {
    if |s| > BOUND then s[|s| - KEEP..] else s
  }

  /**
   * The dispatcher's policy (`s.slice(15)` once `s.length > 30`): drop the first 15
   * characters and keep all the others.
   */
  function DropHead(s: string): (r: string)
    ensures |r| <= |s| && r == s[|s| - |r|..]
    ensures |s| > BOUND ==> |r| == |s| - KEEP
    ensures |s| <= BOUND ==> r == s
  {
    if |s| > BOUND then s[KEEP..] else s
  }
}
