/**
 * The command/response correlator's wait loop (`sendCommand` and `getResponse`), as a
 * function of the accumulator it starts from and the trace it reads.
 */
module Correlator {
  import opened Text
  import opened Framing
  import opened Transport

  /** How a wait ends: a line with the expected text, a short-circuit on "ERROR", or the deadline. */
  datatype End = Found | Refused | Expired

  /**
   * The end of a wait: how it ended, the accumulator at that moment, the lines it discarded
   * in the order it saw them, and the iteration in which it ended.
   */
  datatype Wait = Wait(end: End, rx: string, skipped: seq<string>, steps: nat)

  /** What one iteration makes of the accumulator once the new chunk is appended. */
  datatype Step =
    | Pending(buf: string)              // no complete line yet: keep waiting
    | Stop(end: End, buf: string)       // the first line decides the wait
    | Skip(line: string, rest: string)  // the first line is discarded

  /**
   * One line inspection (ESP8266.ts:85-100): the first complete line is tested for
   * `expected` before it is tested for "ERROR"; a line that does neither is cut off
   * together with its CR LF.
   */
  function Inspect(buf: string, expected: string, failFast: bool): Step {
    if !HasLine(buf) then Pending(buf)
    else if Contains(FirstLine(buf), expected) then Stop(Found, buf)
    else if failFast && Contains(FirstLine(buf), ERROR) then Stop(Refused, buf)
    else Skip(FirstLine(buf), AfterLine(buf))
  }

  /**
   * A discarded line is exactly the text before the first CR LF, holds neither the expected
   * text nor (when short-circuiting) "ERROR"; a stop on "ERROR" only happens for a line
   * without the expected text, and only when short-circuiting.
   */
  lemma InspectSound(buf: string, expected: string, failFast: bool)
    ensures match Inspect(buf, expected, failFast)
      case Pending(b) => b == buf && !HasLine(buf)
      case Skip(line, rest) =>
        && buf == line + CRLF + rest && !Contains(line, CRLF)
        && !Contains(line, expected) && !(failFast && Contains(line, ERROR))
      case Stop(e, b) =>
        && b == buf && e != Expired && HasLine(buf)
        && (e == Found ==> Contains(FirstLine(buf), expected))
        && (e == Refused ==> failFast && !Contains(FirstLine(buf), expected) && Contains(FirstLine(buf), ERROR))
  {
    if HasLine(buf) {
      LineSplit(buf);
    }
  }

  /** Inspecting a line neither loses nor reorders text. */
  lemma InspectKeepsText(buf: string, expected: string, failFast: bool)
    ensures match Inspect(buf, expected, failFast)
      case Pending(b) => b == buf
      case Skip(line, rest) => buf == line + CRLF + rest
      case Stop(_, b) => b == buf
  {
    if HasLine(buf) {
      LineSplit(buf);
    }
  }

  /**
   * The loop of ESP8266.ts:77-101 and 108-130 from iteration `i`: check the clock, append
   * the chunk read, inspect the first complete line, and go round again unless it decided.
   */
  function Await(rx: string, expected: string, failFast: bool, timeout: int, t: Trace, i: nat): Wait
    requires Expires(t, timeout) && i + 1 < |t.times|
    decreases |t.times| - i
  {
    if Late(t, timeout, i) then Wait(Expired, rx, [], i)
    else
      match Inspect(rx + ChunkAt(t, i), expected, failFast)
      case Pending(buf) => Await(buf, expected, failFast, timeout, t, i + 1)
      case Stop(e, buf) => Wait(e, buf, [], i)
      case Skip(line, rest) =>
        var w := Await(rest, expected, failFast, timeout, t, i + 1);
        w.(skipped := [line] + w.skipped)
  }

  /**
   * One on-time iteration of the wait: without a complete line it goes round again with the
   * grown accumulator; a first line with the expected text ends it found, one with "ERROR"
   * (when short-circuiting) ends it refused, and any other line is cut off before going round again.
   */
  lemma AwaitStep(rx: string, expected: string, failFast: bool, timeout: int, t: Trace, i: nat)
    requires Expires(t, timeout) && i + 1 < |t.times| && !Late(t, timeout, i)
    ensures i + 2 < |t.times|
    ensures var buf, w := rx + ChunkAt(t, i), Await(rx, expected, failFast, timeout, t, i);
      && (!HasLine(buf) ==>
            w.end == Await(buf, expected, failFast, timeout, t, i + 1).end
            && w.rx == Await(buf, expected, failFast, timeout, t, i + 1).rx)
      && (HasLine(buf) && Contains(FirstLine(buf), expected) ==> w.end == Found && w.rx == buf)
      && (HasLine(buf) && !Contains(FirstLine(buf), expected) && failFast && Contains(FirstLine(buf), ERROR) ==>
            w.end == Refused && w.rx == buf)
      && (HasLine(buf) && !Contains(FirstLine(buf), expected) && !(failFast && Contains(FirstLine(buf), ERROR)) ==>
            w.end == Await(AfterLine(buf), expected, failFast, timeout, t, i + 1).end
            && w.rx == Await(AfterLine(buf), expected, failFast, timeout, t, i + 1).rx)
  {
  }

  /**
   * A matching line that arrives in the same read as a line in front of it is only inspected
   * in the next iteration, after the clock is checked again: when that reading is past the
   * deadline, the wait expires although "OK" is already in the accumulator.
   */
  lemma LineBehindMissed()
    ensures Expires(Trace([0, 0, 200], ["X\r\nOK\r\n"]), 100)
    ensures var w := Await("", OK, true, 100, Trace([0, 0, 200], ["X\r\nOK\r\n"]), 0);
      w.end == Expired && w.rx == "OK\r\n" && w.skipped == ["X"]
  {
    var t := Trace([0, 0, 200], ["X\r\nOK\r\n"]);
    assert "" + ChunkAt(t, 0) == "X\r\nOK\r\n";
    SkipsX();
    assert !Late(t, 100, 0) && Late(t, 100, 1);
    assert Await("OK\r\n", OK, true, 100, t, 1) == Wait(Expired, "OK\r\n", [], 1);
  }

  /** The accumulator of the counterexample above: its first line is "X", and "OK" CR LF follows it. */
  lemma SkipsX()
    ensures Inspect("X\r\nOK\r\n", OK, true) == Skip("X", "OK\r\n")
  {
    var buf := "X\r\nOK\r\n";
    assert buf == ['X', '\r', '\n', 'O', 'K', '\r', '\n'];
    assert buf[..2] != CRLF by { assert buf[..2][1] == '\r' != CRLF[1]; }
    assert buf[1..][..2] == CRLF;
    assert IndexOf(buf, CRLF) == 1;
    assert FirstLine(buf) == "X" && AfterLine(buf) == "OK\r\n";
  }

  /** The number of iterations that read a chunk: the one that met the deadline reads nothing. */
  function Consumed(w: Wait): nat {
    if w.end == Expired then w.steps else w.steps + 1
  }

  /** Lines put back together with their terminators. */
  function JoinLines(lines: seq<string>): string {
    if lines == [] then "" else lines[0] + CRLF + JoinLines(lines[1..])
  }

  /**
   * Nothing is lost or reordered: the starting accumulator followed by every chunk read is
   * exactly the discarded lines, each with its terminator, followed by the final accumulator.
   */
  lemma {:induction false} AwaitAccounts(rx: string, expected: string, failFast: bool, timeout: int, t: Trace, i: nat)
    requires Expires(t, timeout) && i + 1 < |t.times|
    ensures var w := Await(rx, expected, failFast, timeout, t, i);
      i <= w.steps && rx + Received(t, i, Consumed(w)) == JoinLines(w.skipped) + w.rx
    decreases |t.times| - i, 1
  {
    if !Late(t, timeout, i) {
      var buf := rx + ChunkAt(t, i);
      InspectKeepsText(buf, expected, failFast);
      if Inspect(buf, expected, failFast).Skip? {
        AccountsSkip(rx, expected, failFast, timeout, t, i);
      } else if Inspect(buf, expected, failFast).Pending? {
        AccountsPending(rx, expected, failFast, timeout, t, i);
      } else {
        ReceivedStep(t, i, i + 1);
        Assoc(rx, ChunkAt(t, i), "");
        assert JoinLines([]) == "";
      }
    }
  }

  /** `AwaitAccounts` for an iteration that finds no complete line. */
  lemma {:induction false} AccountsPending(rx: string, expected: string, failFast: bool, timeout: int, t: Trace, i: nat)
    requires Expires(t, timeout) && i + 1 < |t.times| && !Late(t, timeout, i)
    requires Inspect(rx + ChunkAt(t, i), expected, failFast).Pending?
    ensures var w := Await(rx, expected, failFast, timeout, t, i);
      i <= w.steps && rx + Received(t, i, Consumed(w)) == JoinLines(w.skipped) + w.rx
    decreases |t.times| - i, 0
  {
    var buf := rx + ChunkAt(t, i);
    InspectKeepsText(buf, expected, failFast);
    var w := Await(buf, expected, failFast, timeout, t, i + 1);
    assert Await(rx, expected, failFast, timeout, t, i) == w;
    AwaitAccounts(buf, expected, failFast, timeout, t, i + 1);
    ReceivedStep(t, i, Consumed(w));
    Assoc(rx, ChunkAt(t, i), Received(t, i + 1, Consumed(w)));
  }

  /** `AwaitAccounts` for an iteration that discards a line. */
  lemma {:induction false} AccountsSkip(rx: string, expected: string, failFast: bool, timeout: int, t: Trace, i: nat)
    requires Expires(t, timeout) && i + 1 < |t.times| && !Late(t, timeout, i)
    requires Inspect(rx + ChunkAt(t, i), expected, failFast).Skip?
    ensures var w := Await(rx, expected, failFast, timeout, t, i);
      i <= w.steps && rx + Received(t, i, Consumed(w)) == JoinLines(w.skipped) + w.rx
    decreases |t.times| - i, 0
  {
    var buf := rx + ChunkAt(t, i);
    InspectKeepsText(buf, expected, failFast);
    var line, rest := Inspect(buf, expected, failFast).line, Inspect(buf, expected, failFast).rest;
    var w' := Await(rest, expected, failFast, timeout, t, i + 1);
    var w := Await(rx, expected, failFast, timeout, t, i);
    assert w == w'.(skipped := [line] + w'.skipped);
    AwaitAccounts(rest, expected, failFast, timeout, t, i + 1);
    ReceivedStep(t, i, Consumed(w));
    RegroupDiscarded(rx, ChunkAt(t, i), line + CRLF, rest, Received(t, i + 1, Consumed(w')), JoinLines(w'.skipped), w'.rx);
  }

  /** The chunks read from iteration `i` on start with the chunk of iteration `i`. */
  lemma ReceivedStep(t: Trace, i: nat, n: nat)
    requires i < n
    ensures Received(t, i, n) == ChunkAt(t, i) + Received(t, i + 1, n)
  {
  }

  /** The concatenation step of `AwaitAccounts` for a discarded line with its CR LF (`head`). */
  lemma RegroupDiscarded(rx: string, chunk: string, head: string, after: string, r: string, joined: string, rest: string)
    requires rx + chunk == head + after
    requires after + r == joined + rest
    ensures rx + (chunk + r) == head + joined + rest
  {
    calc {
      rx + (chunk + r);
      (rx + chunk) + r;
      (head + after) + r;
      head + (after + r);
    }
  }

  /** A line the wait may discard: a single line, without the expected text and, when short-circuiting, without "ERROR". */
  predicate Discarded(line: string, expected: string, failFast: bool) {
    !Contains(line, CRLF) && !Contains(line, expected) && !(failFast && Contains(line, ERROR))
  }

  /**
   * Every discarded line was a complete line that neither matched nor, when short-circuiting,
   * contained "ERROR".
   */
  lemma {:induction false} AwaitSkipped(rx: string, expected: string, failFast: bool, timeout: int, t: Trace, i: nat)
    requires Expires(t, timeout) && i + 1 < |t.times|
    ensures AllSkippedDiscarded(Await(rx, expected, failFast, timeout, t, i), expected, failFast)
    decreases |t.times| - i
  {
    if !Late(t, timeout, i) {
      assert i + 2 < |t.times|;
      var buf, next := rx + ChunkAt(t, i), i + 1;
      InspectSound(buf, expected, failFast);
      match Inspect(buf, expected, failFast)
      case Pending(b) =>
        assert Await(rx, expected, failFast, timeout, t, i) == Await(b, expected, failFast, timeout, t, next);
        AwaitSkipped(b, expected, failFast, timeout, t, next);
      case Stop(_, _) =>
      case Skip(line, rest) =>
        var w' := Await(rest, expected, failFast, timeout, t, next);
        assert Await(rx, expected, failFast, timeout, t, i) == w'.(skipped := [line] + w'.skipped);
        AwaitSkipped(rest, expected, failFast, timeout, t, next);
        SkippedStep(line, w', expected, failFast);
    }
  }

  /** Every line the wait discarded was a line it may discard. */
  predicate AllSkippedDiscarded(w: Wait, expected: string, failFast: bool) {
    forall k | 0 <= k < |w.skipped| :: Discarded(w.skipped[k], expected, failFast)
  }

  /** Discarding one more line that may be discarded keeps every discarded line one that may be. */
  lemma SkippedStep(line: string, w: Wait, expected: string, failFast: bool)
    requires Discarded(line, expected, failFast) && AllSkippedDiscarded(w, expected, failFast)
    ensures AllSkippedDiscarded(w.(skipped := [line] + w.skipped), expected, failFast)
  {
    var w' := w.(skipped := [line] + w.skipped);
    assert forall k | 1 <= k < |w'.skipped| :: w'.skipped[k] == w.skipped[k - 1];
  }

  /**
   * The line that ends a wait is the first line of the final accumulator, and matching is
   * tested before failure: a wait refused on "ERROR" only when short-circuiting, and only on
   * a line without the expected text.
   */
  lemma {:induction false} AwaitDecides(rx: string, expected: string, failFast: bool, timeout: int, t: Trace, i: nat)
    requires Expires(t, timeout) && i + 1 < |t.times|
    ensures var w := Await(rx, expected, failFast, timeout, t, i);
      && (w.end == Found ==> HasLine(w.rx) && Contains(FirstLine(w.rx), expected))
      && (w.end == Refused ==>
            failFast && HasLine(w.rx) && !Contains(FirstLine(w.rx), expected) && Contains(FirstLine(w.rx), ERROR))
    decreases |t.times| - i
  {
    if !Late(t, timeout, i) {
      assert i + 2 < |t.times|;
      var buf, next := rx + ChunkAt(t, i), i + 1;
      InspectSound(buf, expected, failFast);
      match Inspect(buf, expected, failFast)
      case Pending(b) =>
        assert Await(rx, expected, failFast, timeout, t, i) == Await(b, expected, failFast, timeout, t, next);
        AwaitDecides(b, expected, failFast, timeout, t, next);
      case Stop(_, _) =>
      case Skip(line, rest) =>
        var w' := Await(rest, expected, failFast, timeout, t, next);
        assert Await(rx, expected, failFast, timeout, t, i) == w'.(skipped := [line] + w'.skipped);
        AwaitDecides(rest, expected, failFast, timeout, t, next);
    }
  }

  /**
   * The wait never gives up early: every iteration before the last found the clock within
   * the deadline, and the wait expired exactly when the last reading was past it.
   */
  lemma {:induction false} AwaitDeadline(rx: string, expected: string, failFast: bool, timeout: int, t: Trace, i: nat)
    requires Expires(t, timeout) && i + 1 < |t.times|
    ensures var w := Await(rx, expected, failFast, timeout, t, i);
      && i <= w.steps && w.steps + 1 < |t.times|
      && OnTime(t, timeout, i, w.steps)
      && (w.end == Expired <==> Late(t, timeout, w.steps))
    decreases |t.times| - i
  {
    if !Late(t, timeout, i) {
      assert i + 2 < |t.times|;
      var next := i + 1;
      match Inspect(rx + ChunkAt(t, i), expected, failFast)
      case Pending(buf) =>
        assert Await(rx, expected, failFast, timeout, t, i) == Await(buf, expected, failFast, timeout, t, next);
        AwaitDeadline(buf, expected, failFast, timeout, t, next);
        OnTimeStep(t, timeout, i, Await(buf, expected, failFast, timeout, t, next).steps);
      case Stop(_, _) =>
      case Skip(line, rest) =>
        var w' := Await(rest, expected, failFast, timeout, t, next);
        assert Await(rx, expected, failFast, timeout, t, i) == w'.(skipped := [line] + w'.skipped);
        AwaitDeadline(rest, expected, failFast, timeout, t, next);
        OnTimeStep(t, timeout, i, w'.steps);
    }
  }

  /** What `getResponse` returns and what it leaves in the accumulator. */
  datatype Reply = Reply(line: string, rest: string)

  /**
   * `getResponse(response, timeout)` from accumulator `rx`: on a match, the matching line and
   * the text after it; at the deadline, the whole accumulator if it contains `response`
   * (ESP8266.ts:112-114), otherwise the empty string, leaving the accumulator as it is.
   */
  function Respond(rx: string, response: string, timeout: int, t: Trace): (r: Reply)
    requires Expires(t, timeout)
    ensures r.line == "" || Contains(r.line, response)
  {
    var w := Await(rx, response, false, timeout, t, 0);
    AwaitDecides(rx, response, false, timeout, t, 0);
    if w.end == Found then Reply(FirstLine(w.rx), AfterLine(w.rx))
    else Reply(if Contains(w.rx, response) then w.rx else "", w.rx)
  }

  /**
   * A matched reply loses nothing: the returned line, its terminator and the text left in
   * the accumulator are the final accumulator of the wait, and the line is a single line.
   */
  lemma RespondFound(rx: string, response: string, timeout: int, t: Trace)
    requires Expires(t, timeout)
    requires Await(rx, response, false, timeout, t, 0).end == Found
    ensures var r := Respond(rx, response, timeout, t);
      r.line + CRLF + r.rest == Await(rx, response, false, timeout, t, 0).rx
      && !Contains(r.line, CRLF) && Contains(r.line, response)
  {
    AwaitDecides(rx, response, false, timeout, t, 0);
    LineSplit(Await(rx, response, false, timeout, t, 0).rx);
  }

  /** `getResponse` never short-circuits: it only ends on a match or at the deadline. */
  lemma RespondNeverRefuses(rx: string, response: string, timeout: int, t: Trace)
    requires Expires(t, timeout)
    ensures Await(rx, response, false, timeout, t, 0).end != Refused
  {
    AwaitDecides(rx, response, false, timeout, t, 0);
  }
}
