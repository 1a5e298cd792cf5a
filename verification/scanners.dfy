/**
 * The substring-scanning wait loops of `connectWifi` and `uploadData`: a local buffer grows
 * with each chunk read and is searched for tokens in a fixed priority order, with no line
 * framing at all.
 */
module Scanners {
  import opened Text
  import opened Framing
  import opened Transport

  /** `connectWifi` waits 10000 ms (ESP8266.ts:166), `uploadData` 4000 ms (ESP8266.ts:284). */
  const WIFI_DEADLINE: int := 10000
  const UPLOAD_DEADLINE: int := 4000

  const FAIL: string := "FAIL"
  const WIFI_CONNECTED: string := "WIFI CONNECTED"
  const SEND_OK: string := "SEND OK"

  /** Which of the two loops is scanning. */
  datatype Scanner = Wifi | Upload

  /** What one iteration makes of the buffer once the new chunk is appended. */
  datatype Verdict =
    | Keep(buf: string)      // go round again with this buffer
    | Stop(success: bool)    // leave the loop; `success` is the flag the loop sets

  /**
   * One scan of the buffer. `connectWifi` (ESP8266.ts:168-182) tests "OK" first, which
   * clears the buffer and keeps waiting, then "FAIL", then "WIFI CONNECTED"; `uploadData`
   * (ESP8266.ts:286-296) tests "SEND OK", then "ERROR". A buffer with no token keeps its
   * last 15 characters once it is longer than 30.
   */
  function Look(scanner: Scanner, buf: string): Verdict {
    match scanner
    case Wifi =>
      if Contains(buf, OK) then Keep("")
      else if Contains(buf, FAIL) then Stop(false)
      else if Contains(buf, WIFI_CONNECTED) then Stop(true)
      else Keep(KeepTail(buf))
    case Upload =>
      if Contains(buf, SEND_OK) then Stop(true)
      else if Contains(buf, ERROR) then Stop(false)
      else Keep(KeepTail(buf))
  }

  /** The end of a scan: the flag it sets, whether the deadline ended it, the last iteration and the buffer it stopped on. */
  datatype Scan = Scan(success: bool, expired: bool, steps: nat, buf: string)

  /**
   * The loop from iteration `i` with buffer `buf`: past the deadline it stops with the flag
   * false, otherwise it appends the chunk read and scans.
   */
  function ScanWait(scanner: Scanner, buf: string, deadline: int, t: Trace, i: nat): Scan
    requires Expires(t, deadline) && i + 1 < |t.times|
    decreases |t.times| - i
  {
    if Late(t, deadline, i) then Scan(false, true, i, buf)
    else
      var s := buf + ChunkAt(t, i);
      match Look(scanner, s)
      case Keep(b) => ScanWait(scanner, b, deadline, t, i + 1)
      case Stop(ok) => Scan(ok, false, i, s)
  }

  /** One on-time iteration of the scan: it either goes round again with the kept buffer or stops on what it saw. */
  lemma ScanStep(scanner: Scanner, buf: string, deadline: int, t: Trace, i: nat)
    requires Expires(t, deadline) && i + 1 < |t.times| && !Late(t, deadline, i)
    ensures i + 2 < |t.times|
    ensures Look(scanner, buf + ChunkAt(t, i)).Keep? ==>
      ScanWait(scanner, buf, deadline, t, i) == ScanWait(scanner, Look(scanner, buf + ChunkAt(t, i)).buf, deadline, t, i + 1)
    ensures Look(scanner, buf + ChunkAt(t, i)).Stop? ==>
      ScanWait(scanner, buf, deadline, t, i).success == Look(scanner, buf + ChunkAt(t, i)).success
  {
  }

  /** What a scan stopping on `buf` with flag `ok` must have seen, token priorities included. */
  predicate Decided(scanner: Scanner, buf: string, ok: bool) {
    match scanner
    case Wifi =>
      !Contains(buf, OK) &&
      (if ok then !Contains(buf, FAIL) && Contains(buf, WIFI_CONNECTED) else Contains(buf, FAIL))
    case Upload =>
      if ok then Contains(buf, SEND_OK) else !Contains(buf, SEND_OK) && Contains(buf, ERROR)
  }

  /** A buffer carried to the next iteration is a suffix of what was scanned and at most 30 characters. */
  lemma LookKeeps(scanner: Scanner, buf: string)
    ensures Look(scanner, buf).Keep? ==>
      var b := Look(scanner, buf).buf;
      |b| <= BOUND && |b| <= |buf| && b == buf[|buf| - |b|..]
    ensures Look(scanner, buf).Stop? ==> Decided(scanner, buf, Look(scanner, buf).success)
  {
  }

  /**
   * The priority rules in both directions: the Wi-Fi scan stops exactly when the buffer holds
   * "FAIL" or "WIFI CONNECTED" but not "OK", and "OK" empties the buffer and keeps waiting;
   * the upload scan stops exactly on "SEND OK" or "ERROR"; and a scan stops with a flag
   * exactly when the buffer shows that flag's tokens in priority order.
   */
  lemma LookDecides(scanner: Scanner, buf: string, ok: bool)
    ensures Look(Wifi, buf).Stop? <==> !Contains(buf, OK) && (Contains(buf, FAIL) || Contains(buf, WIFI_CONNECTED))
    ensures Contains(buf, OK) ==> Look(Wifi, buf) == Keep("")
    ensures Look(Upload, buf).Stop? <==> Contains(buf, SEND_OK) || Contains(buf, ERROR)
    ensures Look(scanner, buf) == Stop(ok) <==> Decided(scanner, buf, ok)
  {
  }

  /**
   * A scan that stops before the deadline stopped on a buffer showing its tokens in priority
   * order; a scan that reports success never expired; the buffer it stopped on is at most 30
   * characters of carried text plus the last chunk.
   */
  lemma {:induction false} ScanOutcome(scanner: Scanner, buf: string, deadline: int, t: Trace, i: nat)
    requires Expires(t, deadline) && i + 1 < |t.times|
    requires |buf| <= BOUND
    ensures var r := ScanWait(scanner, buf, deadline, t, i);
      && (r.success ==> !r.expired)
      && (!r.expired ==> Decided(scanner, r.buf, r.success) && |r.buf| <= BOUND + |ChunkAt(t, r.steps)|)
      && (r.expired ==> |r.buf| <= BOUND)
    decreases |t.times| - i
  {
    if !Late(t, deadline, i) {
      var s := buf + ChunkAt(t, i);
      LookKeeps(scanner, s);
      if Look(scanner, s).Keep? {
        ScanOutcome(scanner, Look(scanner, s).buf, deadline, t, i + 1);
      }
    }
  }

  /**
   * The scan never gives up early: every iteration before the last found the clock within
   * the deadline, and the scan expired exactly when the last reading was past it.
   */
  lemma {:induction false} ScanDeadline(scanner: Scanner, buf: string, deadline: int, t: Trace, i: nat)
    requires Expires(t, deadline) && i + 1 < |t.times|
    ensures var r := ScanWait(scanner, buf, deadline, t, i);
      && i <= r.steps && r.steps + 1 < |t.times|
      && OnTime(t, deadline, i, r.steps)
      && (r.expired <==> Late(t, deadline, r.steps))
    decreases |t.times| - i
  {
    if !Late(t, deadline, i) {
      assert i + 2 < |t.times|;
      var next := i + 1;
      match Look(scanner, buf + ChunkAt(t, i))
      case Keep(b) =>
        assert ScanWait(scanner, buf, deadline, t, i) == ScanWait(scanner, b, deadline, t, next);
        ScanDeadline(scanner, b, deadline, t, next);
        OnTimeStep(t, deadline, i, ScanWait(scanner, b, deadline, t, next).steps);
      case Stop(_) =>
    }
  }

  /**
   * "OK" outranks "WIFI CONNECTED": when every chunk from iteration `i` on carries an "OK",
   * `connectWifi` never reports a connection and waits out its deadline, even if the chunks
   * also carry "WIFI CONNECTED".
   */
  lemma {:induction false} OkMasksConnected(buf: string, t: Trace, i: nat)
    requires Expires(t, WIFI_DEADLINE) && i + 1 < |t.times|
    requires |t.times| <= |t.chunks| + 1
    requires forall j | i <= j < |t.chunks| :: Contains(t.chunks[j], OK)
    ensures var r := ScanWait(Wifi, buf, WIFI_DEADLINE, t, i);
      r.expired && !r.success
    decreases |t.times| - i
  {
    if !Late(t, WIFI_DEADLINE, i) {
      ContainsInFactor(buf, t.chunks[i], "", OK);
      assert buf + ChunkAt(t, i) + "" == buf + ChunkAt(t, i);
      OkMasksConnected("", t, i + 1);
    }
  }
}
