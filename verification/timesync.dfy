/**
 * The retry loop of `updateInternetTime` (ESP8266.ts:532-556): every 100 ms or so it asks
 * for the time, waits up to 2000 ms for a "+CIPSNTPTIME:" line, and tries again while the
 * reply still says 1970, for at most 20000 ms in all.
 */
module TimeSync {
  import opened Text
  import opened Transport
  import opened Correlator
  import opened Numbers
  import opened SntpTime

  /** The whole retry loop gives up 20000 ms after it starts (ESP8266.ts:535). */
  const SYNC_DEADLINE: int := 20000
  /** Each `getResponse` for the time line waits 2000 ms (ESP8266.ts:541). */
  const REPLY_TIMEOUT: int := 2000
  /** The final `getResponse("OK")` uses the default 100 ms (ESP8266.ts:598). */
  const OK_TIMEOUT: int := 100

  /**
   * The clock and serial port as the time update sees them: `clock[0]` is the reading when
   * the retry loop starts, `clock[i + 1]` the reading at the top of attempt `i`, `replies[i]`
   * what the wait of attempt `i` reads, and `ok` what the final wait for "OK" reads.
   */
  datatype SyncTrace = SyncTrace(clock: seq<int>, replies: seq<Trace>, ok: Trace)

  /** The clock eventually passes the 20000 ms deadline, and every wait on the way ends. */
  predicate SyncReady(env: SyncTrace) {
    && |env.clock| >= 2 && env.clock[|env.clock| - 1] - env.clock[0] > SYNC_DEADLINE
    && |env.replies| + 1 >= |env.clock|
    && (forall i | 0 <= i < |env.replies| :: Expires(env.replies[i], REPLY_TIMEOUT))
    && Expires(env.ok, OK_TIMEOUT)
  }

  /** Attempt `i` starts past the 20000 ms deadline. */
  predicate Overdue(env: SyncTrace, i: nat)
    requires i + 1 < |env.clock|
  {
    env.clock[i + 1] - env.clock[0] > SYNC_DEADLINE
  }

  /**
   * One attempt of the retry loop: past the deadline it times out; otherwise, after the
   * query, no time line ends it, a 1970 line goes round again, and any other line ends it
   * synchronised.
   */
  lemma SyncStep(rx: string, env: SyncTrace, i: nat)
    requires SyncReady(env) && i + 1 < |env.clock|
    ensures Overdue(env, i) ==> SyncWait(rx, env, i) == Sync(TimedOut, [], rx, i)
    ensures !Overdue(env, i) ==>
      var r := Respond("", PREFIX, REPLY_TIMEOUT, env.replies[i]);
      && i + 2 < |env.clock|
      && (r.line == "" ==> SyncWait(rx, env, i) == Sync(NoReply, [], r.rest, i + 1))
      && (r.line != "" && Unsynced(TimeFields(r.line)) ==> SyncWait(rx, env, i) == SyncWait(r.rest, env, i + 1))
      && (r.line != "" && !Unsynced(TimeFields(r.line)) ==> SyncWait(rx, env, i) == Sync(Synced, TimeFields(r.line), r.rest, i + 1))
  {
    if !Overdue(env, i) {
      NextAttempt(env, i);
    }
  }

  /** An attempt that starts within the deadline is not the last clock reading. */
  lemma NextAttempt(env: SyncTrace, i: nat)
    requires SyncReady(env) && i + 1 < |env.clock| && !Overdue(env, i)
    ensures i + 2 < |env.clock|
  {
  }

  /** How the retry loop ends: the deadline, an attempt without a time line, or a synchronised reply. */
  datatype SyncEnd = TimedOut | NoReply | Synced

  /**
   * The end of the retry loop: how it ended, the fields of the last reply (empty unless
   * synchronised), the receive accumulator left behind, and how many queries it sent.
   */
  datatype Sync = Sync(end: SyncEnd, fields: seq<string>, rx: string, sent: nat)

  /**
   * What the wait of each attempt returns: `getResponse("+CIPSNTPTIME:", 2000)` on the
   * accumulator the query emptied, reading that attempt's trace.
   */
  function Answers(env: SyncTrace): seq<Reply>
    requires SyncReady(env)
  {
    seq(|env.replies|, k requires 0 <= k < |env.replies| => Respond("", PREFIX, REPLY_TIMEOUT, env.replies[k]))
  }

  /** `answers[k]` is what the wait of attempt `k` returns, for every attempt the traces cover. */
  predicate Answered(env: SyncTrace, answers: seq<Reply>)
    requires SyncReady(env)
  {
    && |answers| == |env.replies|
    && forall k {:trigger env.replies[k]} | 0 <= k < |env.replies| ::
         answers[k] == Respond("", PREFIX, REPLY_TIMEOUT, env.replies[k])
  }

  /** The replies the traces produce are what each attempt gets, and nothing else is. */
  lemma AnswersAnswered(env: SyncTrace, answers: seq<Reply>)
    requires SyncReady(env)
    ensures Answered(env, Answers(env))
    ensures Answered(env, answers) ==> answers == Answers(env)
  {
    if Answered(env, answers) {
      forall k | 0 <= k < |answers|
        ensures answers[k] == Answers(env)[k]
      {
        assert env.replies[k] == env.replies[k];
      }
    }
  }

  /**
   * The retry loop from attempt `i` with accumulator `rx`, where `answers[k]` is the reply
   * attempt `k` gets: past the deadline it gives up; otherwise it sends the query (which
   * empties the accumulator), takes the attempt's reply, gives up when there is no time line,
   * and tries again while the year is still 1970. Whatever attempt it ends on, a synchronised
   * end is clean.
   */
  function SyncFrom(rx: string, env: SyncTrace, answers: seq<Reply>, i: nat): (s: Sync)
    requires SyncReady(env) && |answers| == |env.replies| && i + 1 < |env.clock|
    ensures SyncedClean(s)
    decreases |env.clock| - i
  {
    if Overdue(env, i) then Sync(TimedOut, [], rx, i)
    else
      var r := answers[i];
      if r.line == "" then Sync(NoReply, [], r.rest, i + 1)
      else if Unsynced(TimeFields(r.line)) then
        NextAttempt(env, i);
        SyncFrom(r.rest, env, answers, i + 1)
      else Sync(Synced, TimeFields(r.line), r.rest, i + 1)
  }

  /** The retry loop from attempt `i` on the replies the traces produce. */
  function SyncWait(rx: string, env: SyncTrace, i: nat): Sync
    requires SyncReady(env) && i + 1 < |env.clock|
  {
    SyncFrom(rx, env, Answers(env), i)
  }

  /** Every attempt from `i` up to, not including, `n` started within the deadline. */
  predicate InTime(env: SyncTrace, i: nat, n: nat) {
    forall j | i <= j < n && j + 1 < |env.clock| :: !Overdue(env, j)
  }

  /** An attempt within the deadline in front of a run of them extends the run. */
  lemma InTimeStep(env: SyncTrace, i: nat, n: nat)
    requires i + 1 < |env.clock| && !Overdue(env, i) && InTime(env, i + 1, n)
    ensures InTime(env, i, n)
  {
  }

  /**
   * What the end `s` of the retry loop from attempt `i` must satisfy: it sent at least the
   * queries before `i`; a time-out happens on an attempt that starts late, any other end after
   * a query that was sent; and every attempt before the last started within the deadline.
   */
  predicate Settled(env: SyncTrace, i: nat, s: Sync) {
    && i <= s.sent
    && (s.end == TimedOut ==> s.sent + 1 < |env.clock| && Overdue(env, s.sent))
    && (s.end != TimedOut ==> 1 <= s.sent < |env.clock|)
    && InTime(env, i, if s.end == TimedOut then s.sent else s.sent - 1)
  }

  /** An attempt within the deadline in front of a settled run keeps it settled. */
  lemma SettledStep(env: SyncTrace, i: nat, s: Sync)
    requires i + 1 < |env.clock| && !Overdue(env, i) && Settled(env, i + 1, s)
    ensures Settled(env, i, s)
  {
    InTimeStep(env, i, if s.end == TimedOut then s.sent else s.sent - 1);
  }

  /**
   * The retry loop sends one query per attempt, never gives up before the deadline unless
   * an attempt brought no time line, and times out exactly when its last attempt starts late.
   */
  lemma {:induction false} SyncDeadline(rx: string, env: SyncTrace, i: nat)
    requires SyncReady(env) && i + 1 < |env.clock|
    ensures Settled(env, i, SyncWait(rx, env, i))
    decreases |env.clock| - i
  {
    var again, rest := Attempt(rx, env, i);
    if again {
      var next := i + 1;
      SyncDeadline(rest, env, next);
      SettledStep(env, i, SyncWait(rest, env, next));
    } else {
      LastSettled(env, i, SyncWait(rx, env, i));
    }
  }

  /**
   * Attempt `i` either goes round again with the accumulator `rest`, or ends the loop: by
   * time-out when it starts late, and otherwise after its query.
   */
  lemma Attempt(rx: string, env: SyncTrace, i: nat) returns (again: bool, rest: string)
    requires SyncReady(env) && i + 1 < |env.clock|
    ensures again ==> i + 2 < |env.clock| && !Overdue(env, i) && SyncWait(rx, env, i) == SyncWait(rest, env, i + 1)
    ensures !again ==> var s := SyncWait(rx, env, i);
      && (s.end == TimedOut ==> s.sent == i && Overdue(env, i))
      && (s.end != TimedOut ==> s.sent == i + 1)
  {
    SyncStep(rx, env, i);
    if !Overdue(env, i) {
      var r := Respond("", PREFIX, REPLY_TIMEOUT, env.replies[i]);
      again, rest := r.line != "" && Unsynced(TimeFields(r.line)), r.rest;
    } else {
      again, rest := false, rx;
    }
  }

  /** A loop that ends at attempt `i`, by time-out or after its query, is settled. */
  lemma LastSettled(env: SyncTrace, i: nat, s: Sync)
    requires i + 1 < |env.clock|
    requires s.end == TimedOut ==> s.sent == i && Overdue(env, i)
    requires s.end != TimedOut ==> s.sent == i + 1
    ensures Settled(env, i, s)
  {
  }

  /**
   * A synchronised end carries the fields of a reply that is not from 1970: no empty field,
   * and no fifth field equal to "1970".
   */
  predicate SyncedClean(s: Sync) {
    s.end == Synced ==> !Unsynced(s.fields) && forall k | 0 <= k < |s.fields| :: s.fields[k] != ""
  }

  /**
   * An on-time attempt whose time line is a module reply from a year other than 1970 ends
   * the loop synchronised, and reading its fields gives back exactly the reply's date and time.
   */
  lemma SyncedReply(rx: string, env: SyncTrace, i: nat, prev: Reading,
                    weekday: nat, month: nat, day: nat, hour: nat, minute: nat, second: nat, year: nat)
    requires SyncReady(env) && i + 1 < |env.clock| && !Overdue(env, i)
    requires 1 <= weekday <= 7 && 1 <= month <= 12 && year != 1970
    requires Respond("", PREFIX, REPLY_TIMEOUT, env.replies[i]).line == TimeReply(weekday, month, day, hour, minute, second, year)
    ensures var s := SyncWait(rx, env, i);
      && s.end == Synced && s.sent == i + 1
      && ReadTime(prev, s.fields)
         == Parsed(Reading(Int(weekday), Int(month), Int(day), Int(hour), Int(minute), Int(second), Int(year)), true)
  {
    ReadReply(prev, weekday, month, day, hour, minute, second, year);
    var line := TimeReply(weekday, month, day, hour, minute, second, year);
    assert line != "" by {
      assert |line| >= |PREFIX|;
    }
  }

  /** A reply still from 1970 makes the loop try again with the next attempt. */
  lemma RetryUnsynced(rx: string, env: SyncTrace, i: nat,
                      weekday: nat, month: nat, day: nat, hour: nat, minute: nat, second: nat, year: nat)
    requires SyncReady(env) && i + 1 < |env.clock| && !Overdue(env, i)
    requires 1 <= weekday <= 7 && 1 <= month <= 12 && year == 1970
    requires Respond("", PREFIX, REPLY_TIMEOUT, env.replies[i]).line == TimeReply(weekday, month, day, hour, minute, second, year)
    ensures i + 2 < |env.clock|
    ensures SyncWait(rx, env, i) == SyncWait(Respond("", PREFIX, REPLY_TIMEOUT, env.replies[i]).rest, env, i + 1)
  {
    var line := TimeReply(weekday, month, day, hour, minute, second, year);
    ReplyYear(weekday, month, day, hour, minute, second, year);
    assert line != "" by {
      assert |line| >= |PREFIX|;
    }
    Retry(rx, env, i);
  }

  /** An on-time attempt with a time line from 1970 goes round again. */
  lemma Retry(rx: string, env: SyncTrace, i: nat)
    requires SyncReady(env) && i + 1 < |env.clock| && !Overdue(env, i)
    requires var r := Respond("", PREFIX, REPLY_TIMEOUT, env.replies[i]);
      r.line != "" && Unsynced(TimeFields(r.line))
    ensures i + 2 < |env.clock|
    ensures SyncWait(rx, env, i) == SyncWait(Respond("", PREFIX, REPLY_TIMEOUT, env.replies[i]).rest, env, i + 1)
  {
    NextAttempt(env, i);
  }
}
