/**
 * The driver's module-level state and its operations: the session flags, the time values,
 * the two receive accumulators, the handler registry, and the lines written to the module.
 */
module Esp8266 {
  import opened Wrappers
  import opened Text
  import opened Numbers
  import opened Framing
  import opened Transport
  import opened Correlator
  import Scanners
  import opened Dispatcher
  import opened Commands
  import opened SntpTime
  import opened TimeSync

  /** `connectThingSpeak` and `initInternetTime` wait 500 ms for "OK" (ESP8266.ts:219, 502). */
  const SETUP_TIMEOUT: int := 500

  /** `n` copies of a line written to the module. */
  function Repeat(line: string, n: nat): (r: seq<string>)
    ensures |r| == n && forall k | 0 <= k < n :: r[k] == line
  {
    if n == 0 then [] else Repeat(line, n - 1) + [line]
  }

  /**
   * One pass of the `connectWifi` tests over the buffer (ESP8266.ts:170-182): "OK" empties it,
   * "FAIL" stops, "WIFI CONNECTED" stops connected, and past 30 characters only the last 15 stay.
   */
  method WifiTests(s: string) returns (buf: string, stop: bool, connected: bool)
    ensures Scanners.Look(Scanners.Wifi, s) == if stop then Scanners.Stop(connected) else Scanners.Keep(buf)
    ensures !stop ==> !connected
  {
    buf, stop, connected := s, false, false;
    if Contains(buf, OK) {
      buf := "";
    } else if Contains(buf, Scanners.FAIL) {
      buf := "";
      stop := true;
    } else if Contains(buf, Scanners.WIFI_CONNECTED) {
      buf := "";
      connected := true;
      stop := true;
    } else if |buf| > BOUND {
      buf := buf[|buf| - KEEP..];
    }
  }

  /**
   * The scan loop of `connectWifi` (ESP8266.ts:164-187): for 10000 ms append what arrives to
   * a local buffer and test it, until a test stops the loop.
   */
  method WaitForWifi(t: Trace) returns (connected: bool)
    requires Expires(t, Scanners.WIFI_DEADLINE)
    ensures connected == Scanners.ScanWait(Scanners.Wifi, "", Scanners.WIFI_DEADLINE, t, 0).success
  {
    connected := false;
    ghost var goal := Scanners.ScanWait(Scanners.Wifi, "", Scanners.WIFI_DEADLINE, t, 0).success;
    var serialStr := "";
    var timestamp := t.times[0];
    var i := 0;
    while true
      invariant i + 1 < |t.times|
      invariant Scanners.ScanWait(Scanners.Wifi, serialStr, Scanners.WIFI_DEADLINE, t, i).success == goal
      invariant !connected
      decreases |t.times| - i
    {
      if t.times[i + 1] - timestamp <= Scanners.WIFI_DEADLINE {
        Scanners.ScanStep(Scanners.Wifi, serialStr, Scanners.WIFI_DEADLINE, t, i);
        var stop;
        serialStr, stop, connected := WifiTests(serialStr + ChunkAt(t, i));
        if stop {
          break;
        }
      } else {
        break;
      }
      i := i + 1;
    }
  }

  /**
   * One pass of the `uploadData` tests over the buffer (ESP8266.ts:288-296): "SEND OK" stops
   * uploaded, "ERROR" stops, and past 30 characters only the last 15 stay.
   */
  method UploadTests(s: string) returns (buf: string, stop: bool, uploaded: bool)
    ensures Scanners.Look(Scanners.Upload, s) == if stop then Scanners.Stop(uploaded) else Scanners.Keep(buf)
    ensures !stop ==> !uploaded
  {
    buf, stop, uploaded := s, false, false;
    if Contains(buf, Scanners.SEND_OK) {
      buf := "";
      uploaded := true;
      stop := true;
    } else if Contains(buf, ERROR) {
      buf := "";
      stop := true;
    } else if |buf| > BOUND {
      buf := buf[|buf| - KEEP..];
    }
  }

  /**
   * The scan loop of `uploadData` (ESP8266.ts:283-301): for 4000 ms append what arrives to a
   * local buffer and test it, until a test stops the loop.
   */
  method WaitForSend(t: Trace) returns (uploaded: bool)
    requires Expires(t, Scanners.UPLOAD_DEADLINE)
    ensures uploaded == Scanners.ScanWait(Scanners.Upload, "", Scanners.UPLOAD_DEADLINE, t, 0).success
  {
    uploaded := false;
    ghost var goal := Scanners.ScanWait(Scanners.Upload, "", Scanners.UPLOAD_DEADLINE, t, 0).success;
    var serialStr := "";
    var timestamp := t.times[0];
    var i := 0;
    while true
      invariant i + 1 < |t.times|
      invariant Scanners.ScanWait(Scanners.Upload, serialStr, Scanners.UPLOAD_DEADLINE, t, i).success == goal
      invariant !uploaded
      decreases |t.times| - i
    {
      if t.times[i + 1] - timestamp <= Scanners.UPLOAD_DEADLINE {
        Scanners.ScanStep(Scanners.Upload, serialStr, Scanners.UPLOAD_DEADLINE, t, i);
        var stop;
        serialStr, stop, uploaded := UploadTests(serialStr + ChunkAt(t, i));
        if stop {
          break;
        }
      } else {
        break;
      }
      i := i + 1;
    }
  }

  /**
   * The wait loop of `sendCommand` (ESP8266.ts:75-102), from an empty accumulator: check the
   * clock, append what arrives, and test the first complete line for `expected` and then, when
   * `expected` is exactly "OK", for "ERROR"; cut off any other line and go round again.
   */
  method AwaitLine(expected: string, timeout: int, t: Trace) returns (result: bool, rx: string)
    requires Expires(t, timeout)
    ensures var w := Await("", expected, expected == OK, timeout, t, 0);
      (result <==> w.end == Found) && rx == w.rx
  {
    var failFast := expected == OK;
    ghost var w := Await("", expected, failFast, timeout, t, 0);
    result, rx := false, "";
    var timestamp := t.times[0];
    var i: nat := 0;
    while true
      invariant i + 1 < |t.times|
      invariant Await(rx, expected, failFast, timeout, t, i).end == w.end
      invariant Await(rx, expected, failFast, timeout, t, i).rx == w.rx
      invariant !result
      decreases |t.times| - i
    {
      if t.times[i + 1] - timestamp > timeout {
        result := false;
        break;
      }
      AwaitStep(rx, expected, failFast, timeout, t, i);
      rx := rx + ChunkAt(t, i);
      if Contains(rx, CRLF) {
        if Contains(FirstLine(rx), expected) {
          result := true;
          break;
        }
        if failFast && Contains(FirstLine(rx), ERROR) {
          result := false;
          break;
        }
        rx := AfterLine(rx);
      }
      i := i + 1;
    }
  }

  /**
   * The wait loop of `getResponse` (ESP8266.ts:106-131) from accumulator `start`: return the
   * first line holding `response` and keep the text after it; at the deadline return the whole
   * accumulator if it holds `response`, otherwise "".
   */
  method AwaitReply(start: string, response: string, timeout: int, t: Trace) returns (line: string, rx: string)
    requires Expires(t, timeout)
    ensures line == Respond(start, response, timeout, t).line
    ensures rx == Respond(start, response, timeout, t).rest
  {
    ghost var w := Await(start, response, false, timeout, t, 0);
    line, rx := "", start;
    var timestamp := t.times[0];
    var i: nat := 0;
    while true
      invariant i + 1 < |t.times|
      invariant Await(rx, response, false, timeout, t, i).end == w.end
      invariant Await(rx, response, false, timeout, t, i).rx == w.rx
      decreases |t.times| - i
    {
      if t.times[i + 1] - timestamp > timeout {
        if Contains(rx, response) {
          line := rx;
        }
        break;
      }
      AwaitStep(rx, response, false, timeout, t, i);
      rx := rx + ChunkAt(t, i);
      if Contains(rx, CRLF) {
        if Contains(FirstLine(rx), response) {
          line := FirstLine(rx);
          rx := AfterLine(rx);
          break;
        }
        rx := AfterLine(rx);
      }
      i := i + 1;
    }
  }

  /**
   * ESP8266.ts:545-549: the text after the first ':' of a time line, split at spaces, with
   * the empty fields removed one at a time.
   */
  method SplitReply(line: string) returns (responseArray: seq<string>)
    ensures responseArray == TimeFields(line)
  {
    var response := Slice(line, IndexOf(line, ":") + 1);
    responseArray := Split(response, ' ');
    responseArray := StripEmpty(responseArray);
  }

  /**
   * The retry loop of `updateInternetTime` (ESP8266.ts:532-556) from accumulator `start` and
   * output log `written`: while within 20000 ms, send the time query without waiting (which,
   * as in `sendCommand`, empties the accumulator first), give up without a "+CIPSNTPTIME:"
   * line, split the line after its first ':' at spaces, drop the empty fields, and stop once
   * the fifth field is not "1970". The ghost `answers` are the replies the attempts' waits
   * give (`Answered`), which the retry function reads.
   */
  method SyncLoop(start: string, written: seq<string>, env: SyncTrace, ghost answers: seq<Reply>)
    returns (synced: bool, responseArray: seq<string>, rx: string, out: seq<string>)
    requires SyncReady(env) && Answered(env, answers)
    ensures var s := SyncFrom(start, env, answers, 0);
      && (synced <==> s.end == Synced) && (synced ==> responseArray == s.fields)
      && rx == s.rx && out == written + Repeat(QUERY_TIME + CRLF, s.sent)
  {
    ghost var goal := SyncFrom(start, env, answers, 0);
    responseArray, rx, out := [], start, written;
    var timestamp := env.clock[0];
    var i: nat := 0;
    while true
      invariant i + 1 < |env.clock|
      invariant SyncFrom(rx, env, answers, i) == goal
      invariant out == written + Repeat(QUERY_TIME + CRLF, i)
      decreases |env.clock| - i
    {
      if env.clock[i + 1] - timestamp > SYNC_DEADLINE {
        synced := false;
        break;
      }
      out := out + [QUERY_TIME + CRLF];
      assert out == written + Repeat(QUERY_TIME + CRLF, i + 1);
      var done, rest;
      done, synced, responseArray, rest := QueryTime(rx, env, i, answers, goal);
      rx := rest;
      if done {
        break;
      }
      i := i + 1;
    }
  }

  /**
   * One attempt of the retry loop after the query was sent (ESP8266.ts:541-554): wait for the
   * "+CIPSNTPTIME:" line on the emptied accumulator; the loop is done without one, or with one
   * whose fifth field is not "1970", and otherwise goes round again with what is left.
   */
  method QueryTime(start: string, env: SyncTrace, i: nat, ghost answers: seq<Reply>, ghost goal: Sync)
    returns (done: bool, synced: bool, responseArray: seq<string>, rx: string)
    requires SyncReady(env) && Answered(env, answers) && i + 1 < |env.clock| && !Overdue(env, i)
    requires SyncFrom(start, env, answers, i) == goal
    ensures i + 2 < |env.clock|
    ensures done ==> && (synced <==> goal.end == Synced) && (synced ==> responseArray == goal.fields)
                     && rx == goal.rx && goal.sent == i + 1
    ensures !done ==> SyncFrom(rx, env, answers, i + 1) == goal
  {
    NextAttempt(env, i);
    var response;
    response, rx := AwaitReply("", PREFIX, REPLY_TIMEOUT, env.replies[i]);
    if response == "" {
      return true, false, [], rx;
    }
    responseArray := SplitReply(response);
    synced := At(responseArray, 4) != Some(UNSYNCED_YEAR);
    done := synced;
  }

  /**
   * The part of `updateInternetTime` after its checks (ESP8266.ts:530-600), on the accumulator
   * `rx`, the time values `time` and the output log `written`: run the retry loop; once
   * synchronised, read the reply's fields into the time values and, when it had at least four
   * fields, wait for "OK", reporting the time updated only if it arrives.
   */
  method RefreshTime(rx: string, time: Reading, written: seq<string>, env: SyncTrace, ghost answers: seq<Reply>)
    returns (updated: bool, newTime: Reading, newRx: string, out: seq<string>)
    requires SyncReady(env) && Answered(env, answers)
    ensures var s := SyncFrom(rx, env, answers, 0);
      && out == written + Repeat(QUERY_TIME + CRLF, s.sent)
      && (s.end != Synced ==> !updated && newTime == time && newRx == s.rx)
      && (s.end == Synced ==>
            var p, ok := ReadTime(time, s.fields), Respond(s.rx, OK, OK_TIMEOUT, env.ok);
            && newTime == p.reading
            && (p.complete ==> newRx == ok.rest && (updated <==> ok.line != ""))
            && (!p.complete ==> newRx == s.rx && !updated))
  {
    var synced, responseArray;
    synced, responseArray, newRx, out := SyncLoop(rx, written, env, answers);
    updated, newTime := false, time;
    if !synced {
      return;
    }
    var parsed := ReadTime(time, responseArray);
    newTime := parsed.reading;
    if !parsed.complete {
      return;
    }
    var line;
    line, newRx := AwaitReply(newRx, OK, OK_TIMEOUT, env.ok);
    updated := line != "";
  }

  class Modem {
    var wifiConnected: bool
    var thingspeakConnected: bool
    var thingspeakUpload: bool
    var internetTimeInitialized: bool
    var internetTimeUpdated: bool
    /** Weekday, month, day, hour, minute, second and year as last read. */
    var time: Reading
    /** The last request or configuration command built. */
    var toSendStr: string
    /** The accumulator of `sendCommand` and `getResponse`. */
    var rxData: string
    /** The accumulator of the receive callback. */
    var recvString: string
    /** `mqttSubscribeHandlers`: the handler registered for each topic. */
    var handlers: map<string, HandlerId>
    /** Every line written to the module, terminator included, in order. */
    var output: seq<string>
    /** Every handler invocation, in order. */
    var calls: seq<Call>

    /**
     * The session invariant: a ThingSpeak connection is only ever marked on top of a Wi-Fi
     * connection, and the time is only marked updated once the time service was initialised.
     */
    predicate Valid()
      reads this
    {
      && (thingspeakConnected ==> wifiConnected)
      && (internetTimeUpdated ==> internetTimeInitialized)
    }

    /** The module-level initial values (ESP8266.ts:3-17): every flag false, every number 0, every string empty. */
    constructor ()
      ensures Valid()
      ensures !wifiConnected && !thingspeakConnected && !thingspeakUpload
      ensures !internetTimeInitialized && !internetTimeUpdated
      ensures time == Reading(Int(0), Int(0), Int(0), Int(0), Int(0), Int(0), Int(0))
      ensures toSendStr == "" && rxData == "" && recvString == ""
      ensures handlers == map[] && output == [] && calls == []
    {
      wifiConnected := false;
      thingspeakConnected := false;
      thingspeakUpload := false;
      internetTimeInitialized := false;
      internetTimeUpdated := false;
      time := Reading(Int(0), Int(0), Int(0), Int(0), Int(0), Int(0), Int(0));
      toSendStr := "";
      rxData := "";
      recvString := "";
      handlers := map[];
      output := [];
      calls := [];
    }

    /**
     * `sendCommand` (ESP8266.ts:62-103): empty the accumulator, write the command, and
     * without an expected response report success at once; otherwise wait for a line holding
     * it, giving up on a line with "ERROR" when the expected response is exactly "OK".
     */
    method SendCommand(command: string, expected: Option<string>, timeout: int, t: Trace) returns (result: bool)
      requires expected.Some? ==> Expires(t, timeout)
      modifies this`rxData, this`output
      ensures output == old(output) + [command + CRLF]
      ensures expected.None? ==> result && rxData == ""
      ensures expected.Some? ==>
        var w := Await("", expected.value, expected.value == OK, timeout, t, 0);
        (result <==> w.end == Found) && rxData == w.rx
      ensures result && expected.Some? ==> HasLine(rxData) && Contains(FirstLine(rxData), expected.value)
    {
      rxData := "";
      output := output + [command + CRLF];
      if expected.None? {
        return true;
      }
      var e := expected.value;
      AwaitDecides("", e, e == OK, timeout, t, 0);
      result, rxData := AwaitLine(e, timeout, t);
    }

    /**
     * `getResponse` (ESP8266.ts:105-132): wait on the shared accumulator for a line holding
     * `response` and return it, keeping the text after it; at the deadline return the whole
     * accumulator if it holds `response`, otherwise "".
     */
    method GetResponse(response: string, timeout: int, t: Trace) returns (line: string)
      requires Expires(t, timeout)
      modifies this`rxData
      ensures line == Respond(old(rxData), response, timeout, t).line
      ensures rxData == Respond(old(rxData), response, timeout, t).rest
      ensures line == "" || Contains(line, response)
    {
      line, rxData := AwaitReply(rxData, response, timeout, t);
    }

    /**
     * `connectWifi` (ESP8266.ts:159-188): clear both connection flags, ask to join the access
     * point, then scan what arrives for 10000 ms; the Wi-Fi flag ends as the scan decides.
     */
    method ConnectWifi(ssid: string, pw: string, t: Trace)
      requires Valid() && Expires(t, Scanners.WIFI_DEADLINE)
      modifies this`wifiConnected, this`thingspeakConnected, this`output
      ensures Valid()
      ensures wifiConnected == Scanners.ScanWait(Scanners.Wifi, "", Scanners.WIFI_DEADLINE, t, 0).success
      ensures !thingspeakConnected
      ensures output == old(output) + [JoinAccessPoint(ssid, pw) + CRLF]
    {
      wifiConnected := false;
      thingspeakConnected := false;
      output := output + [JoinAccessPoint(ssid, pw) + CRLF];
      wifiConnected := WaitForWifi(t);
    }

    /**
     * `connectThingSpeak` (ESP8266.ts:212-222): clear the flag and, on top of a Wi-Fi
     * connection only, open the TCP connection; the flag is set only when "OK" arrives in time.
     */
    method ConnectThingSpeak(t: Trace)
      requires Valid() && (wifiConnected ==> Expires(t, SETUP_TIMEOUT))
      modifies this`thingspeakConnected, this`rxData, this`output
      ensures Valid()
      ensures !wifiConnected ==> !thingspeakConnected && rxData == old(rxData) && output == old(output)
      ensures wifiConnected ==>
        var w := Await("", OK, true, SETUP_TIMEOUT, t, 0);
        && (thingspeakConnected <==> w.end == Found)
        && rxData == w.rx && output == old(output) + [OPEN_THINGSPEAK + CRLF]
    {
      thingspeakConnected := false;
      if !wifiConnected {
        return;
      }
      var ok := SendCommand(OPEN_THINGSPEAK, Some(OK), SETUP_TIMEOUT, t);
      if !ok {
        return;
      }
      thingspeakConnected := true;
    }

    /** `setData` (ESP8266.ts:245-264): build the update request for the eight fields. */
    method SetData(key: string, n1: int, n2: int, n3: int, n4: int, n5: int, n6: int, n7: int, n8: int)
      modifies this`toSendStr
      ensures toSendStr == UpdateRequest(key, [n1, n2, n3, n4, n5, n6, n7, n8])
    {
      toSendStr := UpdateRequest(key, [n1, n2, n3, n4, n5, n6, n7, n8]);
    }

    /**
     * `uploadData` (ESP8266.ts:272-302): clear the flag and, with a ThingSpeak connection
     * only, announce the request's length, write it, and scan what arrives for 4000 ms; the
     * flag ends as the scan decides.
     */
    method UploadData(t: Trace)
      requires Valid() && (thingspeakConnected ==> Expires(t, Scanners.UPLOAD_DEADLINE))
      modifies this`thingspeakUpload, this`output
      ensures Valid()
      ensures thingspeakUpload
        == (thingspeakConnected && Scanners.ScanWait(Scanners.Upload, "", Scanners.UPLOAD_DEADLINE, t, 0).success)
      ensures output == old(output)
        + (if thingspeakConnected then [AnnounceLength(toSendStr) + CRLF, toSendStr + CRLF] else [])
    {
      thingspeakUpload := false;
      if !thingspeakConnected {
        return;
      }
      output := output + [AnnounceLength(toSendStr) + CRLF];
      output := output + [toSendStr + CRLF];
      thingspeakUpload := WaitForSend(t);
    }

    /**
     * `mqtt_user_config` (ESP8266.ts:327-344): build the user configuration piece by piece,
     * an empty user name or password leaving its field empty, and write it.
     */
    method MqttUserConfig(scheme: int, clientId: string, username: string, password: string, path: string)
      modifies this`toSendStr, this`output
      ensures toSendStr == UserConfig(scheme, clientId, username, password, path)
      ensures output == old(output) + [toSendStr + CRLF]
    {
      toSendStr := "AT+MQTTUSERCFG=0," + IntToString(scheme) + ",\"" + clientId + "\",";
      ghost var head := toSendStr;
      if username == "" {
        toSendStr := toSendStr + ",";
        OptionalStep(head, username);
      } else {
        toSendStr := toSendStr + "\"" + username + "\",";
        OptionalStep(head, username);
      }
      ghost var middle := toSendStr;
      if password == "" {
        toSendStr := toSendStr + ",";
        OptionalStep(middle, password);
      } else {
        toSendStr := toSendStr + "\"" + password + "\",";
        OptionalStep(middle, password);
      }
      toSendStr := toSendStr + "0,0,\"" + path + "\"";
      UserConfigSteps(scheme, clientId, username, password, path);
      output := output + [toSendStr + CRLF];
    }

    /** `mqtt_connect` (ESP8266.ts:352-356): clean up the client, then connect to the broker. */
    method MqttConnect(server: string, port: int, reconnect: int)
      modifies this`output
      ensures output == old(output) + [CLEAN + CRLF, Connect(server, port, reconnect) + CRLF]
    {
      output := output + [CLEAN + CRLF];
      output := output + [Connect(server, port, reconnect) + CRLF];
    }

    /** `mqtt_publish` (ESP8266.ts:367-370): write the publish command. */
    method MqttPublish(topic: string, data: string, qos: int)
      modifies this`output
      ensures output == old(output) + [Publish(topic, data, qos) + CRLF]
    {
      output := output + [Publish(topic, data, qos) + CRLF];
    }

    /**
     * `mqtt_subscribe` (ESP8266.ts:380-383) with the stray quote after the QoS removed:
     * build the subscribe command and write it.
     */
    method MqttSubscribe(topic: string, qos: int)
      modifies this`toSendStr, this`output
      ensures toSendStr == Subscribe(topic, qos)
      ensures output == old(output) + [toSendStr + CRLF]
    {
      toSendStr := Subscribe(topic, qos);
      output := output + [toSendStr + CRLF];
    }

    /** `MqttEvent` (ESP8266.ts:392-394): register a handler for a topic, replacing any earlier one. */
    method MqttEvent(topic: string, handler: HandlerId)
      modifies this`handlers
      ensures handlers == old(handlers)[topic := handler]
    {
      handlers := handlers[topic := handler];
    }

    /**
     * The receive callback (ESP8266.ts:399-412): append the chunk; with the marker present,
     * cut the payload out, call the handler registered for its topic, and clear the
     * accumulator; otherwise drop the first 15 characters once it is longer than 30.
     */
    method OnDataReceived(chunk: string)
      modifies this`recvString, this`calls
      ensures recvString == Dispatch(old(recvString) + chunk, handlers).rest
      ensures calls == old(calls) + Dispatch(old(recvString) + chunk, handlers).calls
    {
      recvString := recvString + chunk;
      if Contains(recvString, MARKER) {
        ghost var recv := recvString;
        recvString := SliceTo(recvString, 0, |recvString| - 2);
        recvString := Slice(recvString, IndexOf(recvString, MARKER) + SKIP);
        assert recvString == Payload(recv);
        var fields := Split(recvString, ',');
        var topic := fields[0];
        var message := if |fields| > 1 then Some(fields[1]) else None;
        assert Event(topic, message) == DecodeEvent(recv);
        if topic in handlers {
          calls := calls + [Call(handlers[topic], message)];
        }
        recvString := "";
      } else if |recvString| > BOUND {
        recvString := recvString[KEEP..];
      }
    }

    /**
     * `initInternetTime` (ESP8266.ts:495-506): clear both time flags and, on top of a Wi-Fi
     * connection only, configure SNTP for the time zone; the first flag is set only when "OK"
     * arrives in time.
     */
    method InitInternetTime(timezone: int, t: Trace)
      requires Valid() && (wifiConnected ==> Expires(t, SETUP_TIMEOUT))
      modifies this`internetTimeInitialized, this`internetTimeUpdated, this`rxData, this`output
      ensures Valid()
      ensures !internetTimeUpdated
      ensures !wifiConnected ==> !internetTimeInitialized && rxData == old(rxData) && output == old(output)
      ensures wifiConnected ==>
        var w := Await("", OK, true, SETUP_TIMEOUT, t, 0);
        && (internetTimeInitialized <==> w.end == Found)
        && rxData == w.rx && output == old(output) + [SntpConfig(timezone) + CRLF]
    {
      internetTimeInitialized := false;
      internetTimeUpdated := false;
      if !wifiConnected {
        return;
      }
      var ok := SendCommand(SntpConfig(timezone), Some(OK), SETUP_TIMEOUT, t);
      if !ok {
        return;
      }
      internetTimeInitialized := true;
    }

    /**
     * `updateInternetTime` (ESP8266.ts:523-601): clear the flag and, with Wi-Fi and the time
     * service initialised, query the time until a reply not from 1970 arrives, read its fields
     * into the time values, and set the flag once the closing "OK" arrives. A reply with fewer
     * than four fields ends the call after the weekday, month and day are written. The ghost
     * `answers` are the replies the attempts' waits give; `TimeSync.AnswersAnswered` shows
     * they are `Answers(env)`, so the outcome is the one `SyncWait` describes.
     */
    method UpdateInternetTime(env: SyncTrace, ghost answers: seq<Reply>)
      requires Valid() && SyncReady(env) && Answered(env, answers)
      modifies this`internetTimeUpdated, this`time, this`rxData, this`output
      ensures Valid()
      ensures !(wifiConnected && internetTimeInitialized) ==>
        !internetTimeUpdated && time == old(time) && rxData == old(rxData) && output == old(output)
      ensures wifiConnected && internetTimeInitialized ==>
        var s := SyncFrom(old(rxData), env, answers, 0);
        && output == old(output) + Repeat(QUERY_TIME + CRLF, s.sent)
        && (s.end != Synced ==> !internetTimeUpdated && time == old(time) && rxData == s.rx)
        && (s.end == Synced ==>
              var p := ReadTime(old(time), s.fields);
              var ok := Respond(s.rx, OK, OK_TIMEOUT, env.ok);
              && time == p.reading
              && (p.complete ==> rxData == ok.rest && (internetTimeUpdated <==> ok.line != ""))
              && (!p.complete ==> rxData == s.rx && !internetTimeUpdated))
    {
      internetTimeUpdated := false;
      if !wifiConnected {
        return;
      }
      if !internetTimeInitialized {
        return;
      }
      internetTimeUpdated, time, rxData, output := RefreshTime(rxData, time, output, env, answers);
    }
  }
}
