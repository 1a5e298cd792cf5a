/**
 * The unsolicited-event dispatcher (the `serial.onDataReceived` callback) and the
 * topic-keyed handler registry written by `MqttEvent`.
 */
module Dispatcher {
  import opened Wrappers
  import opened Text
  import opened Framing

  const MARKER: string := "MQTTSUBRECV"
  /** The callback skips the marker and the one character after it. */
  const SKIP: nat := 12

  /** A registered handler, known by an id; the registry maps a topic to the latest one. */
  type HandlerId = nat

  /** One handler invocation; the message is `undefined` (None) when the payload had no comma. */
  datatype Call = Call(handler: HandlerId, message: Option<string>)

  /** The (topic, message) pair the callback extracts. */
  datatype Event = Event(topic: string, message: Option<string>)

  /**
   * ESP8266.ts:402-403: drop the last two characters, then skip 12 characters from the
   * first index of the marker in what remains (from index 11 when the trimming cut it).
   */
  function Payload(recv: string): string {
    var trimmed := SliceTo(recv, 0, |recv| - 2);
    Slice(trimmed, IndexOf(trimmed, MARKER) + SKIP)
  }

  /** ESP8266.ts:404-406: topic and message are the first two comma-separated fields of the payload. */
  function DecodeEvent(recv: string): Event {
    var fields := Split(Payload(recv), ',');
    Event(fields[0], if |fields| > 1 then Some(fields[1]) else None)
  }

  /** The handler invocations an event causes: the one registered for exactly its topic, if any. */
  function Deliver(e: Event, handlers: map<string, HandlerId>): (calls: seq<Call>)
    ensures |calls| <= 1
    ensures calls != [] <==> e.topic in handlers
    ensures forall c <- calls :: c.handler == handlers[e.topic] && c.message == e.message
  {
    if e.topic in handlers then [Call(handlers[e.topic], e.message)] else []
  }

  /** What one callback leaves behind: the new accumulator and the handler invocations. */
  datatype Pass = Pass(rest: string, calls: seq<Call>)

  /**
   * One callback after the chunk has been appended (`recv`, ESP8266.ts:401-411): with the
   * marker present, decode, deliver and clear; without it, invoke nothing and drop the first
   * 15 characters once the text exceeds 30.
   */
  function Dispatch(recv: string, handlers: map<string, HandlerId>): (p: Pass)
    ensures Contains(recv, MARKER) ==> p.rest == ""
    ensures !Contains(recv, MARKER) ==> p.calls == [] && p.rest == DropHead(recv)
    ensures |p.calls| <= 1
  {
    if Contains(recv, MARKER) then Pass("", Deliver(DecodeEvent(recv), handlers))
    else Pass(DropHead(recv), [])
  }

  /** A notification in the shape the callback decodes: marker, one separator, topic, comma, message, CR LF. */
  function Notification(topic: string, message: string): string {
    "+" + MARKER + ":" + (topic + "," + message) + CRLF
  }

  /** No proper suffix of the marker starts like the marker, so it cannot overlap itself. */
  lemma MarkerFirst(prefix: string, s: string)
    requires !Contains(prefix, MARKER)
    ensures IndexOf(prefix + MARKER + s, MARKER) == |prefix|
  {
    var x := prefix + MARKER + s;
    assert x[|prefix|..|prefix| + |MARKER|] == MARKER;
    IndexOfFirst(x, MARKER, |prefix|);
    IndexOfOccurs(x, MARKER);
    NoMarkerBefore(prefix, s, IndexOf(x, MARKER));
  }

  /** No marker starts inside a marker-free prefix, even one running on into a marker. */
  lemma NoMarkerBefore(prefix: string, s: string, j: int)
    requires !Contains(prefix, MARKER)
    ensures 0 <= j < |prefix| ==> !OccursAt(prefix + MARKER + s, MARKER, j)
  {
    var x := prefix + MARKER + s;
    if 0 <= j < |prefix| {
      if j + |MARKER| <= |prefix| {
        assert x[j..j + |MARKER|] == prefix[j..j + |MARKER|];
        IndexOfFirst(prefix, MARKER, j);
      } else {
        var d := |prefix| - j;
        assert x[|prefix|] == 'M';
        assert j + |MARKER| <= |x| ==> x[j..j + |MARKER|][d] == x[|prefix|];
        assert MARKER[d] != 'M';
      }
    }
  }

  /**
   * Round trip: a notification for a topic and message without commas, after any text
   * without the marker, decodes to that topic and message.
   */
  lemma DecodeNotification(prefix: string, topic: string, message: string)
    requires !Contains(prefix, MARKER)
    requires ',' !in topic && ',' !in message
    ensures Contains(prefix + Notification(topic, message), MARKER)
    ensures DecodeEvent(prefix + Notification(topic, message)) == Event(topic, Some(message))
  {
    var recv := prefix + Notification(topic, message);
    PayloadOfNotification(prefix, topic, message);
    SplitAt(topic, ',', message);
    SplitWithout(topic, ',');
    SplitWithout(message, ',');
    assert Split(Payload(recv), ',') == [topic, message];
  }

  /**
   * The payload is split at every comma and only the first two pieces are kept: a message
   * that itself holds a comma is delivered only up to that comma.
   */
  lemma SecondCommaDropped(prefix: string, topic: string, message: string, extra: string)
    requires !Contains(prefix, MARKER)
    requires ',' !in topic && ',' !in message
    ensures DecodeEvent(prefix + Notification(topic, message + "," + extra)) == Event(topic, Some(message))
  {
    var recv := prefix + Notification(topic, message + "," + extra);
    PayloadOfNotification(prefix, topic, message + "," + extra);
    assert topic + "," + (message + "," + extra) == topic + [','] + (message + [','] + extra);
    assert message + "," + extra == message + [','] + extra;
    SplitAt(topic, ',', message + [','] + extra);
    SplitAt(message, ',', extra);
    SplitWithout(topic, ',');
    SplitWithout(message, ',');
    assert Split(Payload(recv), ',')[..2] == [topic, message];
  }

  /** A character other than the marker's last one cannot complete a marker. */
  lemma MarkerFreeExtend(prefix: string, c: char)
    requires !Contains(prefix, MARKER) && c != MARKER[|MARKER| - 1]
    ensures !Contains(prefix + [c], MARKER)
  {
    var p := prefix + [c];
    forall j | 0 <= j && j + |MARKER| <= |p|
      ensures !OccursAt(p, MARKER, j)
    {
      if j + |MARKER| <= |prefix| {
        assert p[j..j + |MARKER|] == prefix[j..j + |MARKER|];
        IndexOfFirst(prefix, MARKER, j);
      } else {
        assert p[j..j + |MARKER|][|MARKER| - 1] == c;
      }
    }
    IndexOfOccurs(p, MARKER);
  }

  /** The payload of a notification is the topic, a comma and the message. */
  lemma PayloadOfNotification(prefix: string, topic: string, message: string)
    requires !Contains(prefix, MARKER)
    ensures Contains(prefix + Notification(topic, message), MARKER)
    ensures Payload(prefix + Notification(topic, message)) == topic + "," + message
  {
    var p := prefix + "+";
    var payload := topic + "," + message;
    var tail := ":" + payload;
    assert tail[1..] == payload;
    MarkerFreeExtend(prefix, '+');
    var recv := prefix + Notification(topic, message);
    NotificationShape(prefix, topic, message);
    MarkerFirst(p, tail + CRLF);
    assert IndexOf(recv, MARKER) == |p|;
    var trimmed := SliceTo(recv, 0, |recv| - 2);
    assert trimmed == p + MARKER + tail;
    SkipMarker(p, tail);
    assert Slice(trimmed, IndexOf(trimmed, MARKER) + SKIP) == payload;
    PayloadSteps(recv, trimmed);
  }

  lemma PayloadSteps(recv: string, trimmed: string)
    requires trimmed == SliceTo(recv, 0, |recv| - 2)
    ensures Payload(recv) == Slice(trimmed, IndexOf(trimmed, MARKER) + SKIP)
  {
  }

  lemma NotificationShape(prefix: string, topic: string, message: string)
    ensures prefix + Notification(topic, message) == (prefix + "+") + MARKER + ((":" + (topic + "," + message)) + CRLF)
  {
  }

  /** Skipping 12 characters from the first marker skips the marker and the separator after it. */
  lemma SkipMarker(p: string, tail: string)
    requires !Contains(p, MARKER) && |tail| >= 1
    ensures Slice(p + MARKER + tail, IndexOf(p + MARKER + tail, MARKER) + SKIP) == tail[1..]
  {
    MarkerFirst(p, tail);
    var x := p + MARKER + tail;
    assert x[|p| + SKIP..] == tail[1..];
  }

  /**
   * A notification for a registered topic invokes exactly the handler registered for it,
   * once, with the message, and clears the accumulator; for an unregistered topic it
   * invokes nothing and still clears it.
   */
  lemma DispatchNotification(prefix: string, topic: string, message: string, handlers: map<string, HandlerId>)
    requires !Contains(prefix, MARKER)
    requires ',' !in topic && ',' !in message
    ensures Dispatch(prefix + Notification(topic, message), handlers)
      == Pass("", if topic in handlers then [Call(handlers[topic], Some(message))] else [])
  {
    DecodeNotification(prefix, topic, message);
  }

  /**
   * The latest registration wins: after a handler `first` and then a handler `second` are
   * registered for a topic, a notification for it invokes `second` alone.
   */
  lemma LatestRegistrationWins(prefix: string, topic: string, message: string,
                               handlers: map<string, HandlerId>, first: HandlerId, second: HandlerId)
    requires !Contains(prefix, MARKER)
    requires ',' !in topic && ',' !in message
    ensures Dispatch(prefix + Notification(topic, message), handlers[topic := first][topic := second]).calls
      == [Call(second, Some(message))]
  {
    DispatchNotification(prefix, topic, message, handlers[topic := first][topic := second]);
  }

  /**
   * The dispatcher does not bound its accumulator: a callback that brings more than 15
   * characters without an 'M' leaves the accumulator longer than before and still without
   * an 'M', so a stream of such chunks makes it grow without limit.
   */
  lemma DispatchGrows(recv: string, chunk: string, handlers: map<string, HandlerId>)
    requires 'M' !in recv && 'M' !in chunk && |chunk| > KEEP
    ensures var p := Dispatch(recv + chunk, handlers);
      |p.rest| > |recv| && 'M' !in p.rest && p.calls == []
  {
    var s := recv + chunk;
    assert 'M' !in s;
    assert MARKER[0] == 'M';
    NotContainsWithoutHead(s, MARKER);
    var next := DropHead(s);
    forall k | 0 <= k < |next| ensures next[k] != 'M' {
      assert next[k] == s[|s| - |next| + k];
    }
  }

  /**
   * The quotes around a topic are not removed: a notification whose topic is quoted
   * is looked up with its quotes, so a handler registered for the bare topic is not invoked.
   */
  lemma QuotedTopicKept(topic: string, message: string, handlers: map<string, HandlerId>)
    requires ',' !in topic && ',' !in message
    requires topic in handlers && "\"" + topic + "\"" !in handlers
    ensures DecodeEvent(Notification("\"" + topic + "\"", message)).topic == "\"" + topic + "\""
    ensures Dispatch(Notification("\"" + topic + "\"", message), handlers) == Pass("", [])
  {
    var quoted := "\"" + topic + "\"";
    NotContainsWithoutHead("", MARKER);
    DecodeNotification("", quoted, message);
    DispatchNotification("", quoted, message, handlers);
    assert "" + Notification(quoted, message) == Notification(quoted, message);
  }
}
