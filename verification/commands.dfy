/**
 * The AT command strings the engine writes, built by plain concatenation: numbers are
 * rendered in decimal, text arguments are wrapped in double quotes, and arguments are
 * separated by commas.
 */
module Commands {
  import opened Wrappers
  import opened Text
  import opened Numbers
  import opened Framing

  /** `"\"" + s + "\""`. */
  function Quote(s: string): string {
    "\"" + s + "\""
  }

  /** The arguments of a command as the module receives them: the comma-separated fields. */
  function Fields(command: string): seq<string> {
    Split(command, ',')
  }

  /** A decimal rendering holds no separator: only digits and a minus sign. */
  lemma IntWithout(c: char, n: int)
    requires c != '-' && !IsDigit(c)
    ensures c !in IntToString(n)
  {
    var s := IntToString(n);
    forall k | 0 <= k < |s| ensures s[k] != c {
      assert IsDigit(s[k]) || s[k] == '-';
    }
  }

  /** The command names and fixed arguments hold no comma. */
  lemma CommaFree()
    ensures ',' !in "AT+MQTTUSERCFG=0" && ',' !in "AT+MQTTCONN=0" && ',' !in "AT+MQTTPUB=0"
    ensures ',' !in "AT+MQTTSUB=0" && ',' !in "AT+CIPSNTPCFG=1" && ',' !in "0"
  {
  }

  /** Appending a separator and a piece without it adds that piece. */
  lemma SplitAppend(prefix: string, c: char, piece: string)
    requires c !in piece
    ensures Split(prefix + [c] + piece, c) == Split(prefix, c) + [piece]
  {
    SplitAt(prefix, c, piece);
    SplitWithout(piece, c);
  }

  /** Arguments without commas, joined by commas, split back into themselves. */
  lemma Fields2(a0: string, a1: string)
    requires ',' !in a0 && ',' !in a1
    ensures Split(a0 + "," + a1, ',') == [a0, a1]
  {
    SplitWithout(a0, ',');
    SplitAppend(a0, ',', a1);
  }

  lemma Fields3(a0: string, a1: string, a2: string)
    requires ',' !in a0 && ',' !in a1 && ',' !in a2
    ensures Split(a0 + "," + a1 + "," + a2, ',') == [a0, a1, a2]
  {
    Fields2(a0, a1);
    SplitAppend(a0 + "," + a1, ',', a2);
  }

  lemma Fields4(a0: string, a1: string, a2: string, a3: string)
    requires ',' !in a0 && ',' !in a1 && ',' !in a2 && ',' !in a3
    ensures Split(a0 + "," + a1 + "," + a2 + "," + a3, ',') == [a0, a1, a2, a3]
  {
    Fields3(a0, a1, a2);
    SplitAppend(a0 + "," + a1 + "," + a2, ',', a3);
  }

  lemma Fields5(a0: string, a1: string, a2: string, a3: string, a4: string)
    requires ',' !in a0 && ',' !in a1 && ',' !in a2 && ',' !in a3 && ',' !in a4
    ensures Split(a0 + "," + a1 + "," + a2 + "," + a3 + "," + a4, ',') == [a0, a1, a2, a3, a4]
  {
    Fields4(a0, a1, a2, a3);
    SplitAppend(a0 + "," + a1 + "," + a2 + "," + a3, ',', a4);
  }

  lemma Fields8(a0: string, a1: string, a2: string, a3: string, a4: string, a5: string, a6: string, a7: string)
    requires ',' !in a0 && ',' !in a1 && ',' !in a2 && ',' !in a3
    requires ',' !in a4 && ',' !in a5 && ',' !in a6 && ',' !in a7
    ensures Split(a0 + "," + a1 + "," + a2 + "," + a3 + "," + a4 + "," + a5 + "," + a6 + "," + a7, ',')
      == [a0, a1, a2, a3, a4, a5, a6, a7]
  {
    var p4 := a0 + "," + a1 + "," + a2 + "," + a3 + "," + a4;
    Fields5(a0, a1, a2, a3, a4);
    SplitAppend(p4, ',', a5);
    SplitAppend(p4 + "," + a5, ',', a6);
    SplitAppend(p4 + "," + a5 + "," + a6, ',', a7);
  }

  /** `connectWifi`: join the access point (ESP8266.ts:162). */
  function JoinAccessPoint(ssid: string, pw: string): string {
    "AT+CWJAP=" + Quote(ssid) + "," + Quote(pw)
  }

  /** The access point command carries the network name and the key as two quoted arguments. */
  lemma JoinAccessPointFields(ssid: string, pw: string)
    requires ',' !in ssid && ',' !in pw
    ensures Fields(JoinAccessPoint(ssid, pw)) == ["AT+CWJAP=" + Quote(ssid), Quote(pw)]
  {
    Fields2("AT+CWJAP=" + Quote(ssid), Quote(pw));
  }

  /** `connectThingSpeak`: open the TCP connection to the ThingSpeak server (ESP8266.ts:218). */
  const OPEN_THINGSPEAK: string := "AT+CIPSTART=\"TCP\",\"api.thingspeak.com\",80"

  /** `initInternetTime`: enable SNTP with the timezone and the pool server (ESP8266.ts:13, 502). */
  const NTP_SERVER: string := "pool.ntp.org"

  function SntpConfig(timezone: int): string {
    "AT+CIPSNTPCFG=1," + IntToString(timezone) + "," + Quote(NTP_SERVER)
  }

  /**
   * The SNTP configuration carries the enable flag, the timezone and the quoted server; the
   * timezone field reads back as the timezone, after its '-' when it is west of Greenwich.
   */
  lemma SntpConfigFields(timezone: int)
    ensures Fields(SntpConfig(timezone)) == ["AT+CIPSNTPCFG=1", IntToString(timezone), Quote(NTP_SERVER)]
    ensures var f := Fields(SntpConfig(timezone))[1];
      && (timezone >= 0 ==> ParseInt(f) == Int(timezone))
      && (timezone < 0 ==> |f| >= 1 && f[0] == '-' && ParseInt(f[1..]) == Int(-timezone))
  {
    IntWithout(',', timezone);
    CommaFree();
    Fields3("AT+CIPSNTPCFG=1", IntToString(timezone), Quote(NTP_SERVER));
    assert "AT+CIPSNTPCFG=1," == "AT+CIPSNTPCFG=1" + ",";
  }

  /** `updateInternetTime`: query the SNTP time (ESP8266.ts:540). */
  const QUERY_TIME: string := "AT+CIPSNTPTIME?"

  /** `setData` (ESP8266.ts:245-264): the ThingSpeak update request for a write key and eight field values. */
  function UpdateRequest(key: string, n: seq<int>): string
    requires |n| == 8
  {
    "GET /update?api_key=" + key
      + "&field1=" + IntToString(n[0]) + "&field2=" + IntToString(n[1])
      + "&field3=" + IntToString(n[2]) + "&field4=" + IntToString(n[3])
      + "&field5=" + IntToString(n[4]) + "&field6=" + IntToString(n[5])
      + "&field7=" + IntToString(n[6]) + "&field8=" + IntToString(n[7])
  }

  /**
   * The request carries the write key and the eight values as separate parameters, in
   * order, when the key holds no '&'.
   */
  lemma UpdateRequestParams(key: string, n: seq<int>)
    requires |n| == 8 && '&' !in key
    ensures Split(UpdateRequest(key, n), '&') == [
      "GET /update?api_key=" + key,
      "field1=" + IntToString(n[0]), "field2=" + IntToString(n[1]),
      "field3=" + IntToString(n[2]), "field4=" + IntToString(n[3]),
      "field5=" + IntToString(n[4]), "field6=" + IntToString(n[5]),
      "field7=" + IntToString(n[6]), "field8=" + IntToString(n[7])]
  {
    IntWithout('&', n[0]); IntWithout('&', n[1]); IntWithout('&', n[2]); IntWithout('&', n[3]);
    IntWithout('&', n[4]); IntWithout('&', n[5]); IntWithout('&', n[6]); IntWithout('&', n[7]);
    Params8(key, IntToString(n[0]), IntToString(n[1]), IntToString(n[2]), IntToString(n[3]),
      IntToString(n[4]), IntToString(n[5]), IntToString(n[6]), IntToString(n[7]));
  }

  /** The first half of the request: the key and four parameters. */
  lemma Params4(key: string, v0: string, v1: string, v2: string, v3: string)
    requires '&' !in key && '&' !in v0 && '&' !in v1 && '&' !in v2 && '&' !in v3
    ensures Split("GET /update?api_key=" + key
      + "&field1=" + v0 + "&field2=" + v1 + "&field3=" + v2 + "&field4=" + v3, '&')
      == ["GET /update?api_key=" + key, "field1=" + v0, "field2=" + v1, "field3=" + v2, "field4=" + v3]
  {
    FieldTags();
    var p0 := "GET /update?api_key=" + key;
    SplitWithout(p0, '&');
    var p1 := p0 + "&field1=" + v0;
    SplitParam(p0, "&field1=", v0);
    var p2 := p1 + "&field2=" + v1;
    SplitParam(p1, "&field2=", v1);
    SplitParam(p2, "&field3=", v2);
    SplitParam(p2 + "&field3=" + v2, "&field4=", v3);
  }

  /** The request with eight values that hold no '&' splits into the key and the eight parameters. */
  lemma Params8(key: string, v0: string, v1: string, v2: string, v3: string, v4: string, v5: string, v6: string, v7: string)
    requires '&' !in key && '&' !in v0 && '&' !in v1 && '&' !in v2 && '&' !in v3
    requires '&' !in v4 && '&' !in v5 && '&' !in v6 && '&' !in v7
    ensures Split("GET /update?api_key=" + key
      + "&field1=" + v0 + "&field2=" + v1 + "&field3=" + v2 + "&field4=" + v3
      + "&field5=" + v4 + "&field6=" + v5 + "&field7=" + v6 + "&field8=" + v7, '&')
      == ["GET /update?api_key=" + key, "field1=" + v0, "field2=" + v1, "field3=" + v2, "field4=" + v3,
          "field5=" + v4, "field6=" + v5, "field7=" + v6, "field8=" + v7]
  {
    FieldTags();
    var p4 := "GET /update?api_key=" + key + "&field1=" + v0 + "&field2=" + v1 + "&field3=" + v2 + "&field4=" + v3;
    Params4(key, v0, v1, v2, v3);
    SplitParam(p4, "&field5=", v4);
    var p5 := p4 + "&field5=" + v4;
    SplitParam(p5, "&field6=", v5);
    var p6 := p5 + "&field6=" + v5;
    SplitParam(p6, "&field7=", v6);
    SplitParam(p6 + "&field7=" + v6, "&field8=", v7);
  }

  /** A parameter tag: the separator, then text without it. */
  predicate Tag(c: char, tag: string) {
    |tag| >= 1 && tag[0] == c && c !in tag[1..]
  }

  lemma FieldTags()
    ensures Tag('&', "&field1=") && Tag('&', "&field2=") && Tag('&', "&field3=") && Tag('&', "&field4=")
    ensures Tag('&', "&field5=") && Tag('&', "&field6=") && Tag('&', "&field7=") && Tag('&', "&field8=")
  {
  }

  /** Appending a tag and a value adds the tag's text and the value as one more piece. */
  lemma SplitParam(prefix: string, tag: string, value: string)
    requires Tag('&', tag) && '&' !in value
    ensures Split(prefix + tag + value, '&') == Split(prefix, '&') + [tag[1..] + value]
  {
    var piece := tag[1..] + value;
    forall k | 0 <= k < |piece| ensures piece[k] != '&' {
      if k >= |tag| - 1 {
        assert piece[k] == value[k - (|tag| - 1)];
      }
    }
    PeelFirst(prefix, tag, value);
    SplitAppend(prefix, '&', piece);
  }

  /** Peeling the first character of a tag off the text that follows it. */
  lemma PeelFirst(prefix: string, tag: string, rest: string)
    requires |tag| >= 1
    ensures prefix + tag + rest == prefix + [tag[0]] + (tag[1..] + rest)
  {
    assert tag == [tag[0]] + tag[1..];
  }

  /** `uploadData`: announce the number of bytes about to be sent (ESP8266.ts:276). */
  function AnnounceLength(request: string): string {
    "AT+CIPSEND=" + IntToString(|request| + 2)
  }

  /** The announced length is exactly what `sendAT` then writes: the request and its CR LF. */
  lemma AnnounceLengthExact(request: string)
    ensures var c := AnnounceLength(request);
      |c| > 11 && c[..11] == "AT+CIPSEND=" && ParseInt(c[11..]) == Int(|request + CRLF|)
  {
    var c := AnnounceLength(request);
    assert c[11..] == DecimalString(|request| + 2);
    ParseDecimal(|request| + 2);
  }

  /** An optional argument: empty when absent, quoted when present. */
  function Optional(s: string): string {
    if s == "" then "" else Quote(s)
  }

  /**
   * `mqtt_user_config` (ESP8266.ts:327-341): scheme, quoted client id, then the user name and
   * the password, each followed by a comma and quoted only when not empty, then "0,0," and
   * the quoted path.
   */
  function UserConfig(scheme: int, clientId: string, username: string, password: string, path: string): string {
    "AT+MQTTUSERCFG=0," + IntToString(scheme) + "," + Quote(clientId) + ","
      + Optional(username) + "," + Optional(password) + ","
      + "0,0," + Quote(path)
  }

  /** Appending an optional field and its comma, as `mqtt_user_config` does for the user name and the password. */
  lemma OptionalStep(prev: string, s: string)
    ensures s == "" ==> prev + "," == prev + Optional(s) + ","
    ensures s != "" ==> prev + "\"" + s + "\"," == prev + Optional(s) + ","
  {
    if s == "" {
      assert prev + "" == prev;
    }
  }

  /** The piece-by-piece construction of the user configuration gives the same command. */
  lemma UserConfigSteps(scheme: int, clientId: string, username: string, password: string, path: string)
    ensures "AT+MQTTUSERCFG=0," + IntToString(scheme) + ",\"" + clientId + "\","
      + Optional(username) + "," + Optional(password) + "," + "0,0,\"" + path + "\""
      == UserConfig(scheme, clientId, username, password, path)
  {
    ConfigPieces("AT+MQTTUSERCFG=0," + IntToString(scheme), clientId, Optional(username), Optional(password), path);
  }

  /** `UserConfigSteps` over abstract pieces, so that only concatenation is in view. */
  lemma ConfigPieces(head: string, c: string, u: string, p: string, path: string)
    ensures head + ",\"" + c + "\"," + u + "," + p + "," + "0,0,\"" + path + "\""
      == head + "," + Quote(c) + "," + u + "," + p + "," + "0,0," + Quote(path)
  {
    assert head + ",\"" + c + "\"," == head + "," + Quote(c) + ",";
    assert "0,0,\"" + path + "\"" == "0,0," + Quote(path);
  }

  /**
   * The user configuration always has eight arguments: an empty user name or password leaves
   * its argument empty rather than quoting an empty string.
   */
  lemma UserConfigFields(scheme: int, clientId: string, username: string, password: string, path: string)
    requires ',' !in clientId && ',' !in username && ',' !in password && ',' !in path
    ensures Fields(UserConfig(scheme, clientId, username, password, path))
      == ["AT+MQTTUSERCFG=0", IntToString(scheme), Quote(clientId), Optional(username), Optional(password), "0", "0", Quote(path)]
  {
    IntWithout(',', scheme);
    CommaFree();
    var p0 := "AT+MQTTUSERCFG=0";
    Fields8(p0, IntToString(scheme), Quote(clientId), Optional(username), Optional(password), "0", "0", Quote(path));
    var p4 := p0 + "," + IntToString(scheme) + "," + Quote(clientId) + "," + Optional(username) + "," + Optional(password);
    assert "AT+MQTTUSERCFG=0," == p0 + ",";
    assert p4 + "," + "0,0," == p4 + "," + "0" + "," + "0" + "," by {
      assert "0,0," == "0" + "," + "0" + ",";
      Assoc(p4, ",", "0,0,");
      Assoc(p4 + ",", "0", ",0,");
      Assoc(p4 + "," + "0", ",", "0,");
      Assoc(p4 + "," + "0" + ",", "0", ",");
    }
  }

  /** `mqtt_connect` (ESP8266.ts:354-355): clean the link, then connect to the broker. */
  const CLEAN: string := "AT+MQTTCLEAN=0"

  function Connect(server: string, port: int, reconnect: int): string {
    "AT+MQTTCONN=0," + Quote(server) + "," + IntToString(port) + "," + IntToString(reconnect)
  }

  /** The connect command carries the quoted server, the port and the reconnect flag. */
  lemma ConnectFields(server: string, port: int, reconnect: int)
    requires ',' !in server
    ensures Fields(Connect(server, port, reconnect)) == ["AT+MQTTCONN=0", Quote(server), IntToString(port), IntToString(reconnect)]
  {
    IntWithout(',', port);
    IntWithout(',', reconnect);
    CommaFree();
    Fields4("AT+MQTTCONN=0", Quote(server), IntToString(port), IntToString(reconnect));
    assert "AT+MQTTCONN=0," == "AT+MQTTCONN=0" + ",";
  }

  /** `mqtt_publish` (ESP8266.ts:369): topic and data quoted, then the QoS and retain 0. */
  function Publish(topic: string, data: string, qos: int): string {
    "AT+MQTTPUB=0," + Quote(topic) + "," + Quote(data) + "," + IntToString(qos) + ",0"
  }

  /** The publish command carries the quoted topic, the quoted data, the QoS and the retain flag. */
  lemma PublishFields(topic: string, data: string, qos: int)
    requires ',' !in topic && ',' !in data
    ensures Fields(Publish(topic, data, qos)) == ["AT+MQTTPUB=0", Quote(topic), Quote(data), IntToString(qos), "0"]
  {
    IntWithout(',', qos);
    CommaFree();
    var p0 := "AT+MQTTPUB=0";
    Fields5(p0, Quote(topic), Quote(data), IntToString(qos), "0");
    var p3 := p0 + "," + Quote(topic) + "," + Quote(data) + "," + IntToString(qos);
    assert "AT+MQTTPUB=0," == p0 + ",";
    assert p3 + ",0" == p3 + "," + "0" by {
      Assoc(p3, ",", "0");
    }
  }

  /** `mqtt_subscribe` as written (ESP8266.ts:381): a stray quote follows the QoS. */
  function SubscribeAsWritten(topic: string, qos: int): string {
    "AT+MQTTSUB=0," + Quote(topic) + "," + IntToString(qos) + "\""
  }

  /** The subscribe command the module's syntax calls for: the quoted topic, then the bare QoS. */
  function Subscribe(topic: string, qos: int): string {
    "AT+MQTTSUB=0," + Quote(topic) + "," + IntToString(qos)
  }

  /** As written, the last argument is the QoS followed by a quote, which is not a number. */
  lemma SubscribeAsWrittenQos(topic: string, qos: int)
    requires ',' !in topic
    ensures Fields(SubscribeAsWritten(topic, qos)) == ["AT+MQTTSUB=0", Quote(topic), IntToString(qos) + "\""]
    ensures !AllDigits(Fields(SubscribeAsWritten(topic, qos))[2])
  {
    var last := IntToString(qos) + "\"";
    IntWithout(',', qos);
    CommaFree();
    assert ',' !in last;
    var p0 := "AT+MQTTSUB=0";
    Fields3(p0, Quote(topic), last);
    assert "AT+MQTTSUB=0," == p0 + ",";
    assert p0 + "," + Quote(topic) + "," + IntToString(qos) + "\"" == p0 + "," + Quote(topic) + "," + last by {
      Assoc(p0 + "," + Quote(topic) + ",", IntToString(qos), "\"");
    }
    assert !IsDigit(last[|last| - 1]);
  }

  /** Corrected, the last argument is the QoS itself and reads back as the QoS. */
  lemma SubscribeQos(topic: string, qos: nat)
    requires ',' !in topic
    ensures Fields(Subscribe(topic, qos)) == ["AT+MQTTSUB=0", Quote(topic), IntToString(qos)]
    ensures ParseInt(Fields(Subscribe(topic, qos))[2]) == Int(qos)
  {
    IntWithout(',', qos);
    CommaFree();
    Fields3("AT+MQTTSUB=0", Quote(topic), IntToString(qos));
    assert "AT+MQTTSUB=0," == "AT+MQTTSUB=0" + ",";
    ParseDecimal(qos);
  }
}
