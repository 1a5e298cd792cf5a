# ESP8266 AT-command protocol engine, modelled in Dafny

This project models the protocol engine of the `DoChoiSTEM` ESP8266 driver (`ESP8266.ts`).
The engine drives a Wi-Fi co-processor over a serial link with text AT commands. It has five parts:

- **The line correlator.** `sendCommand` and `getResponse` share the accumulator `rxData`.
  They append each chunk read, cut lines at the first CR LF, and test each line for the expected text.
  `sendCommand` gives up early on "ERROR" when it waits for "OK". Both give up at a deadline.
- **The unsolicited-event dispatcher.** The receive callback looks for "MQTTSUBRECV" in its own
  accumulator `recvString`, decodes a (topic, message) pair, and calls the handler registered by `MqttEvent`.
- **The scanning wait loops** of `connectWifi` and `uploadData`. They search a growing buffer for
  tokens in a fixed priority order.
- **The session flags** (`wifi_connected`, `thingspeak_connected`, `thingspeak_upload`,
  `internetTimeInitialized`, `internetTimeUpdated`) and the operations that reset and set them.
- **The SNTP time reply** of `updateInternetTime`: the retry loop while the year is 1970, and the
  reading of weekday, month, day, time and year.

The AT command strings the driver builds are modelled as pure functions (`Commands`).

## How the outside world appears

The serial port and the clock are parameters.
- A `Transport.Trace` gives the clock readings a waiting loop takes and the chunk each iteration reads.
  `times[0]` is the start reading and `times[i + 1]` the reading at the top of iteration `i`.
- `TimeSync.SyncTrace` does the same for the retry loop of `updateInternetTime`.
- What the driver writes to the module is the `output` log of the `Modem` class: one entry per line,
  terminator included.
- Handlers are ids (`HandlerId`). Each invocation is recorded in `calls`.

Each waiting loop is a Dafny function of its trace: `Correlator.Await`, `Scanners.ScanWait` and
`TimeSync.SyncWait`. The retry loop is defined once, as `TimeSync.SyncFrom` over the reply each
attempt gets; `TimeSync.SyncWait` is that function on the replies its traces produce. The properties are proved about these functions. The imperative methods of
`Esp8266` run the loops as the source writes them, and their postconditions tie them to the functions.

Module layout:

| file | module | models |
|---|---|---|
| text.dfy | `Wrappers`, `Text` | `Option`; `includes`, `indexOf`, `slice`, `split`, `removeElement` |
| numbers.dfy | `Numbers` | integer rendering in concatenations; `parseInt` on digit fields |
| transport.dfy | `Transport` | the clock/serial trace of one wait |
| framing.dfy | `Framing` | CR LF lines; the two truncation policies |
| correlator.dfy | `Correlator` | the `sendCommand`/`getResponse` loop |
| scanners.dfy | `Scanners` | the `connectWifi`/`uploadData` scans |
| dispatcher.dfy | `Dispatcher` | the receive callback and the handler registry |
| commands.dfy | `Commands` | the AT command builders |
| sntp.dfy | `SntpTime` | the time reply's fields and their reading |
| timesync.dfy | `TimeSync` | the retry loop of `updateInternetTime` |
| esp8266.dfy | `Esp8266` | the driver's state (`Modem`) and its operations |

### Behaviour of the code worth knowing

- The receive callback drops the first 15 characters of its accumulator once it is longer than 30,
  and keeps all the others (ESP8266.ts:410-411). So an accumulator without an 'M', fed chunks of
  more than 15 characters that hold no 'M' either, grows without bound (`Dispatcher.DispatchGrows`).
  Only the scan loops keep a 15-character suffix (`Framing.KeepTail`, against `Framing.DropHead`).
- The callback does not take everything after the marker. It drops the last two characters, then
  skips 12 characters from the marker's first index: the marker plus one separator (ESP8266.ts:402-403).
- The payload is split with `split(",", 2)` (ESP8266.ts:404). Text from a second comma on is lost
  (`Dispatcher.SecondCommaDropped`). A payload without a comma gives an `undefined` message (`None`).
  Quotes around the topic are kept (`Dispatcher.QuotedTopicKept`).
- In `updateInternetTime`, a reply with fewer than four fields makes `responseArray[3].split` throw
  (ESP8266.ts:589), after the weekday, month and day have been written. The model ends the call there.
- The retry loop of `updateInternetTime` gives up after 20000 ms (ESP8266.ts:535), although the
  comment above that test says 10 seconds.
- `sendCommand` checks the clock before it inspects a line already in its accumulator
  (ESP8266.ts:79-99). A matching line that arrives in the same read as a line in front of it is
  only inspected in the next iteration. If that iteration's clock reading is past the deadline,
  the wait fails although the expected text has arrived (`Correlator.LineBehindMissed`).

## Model

| member | source | states |
|---|---|---|
| Correlator.Inspect | ESP8266.ts:85-100 | One line inspection: no complete line keeps waiting; a first line holding the expected text stops found; one holding "ERROR" stops refused when waiting for "OK"; any other line is cut off. No contract of its own: `Correlator.InspectSound` and `Correlator.InspectKeepsText` state its properties. |
| Correlator.Await | ESP8266.ts:77-101 | The wait loop as a function of the starting accumulator and the trace. No contract of its own: `Correlator.AwaitStep`, `Correlator.AwaitAccounts`, `Correlator.AwaitSkipped`, `Correlator.AwaitDecides` and `Correlator.AwaitDeadline` state its properties. |
| Correlator.LineBehindMissed | ESP8266.ts:79-99 | Waiting 100 ms for "OK" with clock readings 0, 0 and 200 and the single chunk "X" CR LF "OK" CR LF: the first iteration cuts off "X", and the wait then expires with "OK" CR LF still in the accumulator. |
| Correlator.InspectSound | ESP8266.ts:85-100 | Only the text before the first CR LF is examined. A discarded line is exactly that text and holds neither the expected text nor, when waiting for "OK", "ERROR". An "ERROR" stop happens only when waiting for "OK", and only on a line without the expected text. |
| Correlator.InspectKeepsText | ESP8266.ts:98-99 | One inspection neither loses nor reorders text: the accumulator is the line, its CR LF and the rest. |
| Correlator.AwaitAccounts | ESP8266.ts:77-101 | The starting accumulator followed by every chunk read equals the discarded lines (each with its CR LF) followed by the final accumulator. So every line is inspected exactly once, in arrival order. |
| Correlator.AwaitSkipped | ESP8266.ts:119-129 | Every discarded line was a complete line that neither matched nor, when waiting for "OK", contained "ERROR". |
| Correlator.AwaitDecides | ESP8266.ts:87-97 | A successful wait ends on a first line holding the expected text. Matching is tested before failure: a refused wait only happens when waiting for "OK", on a first line holding "ERROR" but not the expected text. |
| Correlator.AwaitDeadline | ESP8266.ts:77-82 | The clock is checked at the top of each iteration. The wait never gives up while within the deadline, and it expires exactly when the reading is past the deadline. |
| Correlator.AwaitStep | ESP8266.ts:79-100 | One on-time iteration: without a complete line the wait goes on with the grown accumulator. A first line with the expected text ends it found; one with "ERROR" ends it refused when waiting for "OK"; any other line is cut off and the wait goes on. |
| Correlator.Respond | ESP8266.ts:105-132 | `getResponse` returns either "" or a text holding the awaited response. |
| Correlator.RespondFound | ESP8266.ts:119-126 | On a match, the returned line, a CR LF and the text left in `rxData` make up the final accumulator exactly. The line holds the response and no CR LF. |
| Correlator.RespondNeverRefuses | ESP8266.ts:108-130 | `getResponse` ends only on a match or at the deadline, never on "ERROR". |
| Framing.FirstLine | ESP8266.ts:87 | `rxData.slice(0, rxData.indexOf("\r\n"))`. No contract of its own: `Framing.LineSplit` states its properties. |
| Framing.AfterLine | ESP8266.ts:99 | `rxData.slice(rxData.indexOf("\r\n") + 2)`. No contract of its own: `Framing.LineSplit` states its properties. |
| Framing.LineSplit | ESP8266.ts:87-99 | Cutting at the first CR LF gives a line without a terminator, and line + CR LF + rest is the accumulator. |
| Framing.KeepTail | ESP8266.ts:181-182 | The scan buffers keep a suffix of at most 30 characters: exactly 15 once they are longer than 30, otherwise unchanged. |
| Framing.DropHead | ESP8266.ts:410-411 | The dispatcher removes the first 15 characters once its accumulator is longer than 30 and keeps all the others. |
| Text.IndexOf | ESP8266.ts:87 | `indexOf` gives -1 or an index at which the whole pattern fits in the text; `Text.IndexOfOccurs` and `Text.IndexOfFirst` prove it is the first occurrence. |
| Text.Split | ESP8266.ts:546 | `split` of a one-character separator gives at least one piece, and no piece holds the separator. |
| Text.RemoveFirst | ESP8266.ts:549 | `removeElement` shortens the array by one when the element is present, and otherwise leaves it unchanged. |
| Text.RemoveFirstAt | ESP8266.ts:549 | The element `removeElement` removes is its first occurrence: everything before it and after it is kept, in order. |
| Text.StripEmpty | ESP8266.ts:549 | Removing "" one occurrence at a time until none is left gives the fields without the empty ones, in order. |
| Text.NonEmptyRemoveFirst | ESP8266.ts:549 | Removing the first "" does not change which non-empty fields remain. This is the invariant of the removal loop. |
| Text.JoinSplit | ESP8266.ts:546 | Splitting at a character and joining back gives the original text. |
| Numbers.DecimalString | ESP8266.ts:276 | A natural number concatenated into a command is a non-empty string of digits without a leading zero. |
| Numbers.ParseInt | ESP8266.ts:586 | `parseInt` of a field that starts with its digits, read in decimal: the value of those digits, or NaN when there are none. A field starting "0x" is read as its leading 0 (see Left out). No contract of its own: `Numbers.ParseDecimal` and `Numbers.ParsePad2` state its read-back. |
| Numbers.IntToString | ESP8266.ts:249 | An integer concatenated into a command is rendered in decimal, as JavaScript does for magnitudes below 1e21: a non-empty string of digits and '-'. A non-negative integer reads back with `parseInt` as itself; a negative one is a '-' followed by digits that read back as its magnitude. |
| Numbers.ParseDecimal | ESP8266.ts:586-595 | `parseInt` of the decimal rendering of a natural number gives the number back, for numbers of unbounded size. |
| Numbers.ParsePad2 | ESP8266.ts:590-592 | `parseInt` of a zero-padded two-digit field gives its value. |
| Scanners.Look | ESP8266.ts:168-182 | One scan of the buffer with the token tests in source order. No contract of its own: `Scanners.LookDecides` and `Scanners.LookKeeps` state its properties. |
| Scanners.ScanWait | ESP8266.ts:163-187 | The scan loop as a function of the buffer and the trace. No contract of its own: `Scanners.ScanStep`, `Scanners.ScanOutcome` and `Scanners.ScanDeadline` state its properties. |
| Scanners.ScanStep | ESP8266.ts:165-187 | One on-time iteration either goes round again with the buffer the tests kept, or stops with the flag they decided. |
| Scanners.LookDecides | ESP8266.ts:168-182 | Both directions of the priority rules. The Wi-Fi scan stops exactly when the buffer holds "FAIL" or "WIFI CONNECTED" but not "OK", and "OK" empties the buffer and keeps waiting. The upload scan (ESP8266.ts:286-296) stops exactly on "SEND OK" or "ERROR". A scan stops with a given flag exactly when the buffer shows that flag's tokens in priority order. |
| Scanners.LookKeeps | ESP8266.ts:168-182 | A buffer carried to the next iteration is a suffix of at most 30 characters. A stop follows the token priority: "FAIL" or "WIFI CONNECTED" only without "OK", and connected only without "FAIL"; uploaded on "SEND OK", failed on "ERROR" without it. |
| Scanners.ScanOutcome | ESP8266.ts:283-300 | A successful scan never expired. A scan that stopped early stopped on a buffer showing its tokens in priority order, holding at most 30 carried characters plus the last chunk. |
| Scanners.ScanDeadline | ESP8266.ts:166-186 | The scan never gives up within the deadline, and it expires exactly when the reading is past it. |
| Scanners.OkMasksConnected | ESP8266.ts:168-178 | When every chunk carries "OK", `connectWifi` never reports a connection, even if the chunks also carry "WIFI CONNECTED". It waits out its 10000 ms. |
| Dispatcher.Payload | ESP8266.ts:402-403 | Drop the last two characters, then skip 12 characters from the marker's first index. No contract of its own: `Dispatcher.PayloadOfNotification` states what it gives for a notification. |
| Dispatcher.DecodeEvent | ESP8266.ts:404-406 | The topic and message are the first two comma-separated pieces of the payload. No contract of its own: `Dispatcher.DecodeNotification` and `Dispatcher.SecondCommaDropped` state what it gives. |
| Dispatcher.SecondCommaDropped | ESP8266.ts:404-406 | A message holding a comma is delivered only up to that comma: the text after a second comma of the payload is lost. |
| Dispatcher.Deliver | ESP8266.ts:407 | At most one handler is called: the one registered for exactly the topic, with the message, and only if there is one. |
| Dispatcher.Dispatch | ESP8266.ts:399-412 | With the marker present, the accumulator is cleared whatever the topic, and at most one handler is called. Without it, nothing is called and the accumulator loses its first 15 characters once longer than 30. |
| Dispatcher.PayloadOfNotification | ESP8266.ts:402-403 | Dropping the trailing CR LF and skipping 12 characters from the marker leaves exactly "topic,message". |
| Dispatcher.DecodeNotification | ESP8266.ts:402-406 | Round trip: for a topic and message without commas, a notification after any marker-free text decodes to its own topic and message. |
| Dispatcher.DispatchNotification | ESP8266.ts:401-408 | For a topic and message without commas, a notification after any marker-free text calls the handler registered for its topic once, with its message, or nothing if none is registered. Either way it clears the accumulator. |
| Dispatcher.LatestRegistrationWins | ESP8266.ts:392-394 | After two registrations for a topic, a notification for that topic and a message, both without commas, calls only the later handler. |
| Dispatcher.DispatchGrows | ESP8266.ts:410-411 | For an accumulator and a chunk of more than 15 characters, neither holding an 'M', no handler is called and the accumulator ends longer than before and still without an 'M', so it can grow without bound. |
| Dispatcher.QuotedTopicKept | ESP8266.ts:404-407 | A quoted topic is looked up with its quotes: a handler registered under the bare topic is not called, and the accumulator is still cleared. |
| Commands.JoinAccessPoint | ESP8266.ts:162 | The join command. No contract of its own: `Commands.JoinAccessPointFields` states its arguments. |
| Commands.SntpConfig | ESP8266.ts:502 | The SNTP configuration command. No contract of its own: `Commands.SntpConfigFields` states its arguments. |
| Commands.UpdateRequest | ESP8266.ts:245-264 | The ThingSpeak update request. No contract of its own: `Commands.UpdateRequestParams` states its parameters. |
| Commands.AnnounceLength | ESP8266.ts:276 | The length announcement. No contract of its own: `Commands.AnnounceLengthExact` states the length it announces. |
| Commands.UserConfig | ESP8266.ts:327-341 | The MQTT user configuration command. No contract of its own: `Commands.UserConfigSteps` and `Commands.UserConfigFields` state its construction and arguments. |
| Commands.Connect | ESP8266.ts:355 | The broker connection command. No contract of its own: `Commands.ConnectFields` states its arguments. |
| Commands.Publish | ESP8266.ts:369 | The publish command. No contract of its own: `Commands.PublishFields` states its arguments. |
| Commands.SubscribeAsWritten | ESP8266.ts:381 | The subscribe command as written, with the stray quote. No contract of its own: `Commands.SubscribeAsWrittenQos` states its last argument. |
| Commands.Subscribe | ESP8266.ts:381 | The corrected subscribe command. No contract of its own: `Commands.SubscribeQos` states its last argument. |
| Commands.JoinAccessPointFields | ESP8266.ts:162 | The join command carries the quoted SSID and the quoted key as its two arguments. |
| Commands.SntpConfigFields | ESP8266.ts:502 | The SNTP configuration carries the enable flag, the time zone and the quoted server "pool.ntp.org". For every time zone the field reads back as it: as itself when non-negative, and as a '-' followed by its magnitude when negative. |
| Commands.UpdateRequestParams | ESP8266.ts:245-264 | The update request splits at '&' into the write key and the eight `fieldN=` parameters in order, when the key holds no '&'. |
| Commands.AnnounceLengthExact | ESP8266.ts:276 | The length announced by `AT+CIPSEND=` is exactly the length of the request plus its CR LF. |
| Commands.OptionalStep | ESP8266.ts:329-340 | Each `if` on an empty user name or password appends the same text as the optional field followed by its comma. |
| Commands.UserConfigSteps | ESP8266.ts:328-341 | Building the user configuration piece by piece gives the whole command. |
| Commands.UserConfigFields | ESP8266.ts:327-341 | The user configuration always has eight arguments. An empty user name or password leaves its argument empty rather than quoting "". |
| Commands.ConnectFields | ESP8266.ts:355 | The broker connection carries the quoted server, the port and the reconnect flag. |
| Commands.PublishFields | ESP8266.ts:369 | The publish command carries the quoted topic, the quoted data, the QoS and retain 0. |
| Commands.SubscribeAsWrittenQos | ESP8266.ts:381 | As written, the last argument of the subscribe command is the QoS followed by a quote, which is not a number. |
| Commands.SubscribeQos | ESP8266.ts:381 | Corrected, the last argument is the QoS and reads back as the QoS. |
| SntpTime.TimeFields | ESP8266.ts:545-549 | The fields of a time line: after the first ':', split at spaces, without the empty fields. No contract of its own: `SntpTime.ReplySplits` and `Esp8266.SplitReply` state what it gives. |
| SntpTime.WeekdayNumber | ESP8266.ts:559-567 | A recognised weekday gives a number in 1..7 whose name is the field. Any other field leaves the weekday unchanged. |
| SntpTime.MonthNumber | ESP8266.ts:570-583 | A recognised month gives a number in 1..12 whose name is the field. Any other field leaves the month unchanged. |
| SntpTime.WeekdayRoundTrip | ESP8266.ts:559-567 | Every weekday name reads back as its number. |
| SntpTime.MonthRoundTrip | ESP8266.ts:570-583 | Every month name reads back as its number. |
| SntpTime.At | ESP8266.ts:552 | Indexing past the end of the fields gives `undefined`; otherwise it gives the field. |
| SntpTime.Named | ESP8266.ts:559-583 | A matched name sets the value; an unmatched one keeps the previous value. |
| SntpTime.ReadTime | ESP8266.ts:558-595 | The parse completes exactly when there are at least four fields. The day is `parseInt` of the third field and the year `parseInt` of the fifth. An incomplete parse changes only weekday, month and day. |
| SntpTime.ReplySplits | ESP8266.ts:545-549 | A module time reply, with its space-padded day, splits into exactly weekday, month, day, time and year. |
| SntpTime.ClockFields | ESP8266.ts:589 | The time field splits at ':' into hour, minute and second. |
| SntpTime.ReadReply | ESP8266.ts:545-595 | Reading a module time reply gives back exactly its weekday, month, day, hour, minute, second and year. It counts as not synchronised exactly when the year is 1970. |
| SntpTime.PaddedSplits | ESP8266.ts:545-549 | A time reply whose day is zero-padded ("02") splits into exactly weekday, month, day, time and year. |
| SntpTime.ReadPaddedReply | ESP8266.ts:545-595 | Reading a time reply whose day is zero-padded gives back exactly its weekday, month, day, hour, minute, second and year. It counts as not synchronised exactly when the year is 1970. |
| SntpTime.ReplyYear | ESP8266.ts:551-554 | A module reply is retried exactly when its year is 1970. |
| SntpTime.YearText | ESP8266.ts:552 | The year field is "1970" exactly when the year is 1970. |
| TimeSync.SyncWait | ESP8266.ts:532-556 | The retry loop on the replies its traces produce. No contract of its own: `TimeSync.SyncFrom`, `TimeSync.SyncDeadline` and `TimeSync.AnswersAnswered` state its properties. |
| TimeSync.SyncStep | ESP8266.ts:533-556 | One attempt: past 20000 ms the loop times out. Otherwise, after the query, no time line ends it, a 1970 line goes round again, and any other line ends it synchronised. |
| TimeSync.Attempt | ESP8266.ts:533-556 | Each attempt either goes round again within the deadline, or ends the loop: by time-out when it starts late, otherwise after its query. |
| TimeSync.SyncDeadline | ESP8266.ts:532-556 | The loop never gives up within the deadline unless an attempt brought no time line. It times out exactly on an attempt that starts late, and it counts the queries sent. |
| TimeSync.SyncFrom | ESP8266.ts:532-556 | Whatever attempt the retry loop ends on, a synchronised end carries fields with no empty field and a fifth field other than "1970". |
| TimeSync.AnswersAnswered | ESP8266.ts:540-541 | The replies each attempt's `getResponse("+CIPSNTPTIME:", 2000)` gives on the emptied accumulator are the only sequence of replies its traces allow. |
| TimeSync.SyncedReply | ESP8266.ts:541-595 | A reply from a year other than 1970 ends the loop after one query, and its fields read back as exactly its date and time. |
| TimeSync.RetryUnsynced | ESP8266.ts:551-555 | A reply from 1970 makes the loop try again with the next attempt. |
| TimeSync.Retry | ESP8266.ts:551-555 | An on-time attempt whose time line says 1970 goes round again with the accumulator it left. |
| Esp8266.WifiTests | ESP8266.ts:168-182 | The `connectWifi` if-chain decides exactly what the scan function decides, and only a stop can set the flag. |
| Esp8266.WaitForWifi | ESP8266.ts:163-187 | The imperative scan loop of `connectWifi` ends with the flag the scan function decides for its trace. |
| Esp8266.UploadTests | ESP8266.ts:286-296 | The `uploadData` if-chain decides exactly what the scan function decides, and only a stop can set the flag. |
| Esp8266.WaitForSend | ESP8266.ts:281-300 | The imperative scan loop of `uploadData` ends with the flag the scan function decides for its trace. |
| Esp8266.AwaitLine | ESP8266.ts:75-102 | The imperative wait loop of `sendCommand` succeeds exactly when the wait function finds the expected line, and leaves the accumulator the wait function ends with. |
| Esp8266.AwaitReply | ESP8266.ts:106-131 | The imperative wait loop of `getResponse` returns the line and leaves the accumulator that the reply function gives. |
| Esp8266.SyncLoop | ESP8266.ts:532-556 | The imperative retry loop ends as the retry function decides: synchronised exactly when it says so, with its fields and the accumulator it leaves. It writes one time query per attempt. |
| Esp8266.QueryTime | ESP8266.ts:540-554 | One attempt after its query either ends the loop as the retry function decides for that attempt, or goes round again with the retry function unchanged. |
| Esp8266.RefreshTime | ESP8266.ts:530-600 | After the checks: the queries written and the accumulator are the retry loop's; the time values are the reading of the synchronised reply; the time is reported updated only after a complete parse and a closing "OK". |
| Esp8266.SplitReply | ESP8266.ts:545-549 | Slicing after the first ':', splitting at spaces and removing the empty fields gives the reply's fields. |
| Esp8266.Modem.constructor | ESP8266.ts:3-18 | Every flag starts false, every time value 0, every accumulator empty, and no handler is registered. |
| Esp8266.Modem.SendCommand | ESP8266.ts:62-103 | The command and its CR LF are written after `rxData` is emptied. Without an expected response it returns true and leaves `rxData` empty. Otherwise it returns true exactly when the wait found the expected text, on the first line of what is left in `rxData`. |
| Esp8266.Modem.GetResponse | ESP8266.ts:105-132 | The line returned and the text left in `rxData` are what the wait decides: the matching line and what follows it, or at the deadline the whole accumulator if it holds the response, else "". |
| Esp8266.Modem.ConnectWifi | ESP8266.ts:159-188 | Both connection flags are cleared and the join command is written. The Wi-Fi flag ends as the scan decides, and the session invariant is kept. |
| Esp8266.Modem.ConnectThingSpeak | ESP8266.ts:212-222 | The flag is cleared. Without Wi-Fi nothing is written. With Wi-Fi the flag is set exactly when "OK" arrives in time. |
| Esp8266.Modem.SetData | ESP8266.ts:245-264 | The pending request becomes the update request for the key and the eight values. |
| Esp8266.Modem.UploadData | ESP8266.ts:272-302 | The upload flag ends true only with a ThingSpeak connection and a "SEND OK" the scan sees in time. The length and the request are written only with a connection. |
| Esp8266.Modem.MqttUserConfig | ESP8266.ts:327-344 | The imperative construction gives the user configuration command, and it is written. |
| Esp8266.Modem.MqttConnect | ESP8266.ts:353-357 | The clean command and then the broker connection are written. |
| Esp8266.Modem.MqttPublish | ESP8266.ts:367-370 | The publish command is written. |
| Esp8266.Modem.MqttSubscribe | ESP8266.ts:380-383 | The corrected subscribe command is built and written. |
| Esp8266.Modem.MqttEvent | ESP8266.ts:392-394 | The handler is registered for the topic, replacing any earlier one. All other topics are unchanged. |
| Esp8266.Modem.OnDataReceived | ESP8266.ts:399-412 | The accumulator and the handler calls change exactly as one dispatch pass over the old accumulator plus the chunk says. |
| Esp8266.Modem.InitInternetTime | ESP8266.ts:495-506 | Both time flags are cleared. Without Wi-Fi nothing is written. With Wi-Fi the SNTP configuration is written, and the flag is set exactly when "OK" arrives in time. |
| Esp8266.Modem.UpdateInternetTime | ESP8266.ts:523-601 | The flag is cleared. Without Wi-Fi and initialisation nothing changes. Otherwise the time values are the reading of the synchronised reply, and the flag is set only after a complete parse and a closing "OK". The session invariant is kept. |

## Left out

- Serial setup and raw writes with pauses (`sendAT`'s pause, `initWIFI`, ESP8266.ts:57-60, 143-149) are I/O. Writes appear only as the `output` log.
- `basic.pause` and the real clock are left out. Clock readings come from the trace, and the trace has to reach the wait's deadline (`Expires`, `SyncReady`), as a real clock does.
- The flush `serial.readString()` at ESP8266.ts:66 is left out: the trace holds only what is read after the command.
- Interleaving between the receive callback and the waiting loops is concurrency and is left out. Each path is its own sequential step.
- The DHT11 driver (ESP8266.ts:603-708) is GPIO bit-banging with floating-point conversion, outside the protocol engine.
- The state getters (`wifiState`, `thingSpeakState`, `uploadThingSpeakState`, `getYear` … `isInternetTimeUpdated`; ESP8266.ts:196-203, 229-236, 309-316, 420-485, 513-515) only read a field. The `Modem` fields are read directly.
- The unused enums, block annotations, event ids and `httpGetCmd` are left out.
- Numbers are integers. The non-integer values `setData` could render are left out, as is `parseInt` on fields with a sign, leading spaces or non-digit text other than a digit prefix.
- Numbers.ParseInt: a field starting "0x" or "0X" is read by `parseInt` as hexadecimal ("0x10" is 16); the model reads its leading 0. The module's replies put no such field where `parseInt` is applied.
- Numbers.IntToString: JavaScript renders magnitudes of 1e21 and above in exponent form ("1e+21") and has no exact integers beyond 2^53; the model renders every integer exactly, in decimal.
- Numbers.ParseDecimal: the read-back holds for every natural number in the model; in JavaScript it holds only up to 2^53, where numbers stop being exact integers.
- Handler bodies are ids; the model records each call instead of running it.
- `mqttSubscribeHandlers` is a plain JavaScript object, so a topic such as "constructor" would find an inherited member. The model uses a map without those.
- Esp8266.Modem.UpdateInternetTime: the runtime error on a reply with fewer than four fields ends the call in the model (`complete` false); the exception reaching the caller is not modelled.
- Commands.AnnounceLengthExact: strings are sequences of code points. The announced length agrees with JavaScript's `length` (UTF-16 units) only for text in the Basic Multilingual Plane, and with the byte count `AT+CIPSEND` expects only for ASCII text.
- Esp8266.Modem.MqttSubscribe: it writes the corrected command (see Findings); `Commands.SubscribeAsWritten` keeps the command as written.

## Findings

| source | as written | input that shows it | evidently intended | confidence | as-written member | corrected member |
|---|---|---|---|---|---|---|
| ESP8266.ts:381 | `mqtt_subscribe` appends a stray `"` after the QoS: `AT+MQTTSUB=0,"topic",2"` | topic "t", qos 2: the last argument is `2"`, which is not a number | `AT+MQTTSUB=0,"topic",2`, the QoS as a bare number like the other numeric arguments | high; not executed | Commands.SubscribeAsWrittenQos | Commands.SubscribeQos |
