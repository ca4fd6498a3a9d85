# MQTT over Wi-Fi (nRF7002 DK): a verified model of the MQTT engine and its application

This project models the application logic of the MQTT sample for the nRF7002 DK in
Dafny. That logic is the MQTT engine in `src/app_mqtt.c` and the application rules in
`src/main.c`. Dafny proves the model's properties. The Zephyr MQTT library, the sockets,
`poll` and the random-number generator stand outside the model. The values they return
are inputs, as sequences of results.

- `CString` covers C strings as byte sequences: NUL terminators, `strlen`, `strncmp`,
  literals with `sizeof`, and `memcpy` over an array.
- `Zephyr` holds the errno values, the poll flags, the QoS constants and the MQTT
  parameter records and events the engine sees. It also defines one `Option` type and `U32`, the number of `uint32_t` values.
- `Kconfig` holds the build-time configuration (`CONFIG_*`). It requires that strings
  have no embedded NUL and that the payload buffer holds at least one byte.
- `PayloadReader` models `get_received_payload`. `Extract` is the specification, with
  lemmas on its return codes, its calls and the bytes it consumes.
  `GetReceivedPayload` is the loop over the `payload_buf` array, proved against
  `Extract`.
- `EventHandler` models `mqtt_evt_handler`. `Dispatch` is the per-event decision table,
  giving the actions in order and the buffers afterwards. `subscribe` and
  `data_publish_generic` contribute the parameter records they build.
- `ClientId` models `client_id_get`: the configured identifier, or `BOARD-%010u` of the
  random value. It includes `snprintf` and the proof that the identifier fits the
  buffer.
- `AppMqtt.Engine` is a class holding the module's statics:
  - `payload_buf`, `topic_buf` and the client-id buffer as arrays;
  - the registered callbacks, the client's transport type and id length;
  - the calls made so far, as a trace.

  Its methods are `app_mqtt_set_callbacks`, `subscribe`, `app_mqtt_publish`,
  `mqtt_evt_handler`, `client_id_get` and `client_init`. Each but `app_mqtt_set_callbacks`,
  whose contract is the registry update itself, is proved against the specification
  functions above.
- `Supervisor` models `fds_init` and `app_mqtt_run`:
  - the `pollfd` is a class;
  - the nested loops are methods, including the `connect_attempt` counter, which wraps
    at 32 bits;
  - the trace of the whole run is proved equal to the mutually recursive specification
    `Connecting` / `Polling`.
- `RunProperties` proves what every run does: the retry, delay, exit and disconnect
  rules.
- `MainApp` models the button handler and the three callbacks `main.c` registers, as
  functions to an LED change or a publish. `DataRxHandlerAsWritten` is
  `mqtt_data_rx_handler` as written, and `DataRxHandler` is the length-bounded
  correction (see Findings). `React` and `Run` take a flag that selects between the two.
  With the flag false they describe the registered callbacks. The module also proves how
  the LEDs follow a sequence of engine actions, for either handler.

## Model

| member | source | states |
|---|---|---|
| CString.StrLen | src/app_mqtt.c:309 | `strlen`: the first NUL's index, every byte before it non-NUL, or the whole length if there is none |
| CString.LiteralText | src/main.c:36-37 | `sizeof(literal) - 1` is the text's length, and the literal read as a C string is its text |
| CString.LiteralPrefix | src/app_mqtt.c:310-311 | a C string written at the start of a buffer reads back as itself, whatever bytes follow its terminator |
| CString.StrNEqPrefix | src/main.c:72 | `strncmp(data, CMD, sizeof(CMD) - 1) == 0` holds exactly when `data` starts with the command text |
| CString.Memcpy | src/app_mqtt.c:191 | `memcpy`: the first `n` bytes of the destination array become the source and the rest are unchanged |
| PayloadReader.DrainRequest | src/app_mqtt.c:50-51 | a discarding read asks for between 1 and `sizeof(payload_buf)` bytes and no more than the excess; it equals the source's request exactly when length ≤ 2·capacity |
| PayloadReader.AsWrittenRequestOverflows | src/app_mqtt.c:50-51 | the source's request `length - sizeof(payload_buf)` exceeds the buffer whenever length > 2·capacity (300 bytes into 128 requests 172) |
| PayloadReader.AsWrittenReadExceedsBuffer | src/app_mqtt.c:50-51 | with the source's request, a read that returns the whole request is within the library's promise, and copying its bytes into `payload_buf` breaks `Memcpy`'s precondition: more bytes than the array holds |
| PayloadReader.Drain | src/app_mqtt.c:49-64 | the drain loop and the final read-all leave a buffer of the same size, after at least one call |
| PayloadReader.DrainCalls | src/app_mqtt.c:49-61 | every discarding read asks for 1..capacity bytes; every call but the last is a discarding read that returned a positive count; the last is a failed discarding read or the read-all of what remains (at most capacity) |
| PayloadReader.DrainResult | src/app_mqtt.c:52-66 | the result is `-EIO` after a zero-byte read, the error of a failed read, the error of a failed read-all, and otherwise the pending code |
| PayloadReader.DrainConsumed | src/app_mqtt.c:49-61 | when no discarding read fails they consume exactly the excess over capacity, and a successful read-all consumes the rest |
| PayloadReader.DrainBuffer | src/app_mqtt.c:61-64 | after a successful read-all the buffer starts with the last payload bytes, and bytes past a fitting payload are untouched |
| PayloadReader.ExtractFits | src/app_mqtt.c:44-66 | a payload that fits is read by one read-all of its declared length; the result is that call's result, and on 0 the buffer starts with the payload |
| PayloadReader.ExtractOversize | src/app_mqtt.c:44-66 | an oversized payload gives `-EMSGSIZE` when every read succeeds, a read-all error takes precedence over it, and a zero-byte (`-EIO`) or failed discarding read ends the reads |
| PayloadReader.ExtractSucceeds | src/app_mqtt.c:44-66 | the result is non-negative exactly when the payload fitted and the read-all succeeded, and then the buffer holds the payload |
| PayloadReader.ExtractConsumes | src/app_mqtt.c:49-61 | when the drain completes, the discarding reads consume `length - min(length, capacity)` bytes and a successful read-all the rest: the whole declared payload |
| PayloadReader.GetReceivedPayload | src/app_mqtt.c:36-67 | the loop over `payload_buf` returns the code and calls `Extract` describes and leaves the buffer `Extract` describes |
| EventHandler.SubscribeList | src/app_mqtt.c:73-87 | one topic, the configured subscribe topic with its length and QoS 1, and message id 1234 |
| EventHandler.PublishParams | src/app_mqtt.c:109-120 | QoS 1, the topic's `strlen` as its size, the data, length and message id given, and neither the dup nor the retain flag |
| EventHandler.TopicCopyBounded | src/app_mqtt.c:190-192 | the copy keeps `min(size - 1, topic size)` bytes and puts a NUL right after them, always inside `topic_buf`; the rest is untouched, and the buffer then holds that prefix as a C string |
| EventHandler.PublishAcknowledged | src/app_mqtt.c:174-184 | a PUBLISH gets one PUBACK with its message id exactly when its QoS is 1, right after all payload reads, whatever the reader returned |
| EventHandler.DataDelivered | src/app_mqtt.c:186-199 | `data_rx` runs once, as the last action, exactly when it is set and the payload fitted and was read; it receives `payload_buf`, the declared length and the copied topic |
| EventHandler.OversizeKeepsSession | src/app_mqtt.c:201-204 | `-EMSGSIZE` gives neither a data callback nor a disconnect, and leaves `topic_buf` as it was |
| EventHandler.ReadFailureDisconnects | src/app_mqtt.c:205-214 | any other reader error gives exactly one `mqtt_disconnect`, as the last action, and no data callback |
| EventHandler.ConnAckRules | src/app_mqtt.c:143-156 | a refused CONNACK does nothing; an accepted one runs `connected` (if set) and then sends the single subscription |
| EventHandler.OtherEventRules | src/app_mqtt.c:157-244 | DISCONNECT runs only `disconnected` (if set) with the event's result; PUBACK, SUBACK, PINGRESP and unknown events do nothing; no non-PUBLISH event touches the buffers |
| ClientId.Decimal | src/app_mqtt.c:316 | `%u` gives at least one character, all of them decimal digits |
| ClientId.DecimalLength | src/app_mqtt.c:316 | a value below 10^w has at most w digits |
| ClientId.DecimalValue | src/app_mqtt.c:316 | reading back the digits of `%u` gives the value |
| ClientId.LeadingZeros | src/app_mqtt.c:316 | zero padding does not change the value the digits spell |
| ClientId.ZeroPaddedRoundTrip | src/app_mqtt.c:316 | `%0<w>u` of a value below 10^w is exactly w digits, and reading them back gives the value |
| ClientId.U32FitsRandomLen | src/app_mqtt.h:11 | every `uint32_t` is below 10^`RANDOM_LEN` |
| ClientId.ClientIdShape | src/app_mqtt.c:309-316 | a non-empty configured id is used as it is; otherwise the id is the board name, a dash and exactly ten digits that spell the random value |
| ClientId.ClientIdFits | src/app_mqtt.c:306-316 | the id and its terminator fit `MAX(sizeof(CONFIG_MQTT_CLIENT_ID), CLIENT_ID_LEN)`, so `snprintf` never truncates and the buffer holds the id as a C string |
| AppMqtt.Engine.constructor | src/app_mqtt.c:18-32 | the statics start zeroed: no callbacks, empty buffers of the configured size, nothing sent |
| AppMqtt.Engine.SetCallbacks | src/app_mqtt.c:374-377 | the registry is replaced as a whole |
| AppMqtt.Engine.Subscribe | src/app_mqtt.c:71-94 | exactly one `mqtt_subscribe` with `SubscribeList` is appended to the trace |
| AppMqtt.Engine.Publish | src/app_mqtt.c:130-133 | exactly one `mqtt_publish` on the configured publish topic is appended, and its result is returned |
| AppMqtt.Engine.HandleEvent | src/app_mqtt.c:137-245 | the handler appends the actions `Dispatch` gives and leaves `payload_buf` and `topic_buf` as `Dispatch` gives |
| AppMqtt.Engine.HandlePublish | src/app_mqtt.c:166-215 | the PUBLISH case over the arrays (reads, PUBACK, topic copy with `memcpy` and a NUL store, callback or disconnect) matches `Dispatch` |
| AppMqtt.Engine.ClientIdGet | src/app_mqtt.c:304-322 | the static buffer receives what `snprintf` stores, and then holds the formatted id as a C string |
| AppMqtt.Engine.ClientInit | src/app_mqtt.c:326-358 | `broker_init`'s result is returned and the transport is non-secure; the id is chosen and its `strlen` recorded only when the broker was resolved |
| Supervisor.PollFd.constructor | src/app_mqtt.c:30 | the static `pollfd` starts zeroed |
| Supervisor.FdsInit | src/app_mqtt.c:362-372 | non-secure: the socket is watched for `POLLIN` and 0 is returned; otherwise `-ENOTSUP` and `fds` is untouched |
| Supervisor.ExitOfFault | src/app_mqtt.c:408-437 | a pass ends the session exactly when one of the five conditions holds, and a `poll` or `mqtt_live` failure is reported before `revents` is looked at |
| Supervisor.WrappedMod | src/app_mqtt.c:382-392 | the `uint32_t` counter after k increments from 0 is k mod 2^32 |
| Supervisor.PollChecks | src/app_mqtt.c:410-437 | one pass records `revents` and applies the checks in the source's order, giving the exit `ExitOf` names, or none |
| Supervisor.ConnectLoop | src/app_mqtt.c:391-400 | the `do/while` connect loop produces the delays and attempts `Connecting` prescribes and keeps the counter equal to the attempt count mod 2^32 |
| Supervisor.PollLoop | src/app_mqtt.c:408-438 | the poll loop produces the passes `Polling` prescribes, up to the pass that ends the session |
| Supervisor.Run | src/app_mqtt.c:379-447 | the trace of the whole run equals `RunSpec`: `client_init`, then the supervisor from attempt 0 |
| RunProperties.ConnectingShape | src/app_mqtt.c:390-446 | every trace the outer loop produces keeps the disconnect, delay and fault rules and never starts with a disconnect |
| RunProperties.PollingShape | src/app_mqtt.c:408-446 | every trace from the poll loop onwards keeps the same rules |
| RunProperties.ConnectingAttempts | src/app_mqtt.c:391-396 | the connects from attempt a onwards are numbered a, a+1, …, across sessions |
| RunProperties.PollingAttempts | src/app_mqtt.c:408-446 | after a session the numbering resumes where it stopped |
| RunProperties.ConnectingRetries | src/app_mqtt.c:391-400 | with only failing connects the outer loop makes one attempt per failure and nothing but delays and attempts |
| RunProperties.RunSpecShape | src/app_mqtt.c:379-447 | the whole run keeps the five trace rules |
| RunProperties.RunDisconnectsOnce | src/app_mqtt.c:438-445 | every session end is followed at once by a disconnect, and in the supervisor's trace disconnects happen nowhere else |
| RunProperties.RunSessionsEndOnFault | src/app_mqtt.c:408-438 | a pass that keeps the session has none of the five faults, and the one that ends it has one and reports the first in the source's order |
| RunProperties.RunDelays | src/app_mqtt.c:391-396 | the k-th connect of the run is attempt k; a delay comes right before it exactly when k mod 2^32 ≠ 0, so never before the first; every delay is followed by an attempt |
| RunProperties.RunRetriesUnbounded | src/app_mqtt.c:391-400 | for any number of failing connects there is one attempt per failure, numbered 0, 1, 2, … |
| MainApp.ButtonPublishRule | src/main.c:31-55 | a button publishes exactly when it alone changed and is pressed; the publish sends its configured message, and the length leaves out the terminator |
| MainApp.ButtonIgnored | src/main.c:33-54 | releases, and changes of both buttons at once, publish nothing |
| MainApp.CommandMatchMeaning | src/main.c:72-83 | the as-written test is a prefix test on the whole buffer; the bounded one is a prefix test on the received bytes |
| MainApp.DataRxRulesAsWritten | src/main.c:67-85 | the handler as written acts only on a message on exactly the subscribed topic; the first command in the order LED1 ON, LED1 OFF, LED2 ON, LED2 OFF whose text starts the payload buffer (whatever the received length) decides; only LED1 is switched, and the LED2 commands do nothing |
| MainApp.DataRxRules | src/main.c:67-85 | the same rules for the length-bounded correction, where a command must start the `len` bytes received |
| MainApp.RunSnoc | src/main.c:57-91 | reacting to actions one more at a time changes the LEDs by that one action's effect, with either data handler |
| MainApp.Led2ShowsConnection | src/main.c:57-65 | after any sequence of engine actions LED2 shows the last `connected`/`disconnected` callback and is unchanged if there was none, with the handler as written and with the corrected one |
| MainApp.StalePayloadMatches | src/main.c:72 | an empty PUBLISH after an LED1 ON command reaches `data_rx` with length 0; the as-written handler switches LED1 on again, and the bounded one does nothing |

## Left out

- `broker_init` (src/app_mqtt.c:250-301): DNS resolution and the socket address. `ClientInit` takes its result as a parameter.
- The Zephyr MQTT library is represented only by the values it returns:
  - `mqtt_connect`, `mqtt_live`, `mqtt_input` and `poll` appear as sequences of results;
  - `mqtt_disconnect` is recorded as an action (`Disconnected` in the supervisor, `SendDisconnect` in the event handler), and its result is dropped;
  - the two payload readers appear as a `PayloadSource`;
  - packet encoding, keepalive timing and the sockets are not modelled.
- The model does not capture that `mqtt_input` is what invokes `mqtt_evt_handler`. `Supervisor.Run` and `AppMqtt.Engine.HandleEvent` are proved separately. So a fatal payload error inside `mqtt_input` calls `mqtt_disconnect` (src/app_mqtt.c:210), and the session end then calls it again (src/app_mqtt.c:442). `RunProperties.RunDisconnectsOnce` speaks only of the supervisor's own trace.
- Concurrency: `button_handler` runs in the button driver's context and calls `app_mqtt_publish` while `app_mqtt_run` is running (src/main.c:36, 119, 165). The model treats every `Engine` call as one sequential trace and makes no claim about interleavings.
- `mqtt_client_init`, and the settings `client_init` makes that nothing in the core reads: broker, buffers, protocol version and credentials.
- `sys_rand32_get` is a parameter: the client-id value and the PUBLISH message id.
- `k_sleep` is recorded as a `Sleep` action with the configured delay. Time itself is not modelled.
- `data_print` and every `LOG_*` call are logging only. The results of `mqtt_disconnect` and of a failed publish in `button_handler` are only logged. The results of `subscribe` (src/app_mqtt.c:154) and of `mqtt_publish_qos1_ack` (src/app_mqtt.c:183) are ignored. The model drops all of them.
- The two `while (1)` loops of `app_mqtt_run` never end. The model runs them until the supplied results are used up. Every trace is therefore a finite prefix of a real run, and the properties are stated for every such prefix.
- PayloadReader.Drain, PayloadReader.DrainCalls, PayloadReader.ExtractOversize, PayloadReader.GetReceivedPayload: these use the corrected discarding-read request `DrainRequest`, at most the buffer's size. For a declared length above twice the buffer's size, their calls therefore differ from the source's. The source's first read asks for `length - sizeof(payload_buf)` bytes, more than the buffer holds, and may overflow it (see Findings). For lengths up to twice the buffer's size the two requests are equal (`DrainRequest`'s contract).
- `Supervisor.PollChecks`: poll masks are modelled as sets of flags, and `(revents & F) == F` as membership. Bit patterns outside `POLLIN`, `POLLERR` and `POLLNVAL` are opaque `OtherPollBit`s.
- `Supervisor.FdsInit`: in this application the `-ENOTSUP` branch of `fds_init` cannot be reached, because `client_init` always sets the transport to non-secure. `AppMqtt.Engine.ClientInit` states this, and the supervisor keeps the branch for other transports.
- `RunProperties.RunDelays` states that the delay precedes every attempt except those where the `uint32_t` counter has wrapped to 0. This is more precise than "every attempt except the very first": after 2^32 attempts a second attempt runs without a delay.
- `PayloadReader.ValidSource` requires a read-all result ≤ 0, and a discarding read to return at most what was requested. These are the library's promises, not checks the source makes. A read-all is all or nothing: it either fills the buffer with the requested bytes or returns an error, and a partial write before an error is not modelled.
- `main` (src/main.c:93-166): Wi-Fi provisioning, semaphores and start-up. `dk_*` LED and button calls are recorded as `AppAction`s.
- `app_mqtt_publish_temp` and `app_mqtt_publish_temp_array` (src/app_mqtt.h:28-30) are declared but not defined in these files, and take floats.
- `mqtt_evt_handler` sends the PUBACK for a QoS 1 message even when extraction failed with an error that leads to a disconnect. The model follows the code.

## Findings

| source | as written | input that shows it | evidently intended | confidence | as-written member | corrected member |
|---|---|---|---|---|---|---|
| src/app_mqtt.c:50-51 | each discarding read asks for `length - sizeof(payload_buf)` bytes into `payload_buf` | a PUBLISH declaring 300 payload bytes with a 128-byte buffer: the first read may write 172 bytes into 128 | never request more than the buffer holds: `MIN(length - sizeof(payload_buf), sizeof(payload_buf))` | not executed | PayloadReader.AsWrittenRequestOverflows | PayloadReader.DrainRequest |
| src/main.c:72-83 | `strncmp(data, CMD, sizeof(CMD) - 1)` ignores the received length `len`, so it compares stale bytes left in `payload_buf` | an LED1 ON command, then a PUBLISH on the same topic with an empty payload: `data_rx` gets length 0, but the buffer still starts with the command, so LED1 is switched on again | match only when the command fits in the `len` bytes received | not executed | MainApp.StalePayloadMatches | MainApp.DataRxHandler |
