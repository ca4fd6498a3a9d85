/** The application in `main.c`: the button handler, and the three callbacks it registers
    with the MQTT engine. Each maps its arguments to at most one effect, an LED change or a
    publish; the LED and button drivers are represented by these effects. */
module MainApp {
  import opened CString
  import opened Zephyr
  import opened Kconfig
  import opened PayloadReader
  import opened EventHandler

  /** `DK_BTN1_MSK` and `DK_BTN2_MSK`. */
  const DK_BTN1_MSK: bv32 := 1
  const DK_BTN2_MSK: bv32 := 2

  datatype Led = Led1 | Led2

  /** What a handler does: nothing, switch an LED, or `app_mqtt_publish(data, len)`. */
  datatype AppAction = NoAction | SetLed(led: Led, on: bool) | PublishMsg(data: seq<byte>, len: nat)

  /** The callbacks `main` registers: all three are set. */
  const MainCallbacks := Callbacks(true, true, true)

  /** Publishing a configured message: the literal's bytes, and its length without the
      terminator. The publish result is only logged. */
  function PublishLiteral(msg: seq<byte>): AppAction {
    PublishMsg(Literal(msg), |Literal(msg)| - 1)
  }

  /** `button_handler`: a switch on the changed mask, then a test of the button's bit. */
  function ButtonHandler(cfg: Config, buttonState: bv32, hasChanged: bv32): AppAction {
    if hasChanged == DK_BTN1_MSK then
      if buttonState & DK_BTN1_MSK != 0 then PublishLiteral(cfg.button1Msg) else NoAction
    else if hasChanged == DK_BTN2_MSK then
      if buttonState & DK_BTN2_MSK != 0 then PublishLiteral(cfg.button2Msg) else NoAction
    else NoAction
  }

  /** A button publishes exactly when it alone changed and is now pressed; the message
      sent is its configured text, and the terminator after it is not part of the length. */
  lemma ButtonPublishRule(cfg: Config, buttonState: bv32, hasChanged: bv32)
    requires Valid(cfg)
    ensures var a := ButtonHandler(cfg, buttonState, hasChanged);
      var btn1 := hasChanged == DK_BTN1_MSK && buttonState & DK_BTN1_MSK != 0;
      var btn2 := hasChanged == DK_BTN2_MSK && buttonState & DK_BTN2_MSK != 0;
      && (a.PublishMsg? <==> btn1 || btn2)
      && (!a.PublishMsg? ==> a == NoAction)
      && (a.PublishMsg? ==>
            var msg := if btn1 then cfg.button1Msg else cfg.button2Msg;
            a.len == |msg| && a.data[..a.len] == msg && a.data[a.len] == NUL && |a.data| == a.len + 1)
  {
    assert Literal(cfg.button1Msg)[..|cfg.button1Msg|] == cfg.button1Msg;
    assert Literal(cfg.button2Msg)[..|cfg.button2Msg|] == cfg.button2Msg;
  }

  /** Releases, and changes of both buttons at once, publish nothing. */
  lemma ButtonIgnored(cfg: Config, buttonState: bv32)
    ensures ButtonHandler(cfg, buttonState & !DK_BTN1_MSK, DK_BTN1_MSK) == NoAction
    ensures ButtonHandler(cfg, buttonState & !DK_BTN2_MSK, DK_BTN2_MSK) == NoAction
    ensures ButtonHandler(cfg, buttonState, DK_BTN1_MSK | DK_BTN2_MSK) == NoAction
  {
  }

  /** `mqtt_connected_handler` and `mqtt_disconnected_handler`: LED2 shows the connection. */
  function ConnectedHandler(): AppAction {
    SetLed(Led2, true)
  }

  function DisconnectedHandler(result: int): AppAction {
    SetLed(Led2, false)
  }

  /** The commands `mqtt_data_rx_handler` tests, in its order. */
  datatype Command = Led1On | Led1Off | Led2On | Led2Off

  /** `strncmp(data, CMD, sizeof(CMD) - 1) == 0`, as written: the buffer is compared with
      the command text whatever the received length is. */
  predicate CommandMatchesAsWritten(data: seq<byte>, len: nat, cmd: seq<byte>) {
    StrNEq(data, Literal(cmd), |Literal(cmd)| - 1)
  }

  /** The comparison evidently intended: the command text is a prefix of the `len` bytes
      actually received. */
  predicate CommandMatches(data: seq<byte>, len: nat, cmd: seq<byte>) {
    |cmd| <= len && CommandMatchesAsWritten(data, len, cmd)
  }

  /** The first command, in the handler's order, that `matches` accepts. */
  function FirstCommand(cfg: Config, data: seq<byte>, len: nat, bounded: bool): Option<Command> {
    var m := (cmd: seq<byte>) => if bounded then CommandMatches(data, len, cmd)
                                 else CommandMatchesAsWritten(data, len, cmd);
    if m(cfg.led1OnCmd) then Some(Led1On)
    else if m(cfg.led1OffCmd) then Some(Led1Off)
    else if m(cfg.led2OnCmd) then Some(Led2On)
    else if m(cfg.led2OffCmd) then Some(Led2Off)
    else None
  }

  /** The effect of a command: LED1 follows its two commands; the calls for LED2's commands
      are commented out in the source, so they do nothing. */
  function CommandAction(c: Option<Command>): AppAction {
    match c
    case Some(Led1On) => SetLed(Led1, true)
    case Some(Led1Off) => SetLed(Led1, false)
    case _ => NoAction
  }

  /** `mqtt_data_rx_handler` as written: `strcmp(topic_string, CONFIG_MQTT_SUB_TOPIC) == 0`,
      then the unbounded command tests. */
  function DataRxHandlerAsWritten(cfg: Config, data: seq<byte>, len: nat, topic: seq<byte>): AppAction {
    if CStr(topic) == cfg.subTopic then CommandAction(FirstCommand(cfg, data, len, false)) else NoAction
  }

  /** `mqtt_data_rx_handler` with the command tests bounded by the received length. */
  function DataRxHandler(cfg: Config, data: seq<byte>, len: nat, topic: seq<byte>): AppAction {
    if CStr(topic) == cfg.subTopic then CommandAction(FirstCommand(cfg, data, len, true)) else NoAction
  }

  /** The unbounded test is a prefix test on the whole buffer; the bounded one a prefix test
      on the received bytes. */
  lemma CommandMatchMeaning(data: seq<byte>, len: nat, cmd: seq<byte>)
    requires NoNul(cmd)
    ensures CommandMatchesAsWritten(data, len, cmd) <==> |cmd| <= |data| && data[..|cmd|] == cmd
    ensures CommandMatches(data, len, cmd) <==> |cmd| <= len && |cmd| <= |data| && data[..|cmd|] == cmd
  {
    StrNEqPrefix(data, cmd);
  }

  /** Only a message on exactly the subscribed topic is acted on, and it can only switch
      LED1: the first command in the order LED1 ON, LED1 OFF, LED2 ON, LED2 OFF whose text
      starts the received data decides, and the LED2 commands do nothing. */
  lemma DataRxRules(cfg: Config, data: seq<byte>, len: nat, topic: seq<byte>)
    requires Valid(cfg)
    ensures var a := DataRxHandler(cfg, data, len, topic);
      var starts := (cmd: seq<byte>) => |cmd| <= len && |cmd| <= |data| && data[..|cmd|] == cmd;
      && (CStr(topic) != cfg.subTopic ==> a == NoAction)
      && (CStr(topic) == cfg.subTopic ==>
            && (a == SetLed(Led1, true) <==> starts(cfg.led1OnCmd))
            && (a == SetLed(Led1, false) <==> !starts(cfg.led1OnCmd) && starts(cfg.led1OffCmd)))
      && a != SetLed(Led2, true) && a != SetLed(Led2, false) && !a.PublishMsg?
  {
    CommandMatchMeaning(data, len, cfg.led1OnCmd);
    CommandMatchMeaning(data, len, cfg.led1OffCmd);
  }

  /** The same rules for the handler as written, where a command is recognised when its
      text starts the buffer, whatever the received length. */
  lemma DataRxRulesAsWritten(cfg: Config, data: seq<byte>, len: nat, topic: seq<byte>)
    requires Valid(cfg)
    ensures var a := DataRxHandlerAsWritten(cfg, data, len, topic);
      var starts := (cmd: seq<byte>) => |cmd| <= |data| && data[..|cmd|] == cmd;
      && (CStr(topic) != cfg.subTopic ==> a == NoAction)
      && (CStr(topic) == cfg.subTopic ==>
            && (a == SetLed(Led1, true) <==> starts(cfg.led1OnCmd))
            && (a == SetLed(Led1, false) <==> !starts(cfg.led1OnCmd) && starts(cfg.led1OffCmd)))
      && a != SetLed(Led2, true) && a != SetLed(Led2, false) && !a.PublishMsg?
  {
    CommandMatchMeaning(data, len, cfg.led1OnCmd);
    CommandMatchMeaning(data, len, cfg.led1OffCmd);
  }

  /** The LEDs, as the handlers leave them. */
  datatype Leds = Leds(led1: bool, led2: bool)

  function Apply(leds: Leds, a: AppAction): Leds {
    match a
    case SetLed(Led1, on) => leds.(led1 := on)
    case SetLed(Led2, on) => leds.(led2 := on)
    case _ => leds
  }

  /** What the registered callbacks do for one action of the engine: only callback
      invocations reach the application. `bounded` selects the data handler: false is
      `mqtt_data_rx_handler` as `main.c` registers it, true the length-bounded one. */
  function React(cfg: Config, act: Action, bounded: bool): AppAction {
    match act
    case ConnectedCb => ConnectedHandler()
    case DisconnectedCb(result) => DisconnectedHandler(result)
    case DataRxCb(data, len, topic) =>
      if bounded then DataRxHandler(cfg, data, len, topic) else DataRxHandlerAsWritten(cfg, data, len, topic)
    case _ => NoAction
  }

  /** The LEDs after the application has reacted to a sequence of engine actions. */
  function Run(cfg: Config, leds: Leds, acts: seq<Action>, bounded: bool): Leds
    decreases |acts|
  {
    if acts == [] then leds else Run(cfg, Apply(leds, React(cfg, acts[0], bounded)), acts[1..], bounded)
  }

  /** The last connection callback, if any. */
  function LastConnection(acts: seq<Action>): Option<bool> {
    if acts == [] then None
    else if acts[|acts| - 1] == ConnectedCb then Some(true)
    else if acts[|acts| - 1].DisconnectedCb? then Some(false)
    else LastConnection(acts[..|acts| - 1])
  }

  lemma {:induction false} RunSnoc(cfg: Config, leds: Leds, acts: seq<Action>, act: Action, bounded: bool)
    ensures Run(cfg, leds, acts + [act], bounded) == Apply(Run(cfg, leds, acts, bounded), React(cfg, act, bounded))
    decreases |acts|
  {
    if acts == [] {
      assert acts + [act] == [act];
    } else {
      assert (acts + [act])[1..] == acts[1..] + [act];
      RunSnoc(cfg, Apply(leds, React(cfg, acts[0], bounded)), acts[1..], act, bounded);
    }
  }

  /** LED2 is on after `connected` and off after `disconnected`, whatever came in between:
      after any sequence of engine actions it shows the last connection callback, and is
      as it was if there was none. This holds with either data handler. */
  lemma {:induction false} Led2ShowsConnection(cfg: Config, leds: Leds, acts: seq<Action>, bounded: bool)
    requires Valid(cfg)
    ensures var l := LastConnection(acts);
      Run(cfg, leds, acts, bounded).led2 == if l.Some? then l.value else leds.led2
    decreases |acts|
  {
    if acts != [] {
      var init := acts[..|acts| - 1];
      var last := acts[|acts| - 1];
      assert acts == init + [last];
      RunSnoc(cfg, leds, init, last, bounded);
      Led2ShowsConnection(cfg, leds, init, bounded);
      if last.DataRxCb? {
        DataRxRules(cfg, last.data, last.len, last.topic);
        DataRxRulesAsWritten(cfg, last.data, last.len, last.topic);
      }
    }
  }

  /** The unbounded test as written acts on stale data: after a PUBLISH carrying the LED1
      ON command, a PUBLISH on the same topic with an empty payload leaves the buffer as it
      was, so the data callback sees the old command and LED1 is switched on again. With
      the test bounded by the received length nothing happens. */
  lemma StalePayloadMatches(cfg: Config, payload: seq<byte>, topic: seq<byte>, messageId: nat)
    requires Valid(cfg) && |payload| == |topic| == cfg.payloadBufferSize
    requires |cfg.subTopic| < cfg.payloadBufferSize && |cfg.led1OnCmd| > 0 && |cfg.led1OffCmd| > 0
    requires |cfg.led1OnCmd| <= |payload| && payload[..|cfg.led1OnCmd|] == cfg.led1OnCmd
    ensures var evt := Publish(0, messageId, cfg.subTopic, MQTT_QOS_1_AT_LEAST_ONCE, 0);
      var src := PayloadSource([], [], 0);
      var r := Dispatch(cfg, MainCallbacks, evt, src, payload, topic);
      var cb := r.actions[|r.actions| - 1];
      && cb == DataRxCb(payload, 0, r.topic)
      && DataRxHandlerAsWritten(cfg, cb.data, cb.len, cb.topic) == SetLed(Led1, true)
      && DataRxHandler(cfg, cb.data, cb.len, cb.topic) == NoAction
  {
    var evt := Publish(0, messageId, cfg.subTopic, MQTT_QOS_1_AT_LEAST_ONCE, 0);
    var src := PayloadSource([], [], 0);
    assert ValidPublish(cfg, evt, src);
    ExtractSucceeds(cfg.payloadBufferSize, 0, src, payload);
    assert payload[0..] == payload;
    DataDelivered(cfg, MainCallbacks, evt, src, payload, topic);
    var r := Dispatch(cfg, MainCallbacks, evt, src, payload, topic);
    assert r.payload == payload;
    TopicCopyBounded(topic, cfg.subTopic);
    assert cfg.subTopic[..TopicLen(|topic|, cfg.subTopic)] == cfg.subTopic;
    assert CStr(r.topic) == cfg.subTopic;
    CommandMatchMeaning(payload, 0, cfg.led1OnCmd);
    assert FirstCommand(cfg, payload, 0, false) == Some(Led1On);
    assert FirstCommand(cfg, payload, 0, true) != Some(Led1On);
    assert FirstCommand(cfg, payload, 0, true) != Some(Led1Off);
  }
}
