/** The build-time configuration (`CONFIG_*` symbols) the code reads. Their values are
    set outside the source files, so the model takes them as parameters. */
module Kconfig {
  import opened CString

  datatype Config = Config(
    board: seq<byte>,            // CONFIG_BOARD
    clientId: seq<byte>,         // CONFIG_MQTT_CLIENT_ID (may be empty)
    subTopic: seq<byte>,         // CONFIG_MQTT_SUB_TOPIC
    pubTopic: seq<byte>,         // CONFIG_MQTT_PUB_TOPIC
    payloadBufferSize: nat,      // CONFIG_MQTT_PAYLOAD_BUFFER_SIZE
    reconnectDelayS: nat,        // CONFIG_MQTT_RECONNECT_DELAY_S
    led1OnCmd: seq<byte>,        // CONFIG_TURN_LED1_ON_CMD
    led1OffCmd: seq<byte>,       // CONFIG_TURN_LED1_OFF_CMD
    led2OnCmd: seq<byte>,        // CONFIG_TURN_LED2_ON_CMD
    led2OffCmd: seq<byte>,       // CONFIG_TURN_LED2_OFF_CMD
    button1Msg: seq<byte>,       // CONFIG_BUTTON1_EVENT_PUBLISH_MSG
    button2Msg: seq<byte>)       // CONFIG_BUTTON2_EVENT_PUBLISH_MSG

  /** String symbols are C string literals (no terminator inside), and the payload buffer
      has room at least for a topic terminator. */
  predicate Valid(c: Config) {
    && NoNul(c.board) && NoNul(c.clientId) && NoNul(c.subTopic) && NoNul(c.pubTopic)
    && NoNul(c.led1OnCmd) && NoNul(c.led1OffCmd) && NoNul(c.led2OnCmd) && NoNul(c.led2OffCmd)
    && NoNul(c.button1Msg) && NoNul(c.button2Msg)
    && c.payloadBufferSize >= 1
  }
}
