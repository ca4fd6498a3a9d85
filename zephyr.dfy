/** The parts of Zephyr's interface that the application code uses: error numbers,
    poll flags, QoS levels, and the records it passes to and receives from the MQTT
    library. Only record construction and the values tested are modelled here; the
    library itself is represented by the results it returns. */
module Zephyr {
  import opened CString

  // Error numbers as Zephyr's errno.h defines them; only their distinctness matters here.
  const EIO: int := 5
  const ECHILD: int := 10
  const EAGAIN: int := 11
  const EMSGSIZE: int := 122
  const ENOTSUP: int := 134

  /** The bits of `struct pollfd`'s `events` and `revents` that the application sets or
      tests (POLLIN 0x0001, POLLERR 0x0008, POLLNVAL 0x0020). A bit mask is modelled as the
      set of its bits, so `(revents & POLLIN) == POLLIN` is `POLLIN in revents`. */
  datatype PollFlag = POLLIN | POLLERR | POLLNVAL | OtherPollBit(mask: nat)

  // `enum mqtt_qos`.
  const MQTT_QOS_0_AT_MOST_ONCE: nat := 0
  const MQTT_QOS_1_AT_LEAST_ONCE: nat := 1

  /** `enum mqtt_transport_type`, as far as the application tells the two apart. */
  datatype TransportType = NonSecure | Secure

  /** `struct mqtt_topic`: a topic string with its size in bytes and a QoS. */
  datatype MqttTopic = MqttTopic(utf8: seq<byte>, size: nat, qos: nat)

  /** `struct mqtt_subscription_list`. */
  datatype SubscriptionList = SubscriptionList(list: seq<MqttTopic>, listCount: nat, messageId: nat)

  /** `struct mqtt_publish_param` for an outgoing message. */
  datatype PublishParam = PublishParam(
    topic: MqttTopic,
    payload: seq<byte>,
    payloadLen: nat,
    messageId: nat,
    dupFlag: bool,
    retainFlag: bool)

  /** `struct mqtt_evt`: the event kinds the handler tells apart, each with the fields it reads.
      A PUBLISH carries the received topic bytes, their QoS and the declared payload
      length; its payload is still on the stream when the handler runs. */
  datatype MqttEvent =
    | ConnAck(result: int)
    | Disconnect(result: int)
    | Publish(result: int, messageId: nat, topic: seq<byte>, qos: nat, payloadLen: nat)
    | PubAck(result: int, messageId: nat)
    | SubAck(result: int, messageId: nat)
    | PingResp(result: int)
    | Unhandled(evtType: nat)

  /** An optional value. */
  datatype Option<T> = None | Some(value: T)

  /** The number of values of a `uint32_t`. */
  const U32: nat := 0x1_0000_0000
}
