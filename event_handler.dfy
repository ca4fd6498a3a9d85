/** `mqtt_evt_handler` as a specification: for each event, the calls it makes in order
    (payload reads, acknowledgements, subscribe, disconnect and the application callbacks)
    and what the payload and topic buffers hold afterwards. `subscribe` and
    `data_publish_generic` contribute the records they hand to the library. */
module EventHandler {
  import opened CString
  import opened Zephyr
  import opened Kconfig
  import opened PayloadReader

  /** `struct app_mqtt_callbacks_t`: which of the three optional callbacks are set. */
  datatype Callbacks = Callbacks(connected: bool, disconnected: bool, dataRx: bool)

  /** The zero-initialised registry the module starts with. */
  const NoCallbacks := Callbacks(false, false, false)

  /** An outgoing effect of the engine, recorded in the order it happens. */
  datatype Action =
    | PayloadRead(call: Call)                    // a call into the payload readers
    | SendPuback(messageId: nat)                 // mqtt_publish_qos1_ack
    | SendSubscribe(list: SubscriptionList)      // mqtt_subscribe
    | SendPublish(param: PublishParam)           // mqtt_publish
    | SendDisconnect                             // mqtt_disconnect
    | ConnectedCb                                // registered_callbacks.connected()
    | DisconnectedCb(result: int)                // registered_callbacks.disconnected(result)
    | DataRxCb(data: seq<byte>, len: nat, topic: seq<byte>)   // registered_callbacks.data_rx(...)

  /** The handler's effects and the payload and topic buffers it leaves. */
  datatype Reaction = Reaction(actions: seq<Action>, payload: seq<byte>, topic: seq<byte>)

  /** The message id `subscribe` uses. */
  const SUBSCRIBE_MESSAGE_ID: nat := 1234

  /** The subscription list `subscribe` builds: the configured topic alone, at QoS 1. */
  function SubscribeList(cfg: Config): (r: SubscriptionList)
    requires Valid(cfg)
    ensures r.listCount == |r.list| == 1
    ensures r.list[0] == MqttTopic(cfg.subTopic, |cfg.subTopic|, MQTT_QOS_1_AT_LEAST_ONCE)
    ensures r.messageId == SUBSCRIBE_MESSAGE_ID
  {
    LiteralText(cfg.subTopic);
    var topics := [MqttTopic(cfg.subTopic, StrLen(Literal(cfg.subTopic)), MQTT_QOS_1_AT_LEAST_ONCE)];
    SubscriptionList(topics, |topics|, SUBSCRIBE_MESSAGE_ID)
  }

  /** The record `data_publish_generic` builds for publishing `len` bytes of `data` on the
      C string `topic`: QoS 1, the topic's length as its size, the given message id, and
      neither the duplicate nor the retain flag. */
  function PublishParams(topic: seq<byte>, data: seq<byte>, len: nat, messageId: nat): (p: PublishParam)
    requires NoNul(topic)
    ensures p.topic == MqttTopic(topic, |topic|, MQTT_QOS_1_AT_LEAST_ONCE)
    ensures p.payload == data && p.payloadLen == len && p.messageId == messageId
    ensures !p.dupFlag && !p.retainFlag
  {
    LiteralText(topic);
    PublishParam(MqttTopic(topic, StrLen(Literal(topic)), MQTT_QOS_1_AT_LEAST_ONCE), data, len, messageId, false, false)
  }

  /** The number of topic bytes the handler keeps: as many as fit before the terminator. */
  function TopicLen(bufLen: nat, topic: seq<byte>): nat
    requires bufLen >= 1
  {
    Min(bufLen - 1, |topic|)
  }

  /** The topic buffer after the topic copy: the kept bytes, a terminator, then what was there. */
  function CopyTopic(buf: seq<byte>, topic: seq<byte>): seq<byte>
    requires |buf| >= 1
  {
    var n := TopicLen(|buf|, topic);
    topic[..n] + [NUL] + buf[n + 1..]
  }

  /** The topic copy writes `TopicLen` bytes and a terminator right after them, always inside
      the buffer, and leaves the rest; the buffer then holds the (possibly truncated) topic
      as a C string. */
  lemma TopicCopyBounded(buf: seq<byte>, topic: seq<byte>)
    requires |buf| >= 1
    ensures var n := TopicLen(|buf|, topic); var r := CopyTopic(buf, topic);
      && n < |buf| && |r| == |buf|
      && n == (if |topic| < |buf| then |topic| else |buf| - 1)
      && r[..n] == topic[..n] && r[n] == NUL && r[n + 1..] == buf[n + 1..]
    ensures NoNul(topic) ==> CStr(CopyTopic(buf, topic)) == topic[..TopicLen(|buf|, topic)]
  {
    var n := TopicLen(|buf|, topic);
    var r := CopyTopic(buf, topic);
    assert r[..n] == topic[..n];
    if NoNul(topic) {
      CStrAt(r, n);
    }
  }

  /** The payload reads of an extraction, as actions. */
  function Reads(calls: seq<Call>): (r: seq<Action>)
    ensures |r| == |calls| && forall k :: 0 <= k < |r| ==> r[k] == PayloadRead(calls[k])
  {
    seq(|calls|, k requires 0 <= k < |calls| => PayloadRead(calls[k]))
  }

  /** What a PUBLISH event requires of the transport that carries its payload. */
  predicate ValidPublish(cfg: Config, evt: MqttEvent, src: PayloadSource)
    requires evt.Publish?
  {
    ValidSource(cfg.payloadBufferSize, evt.payloadLen, src)
  }

  /** `mqtt_evt_handler`: the effects of one event, given the registered callbacks, the
      payload source of a PUBLISH, and the current payload and topic buffers. */
  function Dispatch(cfg: Config, cbs: Callbacks, evt: MqttEvent, src: PayloadSource,
                    payload: seq<byte>, topic: seq<byte>): Reaction
    requires Valid(cfg) && |payload| == |topic| == cfg.payloadBufferSize
    requires evt.Publish? ==> ValidPublish(cfg, evt, src)
  {
    match evt
    case ConnAck(result) =>
      if result != 0 then Reaction([], payload, topic)
      else Reaction((if cbs.connected then [ConnectedCb] else []) + [SendSubscribe(SubscribeList(cfg))],
                    payload, topic)
    case Disconnect(result) =>
      Reaction(if cbs.disconnected then [DisconnectedCb(result)] else [], payload, topic)
    case Publish(_, messageId, t, qos, len) =>
      var x := Extract(cfg.payloadBufferSize, len, src, payload);
      var acked := Reads(x.calls) + (if qos == MQTT_QOS_1_AT_LEAST_ONCE then [SendPuback(messageId)] else []);
      if x.ret >= 0 then
        var topic' := CopyTopic(topic, t);
        Reaction(acked + (if cbs.dataRx then [DataRxCb(x.buf, len, topic')] else []), x.buf, topic')
      else if x.ret == -EMSGSIZE then Reaction(acked, x.buf, topic)
      else Reaction(acked + [SendDisconnect], x.buf, topic)
    case _ => Reaction([], payload, topic)
  }

  /** A PUBLISH is acknowledged exactly when its QoS is 1, with exactly one PUBACK that
      carries its message id, issued after every payload read whatever the reader returned. */
  lemma PublishAcknowledged(cfg: Config, cbs: Callbacks, evt: MqttEvent, src: PayloadSource,
                            payload: seq<byte>, topic: seq<byte>)
    requires Valid(cfg) && |payload| == |topic| == cfg.payloadBufferSize
    requires evt.Publish? && ValidPublish(cfg, evt, src)
    ensures var acts := Dispatch(cfg, cbs, evt, src, payload, topic).actions;
      var n := |Extract(cfg.payloadBufferSize, evt.payloadLen, src, payload).calls|;
      && n <= |acts|
      && (forall k :: 0 <= k < n ==> acts[k].PayloadRead?)
      && (forall k :: n <= k < |acts| ==> !acts[k].PayloadRead?)
      && multiset(acts)[SendPuback(evt.messageId)] == (if evt.qos == MQTT_QOS_1_AT_LEAST_ONCE then 1 else 0)
      && (forall k :: 0 <= k < |acts| && acts[k].SendPuback? ==> k == n && acts[k].messageId == evt.messageId)
  {
    var x := Extract(cfg.payloadBufferSize, evt.payloadLen, src, payload);
    var readActs := Reads(x.calls);
    var ack: seq<Action> := if evt.qos == MQTT_QOS_1_AT_LEAST_ONCE then [SendPuback(evt.messageId)] else [];
    var acts := Dispatch(cfg, cbs, evt, src, payload, topic).actions;
    var tail := acts[|readActs| + |ack|..];
    assert acts == readActs + ack + tail;
    assert forall k :: 0 <= k < |tail| ==> !tail[k].SendPuback? && !tail[k].PayloadRead?;
    assert SendPuback(evt.messageId) !in readActs;
    assert SendPuback(evt.messageId) !in tail;
    assert multiset(acts) == multiset(readActs) + multiset(ack) + multiset(tail);
  }

  /** The data callback runs, once, exactly when it is set and the reader returned a
      non-negative value, which happens exactly when the declared payload fitted and was
      read; it receives the payload buffer, which then starts with the payload, the declared
      length, and the topic buffer after the topic copy. */
  lemma DataDelivered(cfg: Config, cbs: Callbacks, evt: MqttEvent, src: PayloadSource,
                      payload: seq<byte>, topic: seq<byte>)
    requires Valid(cfg) && |payload| == |topic| == cfg.payloadBufferSize
    requires evt.Publish? && ValidPublish(cfg, evt, src)
    ensures var r := Dispatch(cfg, cbs, evt, src, payload, topic);
      var ok := cbs.dataRx && evt.payloadLen <= cfg.payloadBufferSize && src.readall == 0;
      && (ok <==> exists k :: 0 <= k < |r.actions| && r.actions[k].DataRxCb?)
      && (ok ==> r.actions[|r.actions| - 1] == DataRxCb(r.payload, evt.payloadLen, r.topic)
                 && r.payload[..evt.payloadLen] == src.wire
                 && r.topic == CopyTopic(topic, evt.topic))
      && (forall k :: 0 <= k < |r.actions| - 1 ==> !r.actions[k].DataRxCb?)
  {
    ExtractSucceeds(cfg.payloadBufferSize, evt.payloadLen, src, payload);
    var x := Extract(cfg.payloadBufferSize, evt.payloadLen, src, payload);
    var acked := Reads(x.calls) + (if evt.qos == MQTT_QOS_1_AT_LEAST_ONCE then [SendPuback(evt.messageId)] else []);
    assert forall k :: 0 <= k < |acked| ==> !acked[k].DataRxCb?;
    var r := Dispatch(cfg, cbs, evt, src, payload, topic);
    if x.ret >= 0 && cbs.dataRx {
      assert r.actions == acked + [DataRxCb(r.payload, evt.payloadLen, r.topic)];
      assert r.actions[|r.actions| - 1].DataRxCb?;
    } else {
      assert r.actions == acked || r.actions == acked + [SendDisconnect];
    }
  }

  /** An oversized payload is only reported: no data callback and no disconnect, and the
      topic buffer is left alone. */
  lemma OversizeKeepsSession(cfg: Config, cbs: Callbacks, evt: MqttEvent, src: PayloadSource,
                             payload: seq<byte>, topic: seq<byte>)
    requires Valid(cfg) && |payload| == |topic| == cfg.payloadBufferSize
    requires evt.Publish? && ValidPublish(cfg, evt, src)
    requires Extract(cfg.payloadBufferSize, evt.payloadLen, src, payload).ret == -EMSGSIZE
    ensures var r := Dispatch(cfg, cbs, evt, src, payload, topic);
      && (forall k :: 0 <= k < |r.actions| ==> !r.actions[k].DataRxCb? && r.actions[k] != SendDisconnect)
      && r.topic == topic
  {
  }

  /** Any other failure of the reader ends in exactly one disconnect, as the last action,
      and no data callback. */
  lemma ReadFailureDisconnects(cfg: Config, cbs: Callbacks, evt: MqttEvent, src: PayloadSource,
                               payload: seq<byte>, topic: seq<byte>)
    requires Valid(cfg) && |payload| == |topic| == cfg.payloadBufferSize
    requires evt.Publish? && ValidPublish(cfg, evt, src)
    requires var ret := Extract(cfg.payloadBufferSize, evt.payloadLen, src, payload).ret;
      ret < 0 && ret != -EMSGSIZE
    ensures var r := Dispatch(cfg, cbs, evt, src, payload, topic);
      && |r.actions| > 0 && r.actions[|r.actions| - 1] == SendDisconnect
      && multiset(r.actions)[SendDisconnect] == 1
      && (forall k :: 0 <= k < |r.actions| ==> !r.actions[k].DataRxCb?)
      && r.topic == topic
  {
    var x := Extract(cfg.payloadBufferSize, evt.payloadLen, src, payload);
    var acked := Reads(x.calls) + (if evt.qos == MQTT_QOS_1_AT_LEAST_ONCE then [SendPuback(evt.messageId)] else []);
    assert SendDisconnect !in acked;
    assert multiset(acked + [SendDisconnect]) == multiset(acked) + multiset([SendDisconnect]);
  }

  /** A refused CONNACK does nothing; an accepted one runs the connected callback, if set,
      and then sends the one subscription, for the configured topic at QoS 1 with message
      id 1234. */
  lemma ConnAckRules(cfg: Config, cbs: Callbacks, result: int, src: PayloadSource,
                     payload: seq<byte>, topic: seq<byte>)
    requires Valid(cfg) && |payload| == |topic| == cfg.payloadBufferSize
    ensures var r := Dispatch(cfg, cbs, ConnAck(result), src, payload, topic);
      && r.payload == payload && r.topic == topic
      && (result != 0 ==> r.actions == [])
      && (result == 0 ==>
            && |r.actions| == (if cbs.connected then 2 else 1)
            && (cbs.connected <==> r.actions[0] == ConnectedCb)
            && r.actions[|r.actions| - 1].SendSubscribe?
            && (var l := r.actions[|r.actions| - 1].list;
                l.listCount == 1 && l.list == [MqttTopic(cfg.subTopic, |cfg.subTopic|, MQTT_QOS_1_AT_LEAST_ONCE)]
                && l.messageId == 1234))
  {
  }

  /** A DISCONNECT event runs only the disconnected callback, if set, with the event's
      result; every event other than PUBLISH leaves both buffers as they were, and
      acknowledgements, SUBACK, PINGRESP and unknown events have no effect at all. */
  lemma OtherEventRules(cfg: Config, cbs: Callbacks, evt: MqttEvent, src: PayloadSource,
                        payload: seq<byte>, topic: seq<byte>)
    requires Valid(cfg) && |payload| == |topic| == cfg.payloadBufferSize
    requires !evt.Publish?
    ensures var r := Dispatch(cfg, cbs, evt, src, payload, topic);
      && r.payload == payload && r.topic == topic
      && (evt.Disconnect? ==> r.actions == if cbs.disconnected then [DisconnectedCb(evt.result)] else [])
      && (!evt.Disconnect? && !evt.ConnAck? ==> r.actions == [])
      && (forall k :: 0 <= k < |r.actions| ==> !r.actions[k].PayloadRead? && !r.actions[k].DataRxCb?)
  {
  }
}
