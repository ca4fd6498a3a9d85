/** The static state of `app_mqtt.c` and the operations on it: the registered callbacks, the
    payload and topic buffers the event handler fills, the client identifier buffer, the
    client's transport, and the calls made into the MQTT library, recorded in order. */
module AppMqtt {
  import opened CString
  import opened Zephyr
  import opened Kconfig
  import opened PayloadReader
  import opened EventHandler
  import opened ClientId

  class Engine {
    const cfg: Config
    /** `payload_buf` and `topic_buf`, both `CONFIG_MQTT_PAYLOAD_BUFFER_SIZE` bytes. */
    const payloadBuf: array<byte>
    const topicBuf: array<byte>
    /** The static buffer of `client_id_get`. */
    const clientIdBuf: array<byte>
    /** `registered_callbacks`. */
    var callbacks: Callbacks
    /** `client.transport.type` and `client.client_id.size`. */
    var transport: TransportType
    var clientIdSize: nat
    /** The calls made so far into the MQTT library and the application callbacks. */
    var trace: seq<Action>

    predicate Valid()
      reads this
    {
      && Kconfig.Valid(cfg)
      && payloadBuf.Length == cfg.payloadBufferSize
      && topicBuf.Length == cfg.payloadBufferSize
      && clientIdBuf.Length == ClientIdBufSize(cfg)
      && payloadBuf != topicBuf && payloadBuf != clientIdBuf && topicBuf != clientIdBuf
    }

    /** The module's state at start-up: every static zeroed, no callbacks, nothing sent. */
    constructor (cfg: Config)
      requires Kconfig.Valid(cfg)
      ensures Valid() && this.cfg == cfg
      ensures callbacks == NoCallbacks && trace == [] && transport == NonSecure && clientIdSize == 0
      ensures fresh(payloadBuf) && fresh(topicBuf) && fresh(clientIdBuf)
      ensures forall i :: 0 <= i < payloadBuf.Length ==> payloadBuf[i] == NUL
      ensures forall i :: 0 <= i < topicBuf.Length ==> topicBuf[i] == NUL
      ensures forall i :: 0 <= i < clientIdBuf.Length ==> clientIdBuf[i] == NUL
    {
      this.cfg := cfg;
      payloadBuf := new byte[cfg.payloadBufferSize](_ => NUL);
      topicBuf := new byte[cfg.payloadBufferSize](_ => NUL);
      clientIdBuf := new byte[ClientIdBufSize(cfg)](_ => NUL);
      callbacks := NoCallbacks;
      transport := NonSecure;
      clientIdSize := 0;
      trace := [];
    }

    /** `app_mqtt_set_callbacks`: the registry is replaced as a whole. */
    method SetCallbacks(cbs: Callbacks)
      requires Valid()
      modifies this`callbacks
      ensures Valid() && callbacks == cbs
    {
      callbacks := cbs;
    }

    /** `subscribe`: one `mqtt_subscribe` call with the subscription list. */
    method Subscribe()
      requires Valid()
      modifies this`trace
      ensures Valid()
      ensures trace == old(trace) + [SendSubscribe(SubscribeList(cfg))]
    {
      trace := trace + [SendSubscribe(SubscribeList(cfg))];
    }

    /** `app_mqtt_publish`: `data_publish_generic` on the configured publish topic, with the
        random message id given as `messageId`; returns what `mqtt_publish` returns. */
    method Publish(data: seq<byte>, len: nat, messageId: nat, publishResult: int) returns (ret: int)
      requires Valid()
      modifies this`trace
      ensures Valid()
      ensures trace == old(trace) + [SendPublish(PublishParams(cfg.pubTopic, data, len, messageId))]
      ensures ret == publishResult
    {
      trace := trace + [SendPublish(PublishParams(cfg.pubTopic, data, len, messageId))];
      return publishResult;
    }

    /** `mqtt_evt_handler` for one event; `src` is what the transport holds for a PUBLISH.
        Its effects and the buffers it leaves are those `Dispatch` describes. */
    method HandleEvent(evt: MqttEvent, src: PayloadSource)
      requires Valid()
      requires evt.Publish? ==> ValidPublish(cfg, evt, src)
      modifies this`trace, payloadBuf, topicBuf
      ensures Valid()
      ensures var r := Dispatch(cfg, callbacks, evt, src, old(payloadBuf[..]), old(topicBuf[..]));
        trace == old(trace) + r.actions && payloadBuf[..] == r.payload && topicBuf[..] == r.topic
    {
      match evt {
        case ConnAck(result) =>
          if result != 0 {
            return;
          }
          if callbacks.connected {
            trace := trace + [ConnectedCb];
          }
          Subscribe();
        case Disconnect(result) =>
          if callbacks.disconnected {
            trace := trace + [DisconnectedCb(result)];
          }
        case Publish(_, _, _, _, _) =>
          HandlePublish(evt, src);
        case _ =>
      }
    }

    /** The PUBLISH case of `mqtt_evt_handler`: extract the payload, acknowledge a QoS 1
        message, then deliver the payload with a copy of the topic, drop an oversized one,
        or disconnect after any other failure. */
    method HandlePublish(evt: MqttEvent, src: PayloadSource)
      requires Valid() && evt.Publish? && ValidPublish(cfg, evt, src)
      modifies this`trace, payloadBuf, topicBuf
      ensures Valid()
      ensures var r := Dispatch(cfg, callbacks, evt, src, old(payloadBuf[..]), old(topicBuf[..]));
        trace == old(trace) + r.actions && payloadBuf[..] == r.payload && topicBuf[..] == r.topic
    {
      var topic, len := evt.topic, evt.payloadLen;
      var err, calls := GetReceivedPayload(payloadBuf, len, src);
      trace := trace + Reads(calls);
      if evt.qos == MQTT_QOS_1_AT_LEAST_ONCE {
        trace := trace + [SendPuback(evt.messageId)];
      }
      if err >= 0 {
        var topicLen := Min(cfg.payloadBufferSize - 1, |topic|);
        ghost var before := topicBuf[..];
        Memcpy(topicBuf, topic[..topicLen]);
        topicBuf[topicLen] := NUL;
        assert topicBuf[..] == CopyTopic(before, topic);
        if callbacks.dataRx {
          trace := trace + [DataRxCb(payloadBuf[..], len, topicBuf[..])];
        }
      } else if err == -EMSGSIZE {
        // reported only
      } else {
        // mqtt_disconnect's own result is only logged
        trace := trace + [SendDisconnect];
      }
    }

    /** `client_id_get`: the identifier to use, written into its static buffer as a C string. */
    method ClientIdGet(rand: nat)
      requires Valid() && rand < U32
      modifies clientIdBuf
      ensures Valid()
      ensures var stored := Snprintf(clientIdBuf.Length, FormatClientId(cfg, rand));
        clientIdBuf[..] == stored + old(clientIdBuf[..])[|stored|..]
      ensures CStr(clientIdBuf[..]) == FormatClientId(cfg, rand)
    {
      var text: seq<byte>;
      if StrLen(Literal(cfg.clientId)) > 0 {
        text := cfg.clientId;
      } else {
        text := cfg.board + [DASH] + ZeroPadded(rand, RANDOM_LEN);
      }
      ClientIdFits(cfg, rand);
      var stored := Snprintf(clientIdBuf.Length, text);
      Memcpy(clientIdBuf, stored);
      LiteralPrefix(text, clientIdBuf[|stored|..]);
      assert clientIdBuf[..] == Literal(text) + clientIdBuf[|stored|..];
    }

    /** `client_init`, given `broker_init`'s result and the random value `client_id_get`
        draws: the client is reset (its transport type becomes the non-secure one and stays
        so), and only when the broker was resolved is the identifier chosen and recorded. */
    method ClientInit(brokerErr: int, rand: nat) returns (err: int)
      requires Valid() && rand < U32
      modifies this`transport, this`clientIdSize, clientIdBuf
      ensures Valid()
      ensures err == brokerErr && transport == NonSecure
      ensures err != 0 ==> clientIdSize == 0 && clientIdBuf[..] == old(clientIdBuf[..])
      ensures err == 0 ==>
        CStr(clientIdBuf[..]) == FormatClientId(cfg, rand) && clientIdSize == |FormatClientId(cfg, rand)|
    {
      transport, clientIdSize := NonSecure, 0;
      err := brokerErr;
      if err != 0 {
        return;
      }
      ClientIdGet(rand);
      clientIdSize := |CStr(clientIdBuf[..])|;
    }
  }
}
