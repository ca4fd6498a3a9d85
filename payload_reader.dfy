/** `get_received_payload`: read the payload of a received PUBLISH into the fixed-size
    payload buffer, first discarding whatever does not fit so that the stream stays framed
    at the next packet. The two library readers are represented by the values they return. */
module PayloadReader {
  import opened CString
  import opened Zephyr

  /** One call into the library's payload readers, with the byte count requested and the
      value it returned. */
  datatype Call =
    | ReadBlocking(request: nat, result: int)   // mqtt_read_publish_payload_blocking
    | ReadAll(request: nat, result: int)        // mqtt_readall_publish_payload

  /** What the transport delivers when the reader asks for payload bytes: the payload the
      broker sent, the successive return values of the blocking read, and the return value
      of the read-all call. */
  datatype PayloadSource = PayloadSource(wire: seq<byte>, drain: seq<int>, readall: int)

  /** The reader's return code, the calls it made in order, and the payload buffer afterwards. */
  datatype Extraction = Extraction(ret: int, calls: seq<Call>, buf: seq<byte>)

  function Min(a: nat, b: nat): nat { if a <= b then a else b }

  /** The request size the source passes to a discarding read: all of the excess at once. */
  function AsWrittenRequest(length: nat, cap: nat): nat
    requires length > cap
  {
    length - cap
  }

  /** The request size of a discarding read in this model: the excess, but never more bytes
      than the buffer that receives them holds. */
  function DrainRequest(length: nat, cap: nat): (n: nat)
    requires length > cap > 0
    ensures 0 < n <= cap && n <= length - cap
    ensures n == AsWrittenRequest(length, cap) <==> length <= 2 * cap
  {
    Min(length - cap, cap)
  }

  /** The library's promise about the blocking reads made while `length` bytes remain: a
      result for every read that happens, and a positive result is at most the request. */
  predicate DrainFits(cap: nat, length: nat, drain: seq<int>)
    requires cap > 0
    decreases length
  {
    length <= cap ||
    (|drain| > 0 &&
     (drain[0] <= 0 ||
      (drain[0] <= DrainRequest(length, cap) && DrainFits(cap, length - drain[0], drain[1..]))))
  }

  /** A transport consistent with a PUBLISH that declares `length` payload bytes. The read-all
      call returns 0 or a negative error number. */
  predicate ValidSource(cap: nat, length: nat, src: PayloadSource) {
    cap > 0 && |src.wire| == length && src.readall <= 0 && DrainFits(cap, length, src.drain)
  }

  /** The reader from the point where `rest` is what remains of the payload, `err` is the
      code it will return if every read succeeds, and `buf` is the payload buffer. */
  function Drain(cap: nat, rest: seq<byte>, drain: seq<int>, readall: int, err: int, buf: seq<byte>): (x: Extraction)
    requires cap > 0 && |buf| == cap && DrainFits(cap, |rest|, drain)
    ensures |x.buf| == cap && |x.calls| > 0
    decreases |rest|
  {
    if |rest| <= cap then
      var call := ReadAll(|rest|, readall);
      if readall != 0 then Extraction(readall, [call], buf)
      else Extraction(err, [call], rest + buf[|rest|..])
    else
      var r := drain[0];
      var call := ReadBlocking(DrainRequest(|rest|, cap), r);
      if r == 0 then Extraction(-EIO, [call], buf)
      else if r < 0 then Extraction(r, [call], buf)
      else
        var x := Drain(cap, rest[r..], drain[1..], readall, err, rest[..r] + buf[r..]);
        Extraction(x.ret, [call] + x.calls, x.buf)
  }

  /** The whole reader for a payload of declared length `length`. */
  function Extract(cap: nat, length: nat, src: PayloadSource, buf: seq<byte>): Extraction
    requires ValidSource(cap, length, src) && |buf| == cap
  {
    Drain(cap, src.wire, src.drain, src.readall, if length > cap then -EMSGSIZE else 0, buf)
  }

  /** Payload bytes taken off the stream by a sequence of calls. */
  function Consumed(calls: seq<Call>): nat {
    if calls == [] then 0
    else
      (match calls[0]
       case ReadBlocking(_, r) => if r > 0 then r else 0
       case ReadAll(n, r) => if r == 0 then n else 0)
      + Consumed(calls[1..])
  }

  lemma {:induction false} ConsumedAppend(a: seq<Call>, b: seq<Call>)
    ensures Consumed(a + b) == Consumed(a) + Consumed(b)
    decreases |a|
  {
    if a == [] {
      assert a + b == b;
    } else {
      assert (a + b)[1..] == a[1..] + b;
      ConsumedAppend(a[1..], b);
    }
  }

  /** The shape of the calls: every call but the last is a discarding read that returned
      between 1 and its request; the last is either a failed discarding read, after which
      nothing more is read, or the read-all of what remains, which is then at most `cap`. */
  lemma {:induction false} DrainCalls(cap: nat, rest: seq<byte>, drain: seq<int>, readall: int, err: int, buf: seq<byte>)
    requires cap > 0 && |buf| == cap && DrainFits(cap, |rest|, drain)
    ensures var x := Drain(cap, rest, drain, readall, err, buf);
      && |x.calls| > 0
      && (forall k :: 0 <= k < |x.calls| ==> x.calls[k].ReadBlocking? ==> 0 < x.calls[k].request <= cap)
      && (forall k :: 0 <= k < |x.calls| - 1 ==>
            x.calls[k].ReadBlocking? && 0 < x.calls[k].result <= x.calls[k].request)
      && (x.calls[|x.calls| - 1].ReadBlocking? ==> x.calls[|x.calls| - 1].result <= 0)
      && (x.calls[|x.calls| - 1].ReadAll? ==>
            x.calls[|x.calls| - 1] == ReadAll(Min(|rest|, cap), readall))
    decreases |rest|
  {
    if |rest| > cap && drain[0] > 0 {
      DrainCalls(cap, rest[drain[0]..], drain[1..], readall, err, rest[..drain[0]] + buf[drain[0]..]);
    }
  }

  /** The return code is fixed by the last call: `-EIO` for a discarding read that returned 0,
      the error of one that failed, the error of a failed read-all, and otherwise `err`. */
  lemma {:induction false} DrainResult(cap: nat, rest: seq<byte>, drain: seq<int>, readall: int, err: int, buf: seq<byte>)
    requires cap > 0 && |buf| == cap && DrainFits(cap, |rest|, drain)
    ensures var x := Drain(cap, rest, drain, readall, err, buf);
      |x.calls| > 0 &&
      var last := x.calls[|x.calls| - 1];
      x.ret == (if last.ReadBlocking? && last.result == 0 then -EIO
                else if last.result != 0 then last.result
                else err)
    decreases |rest|
  {
    if |rest| > cap && drain[0] > 0 {
      DrainResult(cap, rest[drain[0]..], drain[1..], readall, err, rest[..drain[0]] + buf[drain[0]..]);
    }
  }

  /** When no discarding read fails, they take off exactly the excess over `cap`, and a
      successful read-all takes off the rest: the whole payload is consumed. */
  lemma {:induction false} DrainConsumed(cap: nat, rest: seq<byte>, drain: seq<int>, readall: int, err: int, buf: seq<byte>)
    requires cap > 0 && |buf| == cap && DrainFits(cap, |rest|, drain)
    ensures var x := Drain(cap, rest, drain, readall, err, buf);
      |x.calls| > 0 &&
      (x.calls[|x.calls| - 1].ReadAll? ==>
        && Consumed(x.calls[..|x.calls| - 1]) == |rest| - Min(|rest|, cap)
        && Consumed(x.calls) == if readall == 0 then |rest| else |rest| - Min(|rest|, cap))
    decreases |rest|
  {
    var x := Drain(cap, rest, drain, readall, err, buf);
    if |rest| <= cap {
      assert x.calls[..0] == [];
      assert x.calls[1..] == [];
    } else if drain[0] > 0 {
      var r := drain[0];
      var y := Drain(cap, rest[r..], drain[1..], readall, err, rest[..r] + buf[r..]);
      DrainConsumed(cap, rest[r..], drain[1..], readall, err, rest[..r] + buf[r..]);
      assert x.calls == [x.calls[0]] + y.calls;
      assert x.calls[1..] == y.calls;
      assert x.calls[..|x.calls| - 1] == [x.calls[0]] + y.calls[..|y.calls| - 1];
      ConsumedAppend([x.calls[0]], y.calls[..|y.calls| - 1]);
      assert [x.calls[0]][1..] == [];
    }
  }

  /** After a successful read-all the buffer starts with the last `Min(|rest|, cap)` payload
      bytes; when the payload fit, the bytes after it are those the buffer held before. */
  lemma {:induction false} DrainBuffer(cap: nat, rest: seq<byte>, drain: seq<int>, readall: int, err: int, buf: seq<byte>)
    requires cap > 0 && |buf| == cap && DrainFits(cap, |rest|, drain)
    ensures var x := Drain(cap, rest, drain, readall, err, buf);
      var m := Min(|rest|, cap);
      x.calls[|x.calls| - 1] == ReadAll(m, 0) ==>
        x.buf[..m] == rest[|rest| - m..] && (|rest| <= cap ==> x.buf[m..] == buf[m..])
    decreases |rest|
  {
    if |rest| > cap && drain[0] > 0 {
      var r := drain[0];
      var rest' := rest[r..];
      var buf' := rest[..r] + buf[r..];
      var x := Drain(cap, rest, drain, readall, err, buf);
      var y := Drain(cap, rest', drain[1..], readall, err, buf');
      assert |rest'| >= cap;
      assert x.buf == y.buf;
      assert x.calls[|x.calls| - 1] == y.calls[|y.calls| - 1];
      DrainBuffer(cap, rest', drain[1..], readall, err, buf');
      assert rest'[|rest'| - cap..] == rest[|rest| - cap..];
    }
  }

  /** A payload that fits is read with a single read-all of its declared length, and the
      reader returns what that call returned: 0 exactly when it succeeded. */
  lemma ExtractFits(cap: nat, length: nat, src: PayloadSource, buf: seq<byte>)
    requires ValidSource(cap, length, src) && |buf| == cap && length <= cap
    ensures var x := Extract(cap, length, src, buf);
      x.calls == [ReadAll(length, src.readall)] && x.ret == src.readall
      && (x.ret == 0 ==> x.buf == src.wire + buf[length..])
  {
  }

  /** An oversized payload: every discarding read asks for at most `cap` bytes; when all of
      them succeed the read-all asks for exactly `cap` bytes, and the reader returns the
      read-all's error if it failed and `-EMSGSIZE` otherwise. A discarding read that returns
      0 yields `-EIO`, one that fails yields its error, and nothing is read after either. */
  lemma ExtractOversize(cap: nat, length: nat, src: PayloadSource, buf: seq<byte>)
    requires ValidSource(cap, length, src) && |buf| == cap && length > cap
    ensures var x := Extract(cap, length, src, buf);
      |x.calls| > 0 &&
      var last := x.calls[|x.calls| - 1];
      && (forall k :: 0 <= k < |x.calls| ==> x.calls[k].ReadBlocking? ==> 0 < x.calls[k].request <= cap)
      && (forall k :: 0 <= k < |x.calls| - 1 ==> x.calls[k].ReadBlocking? && x.calls[k].result > 0)
      && (last.ReadAll? ==> last.request == cap && x.ret == (if src.readall != 0 then src.readall else -EMSGSIZE))
      && (last.ReadBlocking? ==> last.result <= 0 && x.ret == (if last.result == 0 then -EIO else last.result))
  {
    DrainCalls(cap, src.wire, src.drain, src.readall, -EMSGSIZE, buf);
    DrainResult(cap, src.wire, src.drain, src.readall, -EMSGSIZE, buf);
  }

  /** The reader returns a non-negative value only when the whole declared payload fitted in
      the buffer and was read into it. */
  lemma ExtractSucceeds(cap: nat, length: nat, src: PayloadSource, buf: seq<byte>)
    requires ValidSource(cap, length, src) && |buf| == cap
    ensures var x := Extract(cap, length, src, buf);
      x.ret >= 0 <==> length <= cap && src.readall == 0
    ensures var x := Extract(cap, length, src, buf);
      x.ret >= 0 ==> x.ret == 0 && x.buf[..length] == src.wire
  {
    if length > cap {
      ExtractOversize(cap, length, src, buf);
    }
    var x := Extract(cap, length, src, buf);
    if x.ret >= 0 {
      assert x.buf[..length] == src.wire;
    }
  }

  /** When no discarding read fails the discarding reads consume exactly `length - cap`
      bytes, so the drain ends with exactly `cap` bytes left; a successful read-all then
      brings the bytes consumed to the declared length, and the buffer holds the last
      `Min(length, cap)` bytes of the payload. */
  lemma ExtractConsumes(cap: nat, length: nat, src: PayloadSource, buf: seq<byte>)
    requires ValidSource(cap, length, src) && |buf| == cap
    ensures var x := Extract(cap, length, src, buf);
      var m := Min(length, cap);
      |x.calls| > 0 &&
      (x.calls[|x.calls| - 1].ReadAll? ==>
        && x.calls[|x.calls| - 1].request == m
        && Consumed(x.calls[..|x.calls| - 1]) == length - m
        && (src.readall == 0 ==> Consumed(x.calls) == length)
        && (src.readall == 0 ==> x.buf[..m] == src.wire[length - m..]))
  {
    var err := if length > cap then -EMSGSIZE else 0;
    DrainCalls(cap, src.wire, src.drain, src.readall, err, buf);
    DrainConsumed(cap, src.wire, src.drain, src.readall, err, buf);
    DrainBuffer(cap, src.wire, src.drain, src.readall, err, buf);
  }

  /** The source's discarding read asks for more bytes than the payload buffer holds as soon
      as the declared length exceeds twice its size; the library may return all of them,
      since that many payload bytes remain. With a 128-byte buffer and a 300-byte payload the
      first read may write 172 bytes into it. */
  lemma AsWrittenRequestOverflows(length: nat, cap: nat)
    requires length > 2 * cap
    ensures AsWrittenRequest(length, cap) > cap
    ensures AsWrittenRequest(length, cap) <= length
    ensures AsWrittenRequest(300, 128) == 172
  {
  }

  /** The overflow in terms of the array model: a discarding read that returns all the
      bytes the source requests is within the library's promise (positive, at most the
      request, and that many payload bytes remain), and copying them into the payload
      buffer breaks the precondition of `Memcpy(payloadBuf, rest[..r])`. */
  lemma AsWrittenReadExceedsBuffer(payloadBuf: array<byte>, rest: seq<byte>)
    requires payloadBuf.Length > 0 && |rest| > 2 * payloadBuf.Length
    ensures var r := AsWrittenRequest(|rest|, payloadBuf.Length);
      && 0 < r <= |rest|
      && !(|rest[..r]| <= payloadBuf.Length)
  {
    AsWrittenRequestOverflows(|rest|, payloadBuf.Length);
  }

  /** `get_received_payload` on the payload buffer `payloadBuf`. It returns the result code
      and the calls it made; `payloadBuf` ends as the specification says. `rest` is what
      remains of the payload on the stream and `drain` the blocking reads still to come. */
  method GetReceivedPayload(payloadBuf: array<byte>, length: nat, src: PayloadSource)
    returns (ret: int, calls: seq<Call>)
    requires ValidSource(payloadBuf.Length, length, src)
    modifies payloadBuf
    ensures var x := Extract(payloadBuf.Length, length, src, old(payloadBuf[..]));
      ret == x.ret && calls == x.calls && payloadBuf[..] == x.buf
  {
    var cap := payloadBuf.Length;
    ghost var spec := Extract(cap, length, src, old(payloadBuf[..]));
    var err := 0;
    if length > cap {
      err := -EMSGSIZE;
    }
    var remaining: nat := length;
    var rest, drain := src.wire, src.drain;
    calls := [];
    while remaining > cap
      invariant remaining == |rest| && DrainFits(cap, remaining, drain)
      invariant var y := Drain(cap, rest, drain, src.readall, err, payloadBuf[..]);
        spec.ret == y.ret && spec.calls == calls + y.calls && spec.buf == y.buf
      decreases remaining
    {
      var r := drain[0];
      var call := ReadBlocking(DrainRequest(remaining, cap), r);
      if r == 0 {
        return -EIO, calls + [call];
      } else if r < 0 {
        return r, calls + [call];
      }
      ghost var y := Drain(cap, rest[r..], drain[1..], src.readall, err, rest[..r] + payloadBuf[r..]);
      assert spec.calls == (calls + [call]) + y.calls;
      Memcpy(payloadBuf, rest[..r]);
      calls := calls + [call];
      remaining, rest, drain := remaining - r, rest[r..], drain[1..];
    }
    var r := src.readall;
    calls := calls + [ReadAll(remaining, r)];
    if r != 0 {
      return r, calls;
    }
    Memcpy(payloadBuf, rest);
    return err, calls;
  }
}
