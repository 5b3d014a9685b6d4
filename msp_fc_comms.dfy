/**
 * The MSP flight-controller driver: its connection state machine, the
 * send-and-await-response transaction, and the commands built on it. The
 * transaction is specified by the function `Exchange`, which the methods of
 * `MspFcComms` are proved against and which the lemmas below characterise.
 */
module FcComms {
  import opened MspCodec
  import opened MspConf
  import opened Serial
  import opened MspCommands
  import opened RcTranslator

  datatype FcCommsStatus = Disconnected | Connecting | Connected

  datatype FcCommsReturns = ReturnOk | ReturnError

  /** What opening a serial port gives: it raises, or it yields a port in some state. */
  datatype PortOpening = OpenRaises | Opened(state: PortState)

  /** The result of one transaction: the return code, the new link state, the new port state and the data received. */
  datatype Outcome = Outcome(ret: FcCommsReturns, status: FcCommsStatus, port: PortState, payload: Option<seq<byte>>)

  /** The port state standing for "no port object yet". */
  const Detached := PortState(false, [], [], false, None)

  /** Reads on a closed port raise at once. */
  function ReadBudgetOf(p: PortState): Option<nat>
  {
    if p.open then p.readBudget else Some(0)
  }

  /**
   * One transaction of message `id` with data section `send`, from link state
   * `status` and port state `p`: nothing happens unless connected; an
   * oversized data section is refused before any I/O; a raising write drops
   * the link; otherwise the frame is written and one response is read.
   */
  function Exchange(cfg: Config, status: FcCommsStatus, p: PortState, id: byte, send: seq<byte>): (o: Outcome)
    requires cfg.Valid()
    ensures o.ret == ReturnOk <==> status != Connected || o.payload.Some?
    ensures o.payload.Some? ==>
      var h := cfg.headerSize;
      && |p.incoming| > h && p.incoming[..h] == cfg.receiveHeader
      && |o.payload.value| == p.incoming[h] as int
  {
    if status != Connected then Outcome(ReturnOk, status, p, None)
    else if |send| > cfg.maxDataLength then Outcome(ReturnError, status, p, None)
    else if !p.open || p.writeFault then Outcome(ReturnError, Disconnected, p, None)
    else
      var r := Receive(cfg.receiveHeader, cfg.headerSize, p.incoming, p.readBudget);
      var after := p.(written := p.written + Frame(cfg.sendHeader, id, send),
                      incoming := r.rest,
                      readBudget := Spend(p.readBudget, r.readCount));
      Outcome(if r.verdict.Accepted? then ReturnOk else ReturnError,
              if r.demote then Disconnected else status,
              after,
              if r.verdict.Accepted? then Some(r.verdict.payload) else None)
  }

  /** `payload` copied over the start of `before`, the rest of `before` kept. */
  function CopyOut(payload: seq<byte>, before: seq<byte>): (r: seq<byte>)
    requires |payload| <= |before|
    ensures |r| == |before| && r[..|payload|] == payload && r[|payload|..] == before[|payload|..]
  {
    payload + before[|payload|..]
  }

  /** A response buffer after a transaction: overwritten by the data received, if any. */
  function Delivered(o: Outcome, before: seq<byte>): seq<byte>
    requires o.payload.Some? ==> |o.payload.value| <= |before|
  {
    if o.payload.Some? then CopyOut(o.payload.value, before) else before
  }

  /** Unless connected, a transaction returns Ok and touches nothing. */
  lemma ExchangeNotConnected(cfg: Config, status: FcCommsStatus, p: PortState, id: byte, send: seq<byte>)
    requires cfg.Valid() && status != Connected
    ensures Exchange(cfg, status, p, id, send) == Outcome(ReturnOk, status, p, None)
  {
  }

  /** An oversized data section is an error, with nothing written and the link kept. */
  lemma ExchangeOversized(cfg: Config, p: PortState, id: byte, send: seq<byte>)
    requires cfg.Valid() && |send| > cfg.maxDataLength
    ensures Exchange(cfg, Connected, p, id, send) == Outcome(ReturnError, Connected, p, None)
  {
  }

  /** A write that raises is an error and drops the link; nothing is read. */
  lemma ExchangeWriteRaises(cfg: Config, p: PortState, id: byte, send: seq<byte>)
    requires cfg.Valid() && |send| <= cfg.maxDataLength && (!p.open || p.writeFault)
    ensures Exchange(cfg, Connected, p, id, send) == Outcome(ReturnError, Disconnected, p, None)
  {
  }

  /**
   * A connected transaction that gets past the length check writes exactly one
   * frame: the three send-header bytes, the length, the id, the data and the
   * checksum, `nonDataLength` bytes more than the data, XORing to zero after
   * the header.
   */
  lemma ExchangeWritesFrame(cfg: Config, p: PortState, id: byte, send: seq<byte>)
    requires cfg.Valid() && |send| <= cfg.maxDataLength && p.open && !p.writeFault
    ensures var o, f := Exchange(cfg, Connected, p, id, send), Frame(cfg.sendHeader, id, send);
      && o.port.written == p.written + f
      && |f| == cfg.nonDataLength + |send|
      && f[..3] == cfg.sendHeader && f[3] == |send| as byte && f[4] == id
      && f[cfg.packetDataOffset..cfg.packetDataOffset + |send|] == send
      && f[cfg.packetDataOffset + |send|] == Xor([|send| as byte, id] + send)
      && Xor(f[3..]) == 0
  {
    FrameLayout(cfg.sendHeader, id, send);
    FrameBodyXorsToZero(cfg.sendHeader, id, send);
  }

  /**
   * A connected transaction succeeds exactly when the data fits, the write
   * completes, all three reads complete and a well-formed response heads the
   * queue, whatever id it echoes.
   */
  lemma ExchangeSucceeds(cfg: Config, p: PortState, id: byte, send: seq<byte>)
    requires cfg.Valid() && cfg.LengthFits(p.incoming)
    ensures Exchange(cfg, Connected, p, id, send).ret == ReturnOk <==>
      && |send| <= cfg.maxDataLength && p.open && !p.writeFault
      && ReadAllowed(p.readBudget, 2) && WellFormedAt(cfg.receiveHeader, p.incoming)
  {
    ReceiveAccepts(cfg.receiveHeader, p.incoming, p.readBudget);
  }

  /**
   * A successful connected transaction keeps the link, delivers the data
   * section of the response and consumes exactly that response.
   */
  lemma ExchangeDelivers(cfg: Config, p: PortState, id: byte, send: seq<byte>)
    requires cfg.Valid() && cfg.LengthFits(p.incoming)
    ensures var o, h, q := Exchange(cfg, Connected, p, id, send), cfg.headerSize, p.incoming;
      o.payload.Some? ==>
        var n := q[h] as int;
        && o.status == Connected
        && |q| >= h + 3 + n
        && o.payload.value == q[h + 2..h + 2 + n]
        && o.port.incoming == q[h + 3 + n..]
  {
    ReceiveDelivers(cfg.receiveHeader, p.incoming, p.readBudget);
  }

  /**
   * How a failed connected transaction treats the link, once the frame is
   * written: a read that raises, a short header read or a short body read drop
   * it; a wrong header after a full read, or a wrong checksum, keep it.
   */
  lemma ExchangeErrorClassification(cfg: Config, p: PortState, id: byte, send: seq<byte>)
    requires cfg.Valid() && cfg.LengthFits(p.incoming) && |send| <= cfg.maxDataLength && p.open && !p.writeFault
    ensures var o, r := Exchange(cfg, Connected, p, id, send),
                        Receive(cfg.receiveHeader, cfg.headerSize, p.incoming, p.readBudget);
      && (o.status == Disconnected <==> r.verdict == ReadRaised || |p.incoming| < cfg.headerSize || r.verdict == ShortBody)
      && (r.verdict == BadHeader && |p.incoming| >= cfg.headerSize ==> o.ret == ReturnError && o.status == Connected)
      && (r.verdict == BadChecksum ==> o.ret == ReturnError && o.status == Connected)
  {
    ReceiveDemotion(cfg.receiveHeader, p.incoming, p.readBudget);
  }

  /**
   * A well-formed response, with any id echo, is delivered whole: the
   * transaction returns Ok with its data, keeps the link and leaves whatever
   * followed it in the queue.
   */
  lemma ExchangeRoundTrip(cfg: Config, p: PortState, id: byte, send: seq<byte>, echo: byte, payload: seq<byte>, tail: seq<byte>)
    requires cfg.Valid() && |send| <= cfg.maxDataLength && p.open && !p.writeFault
    requires ReadAllowed(p.readBudget, 2) && |payload| <= cfg.maxDataLength
    requires p.incoming == Frame(cfg.receiveHeader, echo, payload) + tail
    ensures Exchange(cfg, Connected, p, id, send)
         == Outcome(ReturnOk, Connected,
                    p.(written := p.written + Frame(cfg.sendHeader, id, send), incoming := tail,
                       readBudget := Spend(p.readBudget, 3)),
                    Some(payload))
  {
    ReceiveRoundTrip(cfg.receiveHeader, echo, payload, tail, p.readBudget);
  }

  /**
   * A response with one byte of its id echo, data or checksum corrupted fails
   * the checksum: an error, with the link kept and the response consumed.
   */
  lemma ExchangeCorrupted(cfg: Config, p: PortState, id: byte, send: seq<byte>, echo: byte, payload: seq<byte>, tail: seq<byte>, k: nat, b: byte)
    requires cfg.Valid() && |send| <= cfg.maxDataLength && p.open && !p.writeFault
    requires ReadAllowed(p.readBudget, 2) && |payload| <= cfg.maxDataLength
    requires cfg.headerSize < k <= cfg.headerSize + 2 + |payload|
    requires b != Frame(cfg.receiveHeader, echo, payload)[k]
    requires p.incoming == Frame(cfg.receiveHeader, echo, payload)[k := b] + tail
    ensures Exchange(cfg, Connected, p, id, send)
         == Outcome(ReturnError, Connected,
                    p.(written := p.written + Frame(cfg.sendHeader, id, send), incoming := tail,
                       readBudget := Spend(p.readBudget, 3)),
                    None)
  {
    ReceiveDetectsCorruption(cfg.receiveHeader, echo, payload, tail, k, b, p.readBudget);
  }

  /** The return code, link state, port state and response buffer after reading one response. */
  datatype Receipt = Receipt(ret: FcCommsReturns, status: FcCommsStatus, port: PortState, response: seq<byte>)

  /**
   * Where a read of a response that ended as `r` leaves the driver: Ok
   * exactly when `r` accepted, the link dropped when `r` says it is lost,
   * the bytes read consumed and `r.readCount` reads spent from `budget`, and
   * an accepted data section copied over the start of the buffer `resp`.
   */
  ghost function Settle(r: Reception, status: FcCommsStatus, p: PortState, budget: Option<nat>, resp: seq<byte>): Receipt
    requires budget.Some? ==> r.readCount <= budget.value
    requires r.verdict.Accepted? ==> |r.verdict.payload| <= |resp|
  {
    Receipt(if r.verdict.Accepted? then ReturnOk else ReturnError,
            if r.demote then Disconnected else status,
            p.(incoming := r.rest, readBudget := Spend(budget, r.readCount)),
            if r.verdict.Accepted? then CopyOut(r.verdict.payload, resp) else resp)
  }

  /** Reading one response from port state `p`, link state `status` and response buffer `resp`, as `Receive` says. */
  ghost function Received(cfg: Config, p: PortState, status: FcCommsStatus, resp: seq<byte>): Receipt
    requires cfg.LengthFits(p.incoming) && |resp| == cfg.maxDataLength
  {
    Settle(Receive(cfg.receiveHeader, cfg.headerSize, p.incoming, ReadBudgetOf(p)), status, p, p.readBudget, resp)
  }

  /** The header read raises: an error, the link dropped, nothing consumed. */
  lemma ReceivedHeaderRaises(cfg: Config, p: PortState, status: FcCommsStatus, resp: seq<byte>)
    requires cfg.LengthFits(p.incoming) && |resp| == cfg.maxDataLength
    requires !ReadAllowed(ReadBudgetOf(p), 0)
    ensures Received(cfg, p, status, resp) == Receipt(ReturnError, Disconnected, p, resp)
  {
  }

  /** The header read completes with bytes other than the expected header. */
  lemma ReceivedBadHeader(cfg: Config, p: PortState, status: FcCommsStatus, resp: seq<byte>, header: seq<byte>)
    requires cfg.LengthFits(p.incoming) && |resp| == cfg.maxDataLength
    requires ReadAllowed(ReadBudgetOf(p), 0)
    requires header == Take(p.incoming, cfg.headerSize) && header != cfg.receiveHeader
    ensures Received(cfg, p, status, resp)
         == Receipt(ReturnError, if |header| != cfg.headerSize then Disconnected else status,
                    p.(incoming := p.incoming[|header|..], readBudget := Spend(p.readBudget, 1)), resp)
  {
    ReceiveHeaderStage(cfg.receiveHeader, cfg.headerSize, p.incoming, ReadBudgetOf(p));
  }

  /**
   * The header read completes with the expected header, leaving port state
   * `p1`: what follows is the length stage on the rest of the queue.
   */
  lemma ReceivedViaLength(cfg: Config, p: PortState, status: FcCommsStatus, resp: seq<byte>, p1: PortState)
    requires |cfg.receiveHeader| == cfg.headerSize && cfg.LengthFits(p.incoming) && |resp| == cfg.maxDataLength
    requires p.open && ReadAllowed(p.readBudget, 0) && Take(p.incoming, cfg.headerSize) == cfg.receiveHeader
    requires p1 == p.(incoming := p.incoming[cfg.headerSize..], readBudget := Spend(p.readBudget, 1))
    ensures |p1.incoming| > 0 ==> p1.incoming[0] as int <= cfg.maxDataLength
    ensures Received(cfg, p, status, resp) == Settle(ReceiveLength(p1.incoming, false, p.readBudget), status, p1, p.readBudget, resp)
  {
    ReceiveHeaderStage(cfg.receiveHeader, cfg.headerSize, p.incoming, p.readBudget);
  }

  /** The body read raises: an error and the link dropped, with two reads spent and nothing consumed. */
  lemma BodyReadRaises(len: byte, q: seq<byte>, flagged: bool, budget: Option<nat>, status: FcCommsStatus,
                       p: PortState, resp: seq<byte>, p': PortState)
    requires ReadAllowed(budget, 1) && !ReadAllowed(budget, 2) && len as int <= |resp|
    requires p' == p.(incoming := q, readBudget := Spend(budget, 2))
    ensures Settle(ReceiveBody(len, q, flagged, budget), status, p, budget, resp) == Receipt(ReturnError, Disconnected, p', resp)
  {
  }

  /**
   * The body read completes with `buffer`: a short body drops the link;
   * otherwise the response is accepted, and its data copied out, exactly
   * when `crc`, the length XOR every byte read but the last, equals the last.
   */
  lemma BodyReadCompletes(len: byte, q: seq<byte>, flagged: bool, budget: Option<nat>, status: FcCommsStatus,
                          p: PortState, resp: seq<byte>, buffer: seq<byte>, crc: byte, out: Receipt)
    requires ReadAllowed(budget, 2) && len as int <= |resp| && (flagged ==> status == Disconnected)
    requires buffer == Take(q, len as int + 2)
    requires |buffer| == len as int + 2 ==> crc == XorByte(len, Xor(buffer[..len as int + 1]))
    requires var accepted := |buffer| == len as int + 2 && crc == buffer[len as int + 1];
      out == Receipt(if accepted then ReturnOk else ReturnError,
                     if |buffer| != len as int + 2 then Disconnected else status,
                     p.(incoming := q[|buffer|..], readBudget := Spend(budget, 3)),
                     if accepted then CopyOut(buffer[1..len as int + 1], resp) else resp)
    ensures Settle(ReceiveBody(len, q, flagged, budget), status, p, budget, resp) == out
  {
    ReceiveBodyStage(len, q, flagged, budget);
  }

  /**
   * Once the frame is written, reading the response as `Received` says is the
   * rest of the connected transaction: the same return code, link state and
   * port state, and the response buffer filled as `Delivered` says.
   */
  lemma ExchangeReceives(cfg: Config, p: PortState, id: byte, send: seq<byte>, resp: seq<byte>, p1: PortState)
    requires cfg.Valid() && |send| <= cfg.maxDataLength && p.open && !p.writeFault
    requires cfg.LengthFits(p.incoming) && |resp| == cfg.maxDataLength
    requires p1 == p.(written := p.written + Frame(cfg.sendHeader, id, send))
    ensures var o := Exchange(cfg, Connected, p, id, send);
      Received(cfg, p1, Connected, resp) == Receipt(o.ret, o.status, o.port, Delivered(o, resp))
  {
  }

  /**
   * The frame an RC transaction writes carries the eight channels: the
   * flight controller decoding its data section gets them back.
   */
  lemma SendRcFrame(cfg: Config, p: PortState, rc: seq<uint16>)
    requires cfg.Valid() && |rc| == RcChannels && p.open && !p.writeFault
    ensures var o := Exchange(cfg, Connected, p, MspSetRawRc, PackRc(rc));
      var w := o.port.written[|p.written|..];
      && |w| == cfg.nonDataLength + 2 * RcChannels
      && w[3] == (2 * RcChannels) as byte && w[4] == MspSetRawRc
      && GetRc(w[cfg.packetDataOffset..]) == rc
  {
    var send := PackRc(rc);
    ExchangeWritesFrame(cfg, p, MspSetRawRc, send);
    var w := Exchange(cfg, Connected, p, MspSetRawRc, send).port.written[|p.written|..];
    assert w == Frame(cfg.sendHeader, MspSetRawRc, send);
    assert w[cfg.packetDataOffset..] == send + [Checksum(MspSetRawRc, send)];
    RcRoundTrip(rc, [Checksum(MspSetRawRc, send)]);
  }

  /**
   * Reading the RC channels: a well-formed MSP_RC response carrying eight
   * packed channels is accepted and its data section decodes to them.
   */
  lemma RawRcRoundTrip(cfg: Config, p: PortState, rc: seq<uint16>, echo: byte, tail: seq<byte>)
    requires cfg.Valid() && |rc| == RcChannels && p.open && !p.writeFault && ReadAllowed(p.readBudget, 2)
    requires p.incoming == Frame(cfg.receiveHeader, echo, PackRc(rc)) + tail
    ensures var o := Exchange(cfg, Connected, p, MspRc, []);
      o.ret == ReturnOk && o.status == Connected && GetRc(Delivered(o, Zeros(cfg.maxDataLength))) == rc
  {
    ExchangeRoundTrip(cfg, p, MspRc, [], echo, PackRc(rc), tail);
    RcRoundTrip(rc, Zeros(cfg.maxDataLength)[2 * RcChannels..]);
  }

  /** The running XOR checksum: `seed` XOR every byte of `s`, one byte at a time. */
  method ChecksumOf(seed: byte, s: seq<byte>) returns (crc: byte)
    ensures crc == XorByte(seed, Xor(s))
  {
    crc := seed;
    XorLaws(seed, 0, 0);
    assert s[..0] == [];
    for i := 0 to |s|
      invariant crc == XorByte(seed, Xor(s[..i]))
    {
      assert s[..i + 1][..i] == s[..i];
      XorLaws(seed, Xor(s[..i]), s[i]);
      crc := XorByte(crc, s[i]);
    }
    assert s[..|s|] == s;
  }

  /** The index of the first device whose hardware id is `hardwareId`, if any. */
  function FirstMatch(devices: seq<PortInfo>, hardwareId: string): (r: Option<nat>)
    ensures r.Some? ==> r.value < |devices| && devices[r.value].hardwareId == hardwareId
    ensures r.Some? ==> forall j | 0 <= j < r.value :: devices[j].hardwareId != hardwareId
    ensures r.None? ==> forall j | 0 <= j < |devices| :: devices[j].hardwareId != hardwareId
  {
    if devices == [] then None
    else if devices[0].hardwareId == hardwareId then Some(0)
    else
      match FirstMatch(devices[1..], hardwareId)
      case None => None
      case Some(i) => Some(i + 1)
  }

  class MspFcComms {
    const cfg: Config
    var status: FcCommsStatus
    var port: SerialPort?
    /** The eight RC channel values last computed, in the order roll, pitch, throttle, yaw, arm. */
    const rc: array<uint16>

    ghost predicate Valid()
      reads this
    {
      && cfg.Valid()
      && rc.Length == RcChannels
      && (status != Disconnected ==> port != null)
    }

    /** Valid, and a response waiting on a connected port announces a length that fits the response buffer. */
    ghost predicate Ready()
      reads this, port
    {
      Valid() && (status == Connected ==> cfg.LengthFits(port.incoming))
    }

    /** The state of the port the driver holds, or `Detached`. */
    function LinkPort(): PortState
      reads this, port
    {
      if port == null then Detached else port.State()
    }

    /** A driver with no port yet, its channels set to `initialRc`. */
    constructor (cfg: Config, initialRc: seq<uint16>)
      requires cfg.Valid() && |initialRc| == RcChannels
      ensures Valid() && this.cfg == cfg && status == Disconnected && port == null
      ensures fresh(rc) && rc[..] == initialRc
    {
      this.cfg := cfg;
      status := Disconnected;
      port := null;
      rc := new uint16[RcChannels](i requires 0 <= i < RcChannels => initialRc[i]);
    }

    /**
     * The linear search over the port listing: the port name of the first
     * device with the configured hardware id, and an error when there is none,
     * in which case `serialPortBefore` is returned unchanged.
     */
    method FindFc(devices: seq<PortInfo>, serialPortBefore: string) returns (ret: FcCommsReturns, serialPort: string)
      ensures ret == ReturnOk <==> FirstMatch(devices, cfg.hardwareId).Some?
      ensures serialPort == match FirstMatch(devices, cfg.hardwareId)
                            case Some(k) => devices[k].port
                            case None => serialPortBefore
    {
      serialPort := serialPortBefore;
      var found := false;
      var i := 0;
      while i < |devices| && !found
        invariant 0 <= i <= |devices|
        invariant !found ==> serialPort == serialPortBefore
        invariant !found ==> forall j | 0 <= j < i :: devices[j].hardwareId != cfg.hardwareId
        invariant found ==> 0 < i && devices[i - 1].hardwareId == cfg.hardwareId && serialPort == devices[i - 1].port
        invariant found ==> forall j | 0 <= j < i - 1 :: devices[j].hardwareId != cfg.hardwareId
      {
        var device := devices[i];
        i := i + 1;
        if device.hardwareId == cfg.hardwareId {
          serialPort := device.port;
          found := true;
        }
      }
      ret := if found then ReturnOk else ReturnError;
    }

    /**
     * Connecting: find the device, open its port, and end Connected with Ok
     * exactly when both work and the port reports open; every other path ends
     * Disconnected with an error.
     */
    method Connect(devices: seq<PortInfo>, opening: PortOpening) returns (ret: FcCommsReturns)
      requires Valid()
      modifies this`status, this`port
      ensures Valid()
      ensures var m := FirstMatch(devices, cfg.hardwareId);
        ret == ReturnOk <==> m.Some? && opening.Opened? && opening.state.open
      ensures status == if ret == ReturnOk then Connected else Disconnected
      ensures var m := FirstMatch(devices, cfg.hardwareId);
        if m.Some? && opening.Opened?
        then fresh(port) && port.name == devices[m.value].port && port.State() == opening.state
        else port == old(port)
    {
      status := Connecting;
      var found, serialPort := FindFc(devices, "");
      if found == ReturnError {
        status := Disconnected;
        return ReturnError;
      }
      match opening
      case OpenRaises =>
        status := Disconnected;
        ret := ReturnError;
      case Opened(s) =>
        port := new SerialPort(serialPort, s);
        var open := port.IsOpen();
        if !open {
          status := Disconnected;
          return ReturnError;
        }
        status := Connected;
        ret := ReturnOk;
    }

    /**
     * Disconnecting always ends Disconnected with Ok; it closes the port when
     * connected, or when connecting and the port is open, and does not touch
     * the port when already disconnected.
     */
    method Disconnect() returns (ret: FcCommsReturns)
      requires Valid()
      modifies this`status, port
      ensures Valid() && ret == ReturnOk && status == Disconnected && port == old(port)
      ensures old(status) != Disconnected ==> port.State() == old(port.State()).(open := false)
      ensures old(status) == Disconnected ==> LinkPort() == old(LinkPort())
    {
      match status {
        case Connected =>
          port.Close();
        case Connecting =>
          var open := port.IsOpen();
          if open {
            port.Close();
          }
        case Disconnected =>
      }
      status := Disconnected;
      ret := ReturnOk;
    }

    /** The periodic check: a port found closed drops the link with an error; otherwise nothing changes. */
    method HandleComms() returns (ret: FcCommsReturns)
      requires Valid() && port != null
      modifies this`status
      ensures Valid()
      ensures ret == (if port.open then ReturnOk else ReturnError)
      ensures status == (if port.open then old(status) else Disconnected)
    {
      var open := port.IsOpen();
      if !open {
        status := Disconnected;
        return ReturnError;
      }
      ret := ReturnOk;
    }

    /**
     * Sending message `message` and reading its response, as `Exchange` says:
     * the frame is built with its checksum folded over the length, the id and
     * the data section, written, and the response's data section copied into
     * the message's response buffer.
     */
    method SendMessage(message: MspMessage) returns (ret: FcCommsReturns)
      requires Ready() && message.response.Length == cfg.maxDataLength
      modifies this`status, port, message.response
      ensures Valid() && port == old(port)
      ensures var o := Exchange(cfg, old(status), old(LinkPort()), message.messageId, message.send);
        Receipt(ret, status, LinkPort(), message.response[..]) == Receipt(o.ret, o.status, o.port, Delivered(o, old(message.response[..])))
    {
      var id, send := message.messageId, message.send;
      if status != Connected {
        ExchangeNotConnected(cfg, status, LinkPort(), id, send);
        return ReturnOk;
      }
      if |send| > cfg.maxDataLength {
        ExchangeOversized(cfg, port.State(), id, send);
        return ReturnError;
      }
      ghost var p := port.State();
      var dataLength := |send| as byte;
      var checksum := ChecksumOf(XorByte(dataLength, id), send);
      SeededChecksum(id, send);
      var packet := cfg.sendHeader + [dataLength, id] + send + [checksum];
      var ok := port.Write(packet);
      if !ok {
        ExchangeWriteRaises(cfg, p, id, send);
        status := Disconnected;
        return ReturnError;
      }
      ExchangeReceives(cfg, p, id, send, message.response[..], port.State());
      ret := ReceiveResponseAfterSend(id, message.response);
    }

    /** Sending the channels as an MSP_SET_RAW_RC message; its response is discarded. */
    method SendRc() returns (ret: FcCommsReturns)
      requires Ready()
      modifies this`status, port
      ensures Valid() && port == old(port)
      ensures var o := Exchange(cfg, old(status), old(LinkPort()), MspSetRawRc, PackRc(rc[..]));
        ret == o.ret && status == o.status && LinkPort() == o.port
    {
      var message := new MspMessage(MspSetRawRc, PackRc(rc[..]), cfg.maxDataLength);
      ret := SendMessage(message);
    }

    /**
     * A direction command: roll, pitch, throttle and yaw rate clamped, scaled
     * and cast into channels 0 to 3, then the channels sent.
     */
    method ProcessDirectionCommand(command: DirectionCommand) returns (ret: FcCommsReturns)
      requires Ready()
      modifies this`status, port, rc
      ensures Valid() && port == old(port)
      ensures rc[..] == DirectionChannels(cfg, old(rc[..]), command)
      ensures var o := Exchange(cfg, old(status), old(LinkPort()), MspSetRawRc, PackRc(rc[..]));
        ret == o.ret && status == o.status && LinkPort() == o.port
    {
      rc[0] := AxisChannel(cfg.RollAxis(), command.roll);
      rc[1] := AxisChannel(cfg.PitchAxis(), command.pitch);
      rc[2] := AxisChannel(cfg.ThrottleAxis(), command.throttle);
      rc[3] := AxisChannel(cfg.YawAxis(), command.yawRate);
      ret := SendRc();
    }

    /** Arming or disarming: channel 4 set to 2000 or 1000, then the channels sent. */
    method SetArm(arm: bool) returns (ret: FcCommsReturns)
      requires Ready()
      modifies this`status, port, rc
      ensures Valid() && port == old(port)
      ensures rc[..] == old(rc[..])[4 := if arm then 2000 else 1000]
      ensures var o := Exchange(cfg, old(status), old(LinkPort()), MspSetRawRc, PackRc(rc[..]));
        ret == o.ret && status == o.status && LinkPort() == o.port
    {
      rc[4] := if arm then 2000 else 1000;
      ret := SendRc();
    }

    /**
     * A safety landing: roll, pitch and yaw rate zeroed, the throttle set by
     * the safety-landing rule, then the channels sent.
     */
    method SafetyLand() returns (ret: FcCommsReturns)
      requires Ready()
      modifies this`status, port, rc
      ensures Valid() && port == old(port)
      ensures rc[..] == SafetyLandChannels(cfg, old(rc[..]))
      ensures var o := Exchange(cfg, old(status), old(LinkPort()), MspSetRawRc, PackRc(rc[..]));
        ret == o.ret && status == o.status && LinkPort() == o.port
    {
      var throttle := SafetyThrottle(cfg, rc[2]);
      rc[0] := 0;
      rc[1] := 0;
      rc[2] := throttle;
      rc[3] := 0;
      ret := SendRc();
    }

    /**
     * Asking for the RC channels the flight controller sees: on Ok, `rcValues`
     * holds the eight channels decoded from the response; otherwise it is
     * left as it was.
     */
    method GetRawRc(rcValues: array<uint16>) returns (ret: FcCommsReturns)
      requires Ready() && rcValues.Length == RcChannels
      modifies this`status, port, rcValues
      ensures Valid() && port == old(port)
      ensures var o := Exchange(cfg, old(status), old(LinkPort()), MspRc, []);
        && ret == o.ret && status == o.status && LinkPort() == o.port
        && rcValues[..] == if ret == ReturnOk then GetRc(Delivered(o, Zeros(cfg.maxDataLength))) else old(rcValues[..])
    {
      var message := new MspMessage(MspRc, [], cfg.maxDataLength);
      ret := SendMessage(message);
      if ret == ReturnOk {
        var values := GetRc(message.response[..]);
        forall i | 0 <= i < RcChannels {
          rcValues[i] := values[i];
        }
      }
    }

    /**
     * Whether the pilot's switch allows the autopilot: on Ok, whether the
     * switch channel read back is strictly above the switch midpoint;
     * otherwise `allowed` is left as it was.
     */
    method IsAutoPilotAllowed(allowedBefore: bool) returns (ret: FcCommsReturns, allowed: bool)
      requires Ready()
      modifies this`status, port
      ensures Valid() && port == old(port)
      ensures var o := Exchange(cfg, old(status), old(LinkPort()), MspRc, []);
        && ret == o.ret && status == o.status && LinkPort() == o.port
        && allowed == if ret == ReturnOk
                      then GetRc(Delivered(o, Zeros(cfg.maxDataLength)))[cfg.autoPilotChannel] as int > cfg.switchMidpoint
                      else allowedBefore
    {
      var values := new uint16[RcChannels](_ => 0);
      ret := GetRawRc(values);
      allowed := allowedBefore;
      if ret == ReturnOk {
        allowed := values[cfg.autoPilotChannel] as int > cfg.switchMidpoint;
      }
    }

    /** The battery voltage, decoded from an MSP_ANALOG response by `volts`; left as it was unless Ok. */
    method GetBattery(volts: seq<byte> -> real, voltageBefore: real) returns (ret: FcCommsReturns, voltage: real)
      requires Ready()
      modifies this`status, port
      ensures Valid() && port == old(port)
      ensures var o := Exchange(cfg, old(status), old(LinkPort()), MspAnalog, []);
        && ret == o.ret && status == o.status && LinkPort() == o.port
        && voltage == if ret == ReturnOk then volts(Delivered(o, Zeros(cfg.maxDataLength))) else voltageBefore
    {
      var message := new MspMessage(MspAnalog, [], cfg.maxDataLength);
      ret := SendMessage(message);
      voltage := voltageBefore;
      if ret == ReturnOk {
        voltage := volts(message.response[..]);
      }
    }

    /** Whether the flight controller is armed, decoded from an MSP_STATUS response by `armedFlag`; left as it was unless Ok. */
    method IsArmed(armedFlag: seq<byte> -> bool, armedBefore: bool) returns (ret: FcCommsReturns, armed: bool)
      requires Ready()
      modifies this`status, port
      ensures Valid() && port == old(port)
      ensures var o := Exchange(cfg, old(status), old(LinkPort()), MspStatus, []);
        && ret == o.ret && status == o.status && LinkPort() == o.port
        && armed == if ret == ReturnOk then armedFlag(Delivered(o, Zeros(cfg.maxDataLength))) else armedBefore
    {
      var message := new MspMessage(MspStatus, [], cfg.maxDataLength);
      ret := SendMessage(message);
      armed := armedBefore;
      if ret == ReturnOk {
        armed := armedFlag(message.response[..]);
      }
    }

    /**
     * The attitude, roll, pitch and yaw, decoded from an MSP_ATTITUDE
     * response by `angles` into `attitude`; left as it was unless Ok.
     */
    method GetAttitude(angles: seq<byte> -> (real, real, real), attitude: array<real>) returns (ret: FcCommsReturns)
      requires Ready() && attitude.Length == 3
      modifies this`status, port, attitude
      ensures Valid() && port == old(port)
      ensures var o := Exchange(cfg, old(status), old(LinkPort()), MspAttitude, []);
        && ret == o.ret && status == o.status && LinkPort() == o.port
        && attitude[..] == if ret == ReturnOk
                           then var a := angles(Delivered(o, Zeros(cfg.maxDataLength))); [a.0, a.1, a.2]
                           else old(attitude[..])
    {
      var message := new MspMessage(MspAttitude, [], cfg.maxDataLength);
      ret := SendMessage(message);
      if ret == ReturnOk {
        var a := angles(message.response[..]);
        attitude[0], attitude[1], attitude[2] := a.0, a.1, a.2;
      }
    }

    /**
     * Reading one response: the header, the length byte, then the id echo,
     * data and checksum together; the checksum is recomputed over what was
     * read and the data section copied into `response`. The result, the link
     * state, the port and the buffer end as `Receive` says. The length and
     * body stages are the two methods below.
     */
    method ReceiveResponseAfterSend(packetId: byte, response: array<byte>) returns (ret: FcCommsReturns)
      requires Valid() && port != null && response.Length == cfg.maxDataLength
      requires cfg.LengthFits(port.incoming)
      modifies this`status, port, response
      ensures Valid() && port == old(port)
      ensures Receipt(ret, status, port.State(), response[..]) == Received(cfg, old(port.State()), old(status), old(response[..]))
    {
      ghost var p, status0, resp := port.State(), status, response[..];
      var ok, header := port.Read(cfg.headerSize);
      if !ok {
        ReceivedHeaderRaises(cfg, p, status0, resp);
        status := Disconnected;
        return ReturnError;
      }
      if |header| != cfg.headerSize {
        status := Disconnected;
      }
      if header != cfg.receiveHeader {
        ReceivedBadHeader(cfg, p, status0, resp, header);
        return ReturnError;
      }
      ReceivedViaLength(cfg, p, status0, resp, port.State());
      ret := ReceiveResponseLength(p.readBudget, response);
    }

    /**
     * The length stage of reading a response, after one read from `budget`:
     * the length byte, or 0 and a dropped link when it is missing, then the
     * body stage, as `ReceiveLength` says.
     */
    method ReceiveResponseLength(ghost budget: Option<nat>, response: array<byte>) returns (ret: FcCommsReturns)
      requires port != null && response.Length == cfg.maxDataLength <= 253
      requires port.open && ReadAllowed(budget, 0) && port.readBudget == Spend(budget, 1)
      requires |port.incoming| > 0 ==> port.incoming[0] as int <= cfg.maxDataLength
      modifies this`status, port, response
      ensures port == old(port)
      ensures Receipt(ret, status, port.State(), response[..])
           == Settle(ReceiveLength(old(port.incoming), false, budget), old(status), old(port.State()), budget, old(response[..]))
    {
      ghost var q := port.incoming;
      var ok, lengthRead := port.Read(1);
      if !ok {
        status := Disconnected;
        return ReturnError;
      }
      ReceiveLengthStage(q, false, budget);
      var dataLength: byte := 0;
      if |lengthRead| == 1 {
        dataLength := lengthRead[0];
      } else {
        status := Disconnected;
      }
      ret := ReceiveResponseBody(dataLength, |lengthRead| != 1, budget, response);
    }

    /**
     * The body stage of reading a response, after two reads from `budget`:
     * the id echo, data and checksum are read together, the checksum
     * recomputed over all but the last byte read and the data section copied
     * into `response`, as `ReceiveBody` says. A link already found lost
     * (`flagged`) stays dropped.
     */
    method ReceiveResponseBody(dataLength: byte, ghost flagged: bool, ghost budget: Option<nat>, response: array<byte>)
      returns (ret: FcCommsReturns)
      requires port != null && dataLength as int <= response.Length == cfg.maxDataLength <= 253
      requires port.open && ReadAllowed(budget, 1) && port.readBudget == Spend(budget, 2)
      requires flagged ==> status == Disconnected
      modifies this`status, port, response
      ensures port == old(port)
      ensures Receipt(ret, status, port.State(), response[..])
           == Settle(ReceiveBody(dataLength, old(port.incoming), flagged, budget), old(status), old(port.State()), budget, old(response[..]))
    {
      ghost var p, q, status0, resp := port.State(), port.incoming, status, response[..];
      // The body length is a uint8_t; it cannot wrap for a length that fits the response buffer.
      var messageLength := (dataLength as int + 2) % 256;
      assert messageLength == dataLength as int + 2;
      var ok, buffer := port.Read(messageLength);
      if !ok {
        status := Disconnected;
        BodyReadRaises(dataLength, q, flagged, budget, status0, p, resp, port.State());
        return ReturnError;
      }
      assert port.readBudget == Spend(budget, 3);
      // A wrong id echo in buffer[0] is only logged.
      if |buffer| != messageLength {
        status := Disconnected;
        BodyReadCompletes(dataLength, q, flagged, budget, status0, p, resp, buffer, 0,
                          Receipt(ReturnError, status, port.State(), response[..]));
        return ReturnError;
      }
      var crc := ChecksumOf(dataLength, buffer[..messageLength - 1]);
      if crc != buffer[messageLength - 1] {
        BodyReadCompletes(dataLength, q, flagged, budget, status0, p, resp, buffer, crc,
                          Receipt(ReturnError, status, port.State(), response[..]));
        return ReturnError;
      }
      ghost var copied := CopyOut(buffer[1..messageLength - 1], resp);
      BodyReadCompletes(dataLength, q, flagged, budget, status0, p, resp, buffer, crc,
                        Receipt(ReturnOk, status, port.State(), copied));
      forall k | 0 <= k < dataLength as int {
        response[k] := buffer[1 + k];
      }
      assert response[..] == copied;
      ret := ReturnOk;
    }
  }
}
