/**
 * The MSP commands the driver sends, and the one payload layout it builds and
 * reads itself: eight RC channels as little-endian 16-bit values.
 */
module MspCommands {
  import opened MspCodec
  import opened MspConf

  /** The MSP v1 command numbers. */
  const MspStatus: byte := 101
  const MspRc: byte := 105
  const MspAttitude: byte := 108
  const MspAnalog: byte := 110
  const MspSetRawRc: byte := 200

  function LowByte(v: uint16): byte
  {
    (v % 256) as byte
  }

  function HighByte(v: uint16): byte
  {
    (v / 256) as byte
  }

  /** Channel values, two bytes each, least significant byte first. */
  function PackRc(rc: seq<uint16>): (r: seq<byte>)
    ensures |r| == 2 * |rc|
  {
    if rc == [] then [] else [LowByte(rc[0]), HighByte(rc[0])] + PackRc(rc[1..])
  }

  /** Channel `i` of a little-endian channel payload. */
  function U16At(bytes: seq<byte>, i: nat): (v: uint16)
    requires 2 * i + 1 < |bytes|
  {
    bytes[2 * i] as int + 256 * bytes[2 * i + 1] as int
  }

  /** The eight channels at the start of a response buffer. */
  function GetRc(bytes: seq<byte>): (rc: seq<uint16>)
    requires |bytes| >= 2 * RcChannels
    ensures |rc| == RcChannels
  {
    seq(RcChannels, i requires 0 <= i < RcChannels => U16At(bytes, i))
  }

  /** Where channel `i` sits in a packed payload. */
  lemma {:induction false} PackRcAt(rc: seq<uint16>, i: nat)
    requires i < |rc|
    ensures PackRc(rc)[2 * i] == LowByte(rc[i]) && PackRc(rc)[2 * i + 1] == HighByte(rc[i])
  {
    if i > 0 {
      PackRcAt(rc[1..], i - 1);
    }
  }

  /** Reading back a packed set of channels, whatever follows it in the buffer, gives the channels. */
  lemma RcRoundTrip(rc: seq<uint16>, rest: seq<byte>)
    requires |rc| == RcChannels
    ensures GetRc(PackRc(rc) + rest) == rc
  {
    var bytes := PackRc(rc) + rest;
    forall i | 0 <= i < RcChannels
      ensures GetRc(bytes)[i] == rc[i]
    {
      PackRcAt(rc, i);
    }
  }

  /**
   * One MSP message object: its command number, the data section to send
   * (its length is the message's data length) and the buffer the response's
   * data section is copied into.
   */
  class MspMessage {
    const messageId: byte
    const send: seq<byte>
    const response: array<byte>

    /** A fresh message with a zeroed response buffer of `responseSize` bytes. */
    constructor (messageId: byte, send: seq<byte>, responseSize: nat)
      ensures this.messageId == messageId && this.send == send
      ensures fresh(response) && response[..] == Zeros(responseSize)
    {
      this.messageId := messageId;
      this.send := send;
      response := new byte[responseSize](_ => 0);
    }
  }
}
