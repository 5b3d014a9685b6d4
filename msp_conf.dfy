/**
 * The driver's configuration constants (MSP headers and lengths, channel
 * scales and limits, the flight controller's hardware id), gathered into one
 * value so that every constant is a parameter of the model, together with the
 * relations between them that the driver relies on.
 */
module MspConf {
  import opened MspCodec

  /** Number of RC channels the driver keeps and sends. */
  const RcChannels: nat := 8

  /** Whether a raw channel value survives a cast to `uint16_t`. */
  predicate InUint16Range(v: real)
  {
    0.0 <= v < 65536.0
  }

  /** A command range `[lo, hi]` and the linear map `x * scale + offset` onto raw RC units. */
  datatype Axis = Axis(lo: real, hi: real, scale: real, offset: real)
  {
    /** The raw channel value of a command, before the cast to an integer. */
    function Raw(x: real): real
    {
      x * scale + offset
    }

    /** The range is not empty and both of its ends map into `uint16_t`. */
    predicate Valid()
    {
      lo <= hi && InUint16Range(Raw(lo)) && InUint16Range(Raw(hi))
    }
  }

  datatype Config = Config(
    sendHeader: seq<byte>,
    receiveHeader: seq<byte>,
    headerSize: nat,
    maxDataLength: nat,
    nonDataLength: nat,
    packetDataOffset: nat,
    hardwareId: string,
    autoPilotChannel: nat,
    switchMidpoint: int,
    rollScale: real,
    pitchScale: real,
    yawScale: real,
    midPoint: real,
    throttleScale: real,
    throttleStartPoint: real,
    safetyLandingThrottle: real,
    minRoll: real, maxRoll: real,
    minPitch: real, maxPitch: real,
    minYawRate: real, maxYawRate: real,
    minThrottle: real, maxThrottle: real)
  {
    function RollAxis(): Axis { Axis(minRoll, maxRoll, rollScale, midPoint) }
    function PitchAxis(): Axis { Axis(minPitch, maxPitch, pitchScale, midPoint) }
    function YawAxis(): Axis { Axis(minYawRate, maxYawRate, yawScale, midPoint) }
    function ThrottleAxis(): Axis { Axis(minThrottle, maxThrottle, throttleScale, throttleStartPoint) }

    /**
     * The relations the driver depends on: a three-byte send header, a
     * receive header of the size that is read, the packet layout offsets, a
     * data section that fits a `uint8_t` length plus two and holds the RC
     * payload, a channel index within the RC array, and channel ranges that
     * stay within `uint16_t` after scaling.
     */
    predicate Valid()
    {
      && |sendHeader| == 3
      && |receiveHeader| == headerSize
      && packetDataOffset == 5
      && nonDataLength == 6
      && 2 * RcChannels <= maxDataLength <= 253
      && autoPilotChannel < RcChannels
      && RollAxis().Valid() && PitchAxis().Valid() && YawAxis().Valid() && ThrottleAxis().Valid()
      && throttleScale != 0.0
      && InUint16Range(ThrottleAxis().Raw(safetyLandingThrottle))
    }

    /**
     * Whether a response at the head of `q` that carries the receive header
     * announces a data section that fits the response buffer. A larger length
     * byte would make the driver copy past the end of that buffer.
     */
    predicate LengthFits(q: seq<byte>)
    {
      |q| > headerSize && q[..headerSize] == receiveHeader ==> q[headerSize] as int <= maxDataLength
    }
  }
}
