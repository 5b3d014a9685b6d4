/**
 * The translation from normalised flight commands to raw RC channel values:
 * clamp to the configured range, scale and offset, cast to `uint16_t`; and
 * the safety-landing throttle rule. Doubles are modelled as exact reals.
 */
module RcTranslator {
  import opened MspCodec
  import opened MspConf

  /** `std::max`: the second argument when the first is smaller, else the first. */
  function Max(a: real, b: real): real
  {
    if a < b then b else a
  }

  /** `std::min`: the second argument when it is smaller than the first, else the first. */
  function Min(a: real, b: real): real
  {
    if b < a then b else a
  }

  /** `std::max(lo, std::min(hi, x))`: `x` pulled into `[lo, hi]`. */
  function Clamp(lo: real, hi: real, x: real): (r: real)
    requires lo <= hi
    ensures lo <= r <= hi
    ensures lo <= x <= hi ==> r == x
    ensures x <= lo ==> r == lo
    ensures hi <= x ==> r == hi
  {
    Max(lo, Min(hi, x))
  }

  /** `static_cast<uint16_t>` of a non-negative double below 65536: its integer part. */
  function Truncate(v: real): (r: uint16)
    requires InUint16Range(v)
    ensures r as real <= v < r as real + 1.0
  {
    v.Floor
  }

  lemma TruncateMonotone(u: real, v: real)
    requires InUint16Range(u) && InUint16Range(v) && u <= v
    ensures Truncate(u) <= Truncate(v)
  {
  }

  /** A linear map sends a point of `[lo, hi]` between the images of the two ends. */
  lemma RawBetween(a: Axis, y: real)
    requires a.lo <= y <= a.hi
    ensures Min(a.Raw(a.lo), a.Raw(a.hi)) <= a.Raw(y) <= Max(a.Raw(a.lo), a.Raw(a.hi))
    ensures a.Valid() ==> InUint16Range(a.Raw(y))
  {
    if a.scale >= 0.0 {
      assert (y - a.lo) * a.scale >= 0.0 && (a.hi - y) * a.scale >= 0.0;
      assert a.Raw(a.lo) <= a.Raw(y) <= a.Raw(a.hi);
    } else {
      assert (y - a.lo) * a.scale <= 0.0 && (a.hi - y) * a.scale <= 0.0;
      assert a.Raw(a.hi) <= a.Raw(y) <= a.Raw(a.lo);
    }
  }

  /**
   * The channel value for command `x` on axis `a`: clamped, scaled, cast.
   * It always lies between the values of the two ends of the range.
   */
  function AxisChannel(a: Axis, x: real): (r: uint16)
    requires a.Valid()
    ensures Truncate(Min(a.Raw(a.lo), a.Raw(a.hi))) <= r <= Truncate(Max(a.Raw(a.lo), a.Raw(a.hi)))
  {
    var y := Clamp(a.lo, a.hi, x);
    RawBetween(a, y);
    TruncateMonotone(Min(a.Raw(a.lo), a.Raw(a.hi)), a.Raw(y));
    TruncateMonotone(a.Raw(y), Max(a.Raw(a.lo), a.Raw(a.hi)));
    Truncate(a.Raw(y))
  }

  /** A command beyond either end of the range yields exactly the value of that end. */
  lemma AxisChannelSaturates(a: Axis, x: real)
    requires a.Valid()
    ensures x <= a.lo ==> AxisChannel(a, x) == AxisChannel(a, a.lo)
    ensures a.hi <= x ==> AxisChannel(a, x) == AxisChannel(a, a.hi)
    ensures a.lo <= x <= a.hi ==> InUint16Range(a.Raw(x)) && AxisChannel(a, x) == Truncate(a.Raw(x))
  {
    if a.lo <= x <= a.hi {
      RawBetween(a, x);
    }
  }

  /** Within the range, a larger command never yields a smaller channel value when the scale is positive. */
  lemma AxisChannelMonotone(a: Axis, x: real, y: real)
    requires a.Valid() && a.scale >= 0.0 && x <= y
    ensures AxisChannel(a, x) <= AxisChannel(a, y)
  {
    var cx, cy := Clamp(a.lo, a.hi, x), Clamp(a.lo, a.hi, y);
    assert (cy - cx) * a.scale >= 0.0;
    assert a.Raw(cx) <= a.Raw(cy);
    RawBetween(a, cx);
    RawBetween(a, cy);
    TruncateMonotone(a.Raw(cx), a.Raw(cy));
  }

  /** A roll, pitch, yaw-rate and throttle command. */
  datatype DirectionCommand = DirectionCommand(roll: real, pitch: real, yawRate: real, throttle: real)

  /** The channels after a direction command: 0 roll, 1 pitch, 2 throttle, 3 yaw rate; the others kept. */
  function DirectionChannels(cfg: Config, rc: seq<uint16>, cmd: DirectionCommand): (r: seq<uint16>)
    requires cfg.Valid() && |rc| == RcChannels
    ensures |r| == RcChannels && r[4..] == rc[4..]
  {
    rc[0 := AxisChannel(cfg.RollAxis(), cmd.roll)]
      [1 := AxisChannel(cfg.PitchAxis(), cmd.pitch)]
      [2 := AxisChannel(cfg.ThrottleAxis(), cmd.throttle)]
      [3 := AxisChannel(cfg.YawAxis(), cmd.yawRate)]
  }

  /** The normalised throttle a raw throttle channel value stands for. */
  function CurrentThrottle(cfg: Config, raw: uint16): (t: real)
    requires cfg.Valid()
    ensures cfg.ThrottleAxis().Raw(t) == raw as real
  {
    (raw as real - cfg.throttleStartPoint) / cfg.throttleScale
  }

  /**
   * The throttle channel during a safety landing: the minimum throttle when the
   * current throttle is below the minimum plus 0.01, else the safety-landing
   * throttle, either one scaled and cast.
   */
  function SafetyThrottle(cfg: Config, raw: uint16): uint16
    requires cfg.Valid()
  {
    var throttle := if CurrentThrottle(cfg, raw) < cfg.minThrottle + 0.01 then cfg.minThrottle else cfg.safetyLandingThrottle;
    Truncate(cfg.ThrottleAxis().Raw(throttle))
  }

  /** The channels after a safety landing: roll, pitch and yaw rate zeroed, throttle by the rule above. */
  function SafetyLandChannels(cfg: Config, rc: seq<uint16>): (r: seq<uint16>)
    requires cfg.Valid() && |rc| == RcChannels
    ensures |r| == RcChannels && r[4..] == rc[4..]
    ensures r[0] == 0 && r[1] == 0 && r[3] == 0
  {
    rc[0 := 0][1 := 0][2 := SafetyThrottle(cfg, rc[2])][3 := 0]
  }

  /**
   * The safety-landing throttle channel is the one a direction command would
   * give for the minimum throttle when the current throttle is below the
   * minimum plus 0.01, and otherwise the one it would give for the
   * safety-landing throttle, when that lies in the throttle range.
   */
  lemma SafetyLandThrottle(cfg: Config, rc: seq<uint16>)
    requires cfg.Valid() && |rc| == RcChannels
    ensures var t, r := cfg.ThrottleAxis(), SafetyLandChannels(cfg, rc);
      && (CurrentThrottle(cfg, rc[2]) < cfg.minThrottle + 0.01 ==> r[2] == AxisChannel(t, cfg.minThrottle))
      && (CurrentThrottle(cfg, rc[2]) >= cfg.minThrottle + 0.01 && cfg.minThrottle <= cfg.safetyLandingThrottle <= cfg.maxThrottle
          ==> r[2] == AxisChannel(t, cfg.safetyLandingThrottle))
  {
    AxisChannelSaturates(cfg.ThrottleAxis(), cfg.minThrottle);
    AxisChannelSaturates(cfg.ThrottleAxis(), cfg.safetyLandingThrottle);
  }

  /** The minimum throttle, scaled and cast, reads back as a throttle below the minimum plus 0.01. */
  lemma MinimumThrottleReadsBack(cfg: Config)
    requires cfg.Valid() && cfg.throttleScale > 0.0
    ensures CurrentThrottle(cfg, Truncate(cfg.ThrottleAxis().Raw(cfg.minThrottle))) < cfg.minThrottle + 0.01
  {
    var s, o := cfg.throttleScale, cfg.throttleStartPoint;
    var t := Truncate(cfg.ThrottleAxis().Raw(cfg.minThrottle));
    assert t as real - o <= cfg.minThrottle * s;
    assert (t as real - o) / s <= cfg.minThrottle;
  }

  /**
   * Once the throttle is at the minimum, a second safety landing changes
   * nothing: the channels are those of the first.
   */
  lemma SafetyLandIdempotentAtMinimum(cfg: Config, rc: seq<uint16>)
    requires cfg.Valid() && cfg.throttleScale > 0.0 && |rc| == RcChannels
    requires CurrentThrottle(cfg, rc[2]) < cfg.minThrottle + 0.01
    ensures SafetyLandChannels(cfg, SafetyLandChannels(cfg, rc)) == SafetyLandChannels(cfg, rc)
  {
    MinimumThrottleReadsBack(cfg);
  }

  /**
   * Throttle above the minimum goes to the safety-landing value even when that
   * is higher than the current throttle: with a scale of 1000 from 1000, a
   * minimum of 0 and a landing throttle of 0.5, a channel at 1100 becomes 1500.
   */
  lemma SafetyLandCanRaiseThrottle(cfg: Config)
    requires cfg.Valid()
    requires cfg.throttleScale == 1000.0 && cfg.throttleStartPoint == 1000.0
    requires cfg.minThrottle == 0.0 && cfg.safetyLandingThrottle == 0.5
    ensures SafetyThrottle(cfg, 1100) == 1500
  {
    assert CurrentThrottle(cfg, 1100) == 0.1;
  }

  /**
   * The safety-landing throttle is not limited to the throttle range either:
   * with a scale of 1000 from 1000, a range of [0, 0.5] and a landing throttle
   * of 0.8, a channel at 1500 becomes 1800, above the 1500 that a direction
   * command for 0.8 gives.
   */
  lemma SafetyLandCanExceedMaxThrottle(cfg: Config)
    requires cfg.Valid()
    requires cfg.throttleScale == 1000.0 && cfg.throttleStartPoint == 1000.0
    requires cfg.minThrottle == 0.0 && cfg.maxThrottle == 0.5 && cfg.safetyLandingThrottle == 0.8
    ensures SafetyThrottle(cfg, 1500) == 1800
    ensures AxisChannel(cfg.ThrottleAxis(), cfg.safetyLandingThrottle) == 1500
  {
    assert CurrentThrottle(cfg, 1500) == 0.5;
    AxisChannelSaturates(cfg.ThrottleAxis(), cfg.safetyLandingThrottle);
  }

  /** The roll scenario: scale 500 about 1500, roll 0.5 inside its range, gives 1750. */
  lemma RollScenario(cfg: Config, rc: seq<uint16>)
    requires cfg.Valid() && cfg.rollScale == 500.0 && cfg.midPoint == 1500.0
    requires cfg.minRoll <= 0.5 <= cfg.maxRoll && |rc| == RcChannels
    ensures DirectionChannels(cfg, rc, DirectionCommand(0.5, 0.0, 0.0, 0.5))[0] == 1750
  {
    assert cfg.RollAxis().Raw(0.5) == 1750.0;
  }
}
