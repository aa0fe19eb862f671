/**
 * Every alarm transition from the history of raw telemetry alone: which conditions held before and after a
 * packet, without engine state, and what the packet must therefore announce.
 */
module AlarmHistory {
  import opened Wrappers
  import opened Alarms
  import opened Codec

  // ---------- the three conditions, in hundredths of a degree and in millivolts ----------

  /** Some packet reached `level` degrees and none since was below `clear` degrees. */
  ghost predicate WarmSince(packets: seq<TelemetryPacket>, level: real, clear: real, k: nat)
    requires k < |packets|
  {
    && packets[k].temperatureCentiC as real >= 100.0 * level
    && forall j :: k <= j < |packets| ==> packets[j].temperatureCentiC as real >= 100.0 * clear
  }

  ghost predicate Warm(packets: seq<TelemetryPacket>, level: real, clear: real) {
    exists k :: 0 <= k < |packets| && WarmSince(packets, level, clear, k)
  }

  /** Some packet fell to `level` volts and none since was above `clear` volts. */
  ghost predicate LowSince(packets: seq<TelemetryPacket>, level: real, clear: real, k: nat)
    requires k < |packets|
  {
    && packets[k].batteryMv as real <= 1000.0 * level
    && forall j :: k <= j < |packets| ==> packets[j].batteryMv as real <= 1000.0 * clear
  }

  ghost predicate Low(packets: seq<TelemetryPacket>, level: real, clear: real) {
    exists k :: 0 <= k < |packets| && LowSince(packets, level, clear, k)
  }

  /** The last packet reports SAFE, which is mode 2. */
  predicate Safe(packets: seq<TelemetryPacket>) {
    packets != [] && packets[|packets| - 1].mode == 2
  }

  /** Whether warning level, critical level, low battery and safe mode hold after these packets. */
  datatype Conditions = Conditions(warm: bool, hot: bool, low: bool, safe: bool)

  ghost function ConditionsAfter(policy: AlarmPolicy, packets: seq<TelemetryPacket>): Conditions {
    var t, b := policy.temperature, policy.battery;
    Conditions(
      Warm(packets, t.warningC, t.warningC - t.hysteresisC),
      Warm(packets, t.criticalC, t.criticalC - t.hysteresisC),
      Low(packets, b.criticalV, b.criticalV + b.hysteresisV),
      policy.alarmOnSafe && Safe(packets))
  }

  lemma WarmSinceHolds(l: Latch, packets: seq<TelemetryPacket>, k: nat)
    requires k < |packets|
    ensures HoldsSince(l, Temperatures(packets), k) <==> WarmSince(packets, l.set_, l.clear, k)
  {
    var ts := Temperatures(packets);
    forall j | 0 <= j < |packets|
      ensures ts[j] >= l.set_ <==> packets[j].temperatureCentiC as real >= 100.0 * l.set_
      ensures ts[j] >= l.clear <==> packets[j].temperatureCentiC as real >= 100.0 * l.clear
    {
    }
  }

  lemma WarmIsLatched(l: Latch, packets: seq<TelemetryPacket>)
    requires l.clear <= l.set_
    ensures LatchAfter(l, Temperatures(packets)) <==> Warm(packets, l.set_, l.clear)
  {
    hide HoldsSince, WarmSince;
    LatchClosedForm(l, Temperatures(packets));
    forall k: nat | k < |packets| { WarmSinceHolds(l, packets, k); }
  }

  lemma DeficitSays(b: BatteryPolicy, packets: seq<TelemetryPacket>, j: nat)
    requires j < |packets|
    ensures var x := BatteryDeficits(packets)[j];
      && (x >= BatteryLatch(b).set_ <==> packets[j].batteryMv as real <= 1000.0 * b.criticalV)
      && (x >= BatteryLatch(b).clear <==> packets[j].batteryMv as real <= 1000.0 * (b.criticalV + b.hysteresisV))
  {
  }

  lemma LowSinceHolds(b: BatteryPolicy, packets: seq<TelemetryPacket>, k: nat)
    requires k < |packets|
    ensures HoldsSince(BatteryLatch(b), BatteryDeficits(packets), k) <==>
      LowSince(packets, b.criticalV, b.criticalV + b.hysteresisV, k)
  {
    var l, vs, clear := BatteryLatch(b), BatteryDeficits(packets), b.criticalV + b.hysteresisV;
    DeficitSays(b, packets, k);
    if HoldsSince(l, vs, k) {
      forall j | k <= j < |packets|
        ensures packets[j].batteryMv as real <= 1000.0 * clear
      {
        assert vs[j] >= l.clear;
        DeficitSays(b, packets, j);
      }
    }
    if LowSince(packets, b.criticalV, clear, k) {
      forall j | k <= j < |vs|
        ensures vs[j] >= l.clear
      {
        assert packets[j].batteryMv as real <= 1000.0 * clear;
        DeficitSays(b, packets, j);
      }
    }
  }

  lemma LowIsLatched(b: BatteryPolicy, packets: seq<TelemetryPacket>)
    requires b.Valid()
    ensures LatchAfter(BatteryLatch(b), BatteryDeficits(packets)) <==>
      Low(packets, b.criticalV, b.criticalV + b.hysteresisV)
  {
    hide HoldsSince, LowSince;
    var l, vs, clear := BatteryLatch(b), BatteryDeficits(packets), b.criticalV + b.hysteresisV;
    LatchClosedForm(l, vs);
    if LatchAfter(l, vs) {
      var k :| 0 <= k < |vs| && HoldsSince(l, vs, k);
      LowSinceHolds(b, packets, k);
    }
    if Low(packets, b.criticalV, clear) {
      var k :| 0 <= k < |packets| && LowSince(packets, b.criticalV, clear, k);
      LowSinceHolds(b, packets, k);
    }
  }

  lemma LastPacket(policy: AlarmPolicy, packets: seq<TelemetryPacket>)
    ensures var s := StateAfter(policy, packets);
      && s.lastSequence == (if packets == [] then None else Some(packets[|packets| - 1].sequence))
      && s.safeModeActive == (policy.alarmOnSafe && Safe(packets))
  {
  }

  /** The engine's state after any history is these conditions and the last sequence number. */
  lemma StateIsConditions(policy: AlarmPolicy, packets: seq<TelemetryPacket>)
    requires policy.Valid()
    ensures var s, c := StateAfter(policy, packets), ConditionsAfter(policy, packets);
      && s.lastSequence == (if packets == [] then None else Some(packets[|packets| - 1].sequence))
      && s.temperature == (if c.hot then Some(Critical) else if c.warm then Some(Warning) else None)
      && s.batteryActive == c.low
      && s.safeModeActive == c.safe
      && (c.hot ==> c.warm)
  {
    hide StateAfter, LatchAfter, Warm, Low, Temperatures, BatteryDeficits, Safe;
    var t := policy.temperature;
    LastPacket(policy, packets);
    HysteresisDecomposition(policy, packets);
    WarmIsLatched(WarningLatch(t), packets);
    WarmIsLatched(CriticalLatch(t), packets);
    LowIsLatched(policy.battery, packets);
  }

  // ---------- what a packet announces ----------

  function GapAnnounced(policy: AlarmPolicy, packets: seq<TelemetryPacket>, p: TelemetryPacket)
    : seq<AlarmTransition>
  {
    if !policy.detectGaps || packets == [] then []
    else
      var next := (packets[|packets| - 1].sequence + 1) % 0x1_0000_0000;
      if p.sequence == next then []
      else [AlarmTransition(Warning, SequenceGapSeen, SequenceGap, Raised, Sequence(p.sequence), Some(next as real))]
  }

  function TemperatureAnnounced(t: TemperaturePolicy, b: Conditions, a: Conditions, observed: Observed)
    : seq<AlarmTransition>
  {
    if !b.warm && a.hot then
      [AlarmTransition(Critical, HighTemperature, Temperature, Raised, observed, Some(t.criticalC))]
    else if !b.warm && a.warm then
      [AlarmTransition(Warning, ElevatedTemperature, Temperature, Raised, observed, Some(t.warningC))]
    else if b.hot && !a.warm then
      [AlarmTransition(Critical, HighTemperature, Temperature, Cleared, observed, Some(t.warningC - t.hysteresisC))]
    else if b.warm && !a.warm then
      [AlarmTransition(Warning, ElevatedTemperature, Temperature, Cleared, observed, Some(t.warningC - t.hysteresisC))]
    else if !b.hot && a.hot then
      [AlarmTransition(Critical, HighTemperature, Temperature, Updated, observed, Some(t.criticalC))]
    else if b.hot && !a.hot then
      [AlarmTransition(Warning, ElevatedTemperature, Temperature, Updated, observed, Some(t.criticalC - t.hysteresisC))]
    else []
  }

  function BatteryAnnounced(t: BatteryPolicy, b: Conditions, a: Conditions, observed: Observed): seq<AlarmTransition> {
    if !b.low && a.low then
      [AlarmTransition(Critical, LowBattery, Battery, Raised, observed, Some(t.criticalV))]
    else if b.low && !a.low then
      [AlarmTransition(Critical, LowBattery, Battery, Cleared, observed, Some(t.criticalV + t.hysteresisV))]
    else []
  }

  function SafeAnnounced(b: Conditions, a: Conditions, mode: int): seq<AlarmTransition> {
    if !b.safe && a.safe then [AlarmTransition(Warning, SafeModeEntered, SafeMode, Raised, Mode(mode), None)]
    else if b.safe && !a.safe then [AlarmTransition(Warning, SafeModeEntered, SafeMode, Cleared, Mode(mode), None)]
    else []
  }

  /** What packet `p` must announce after the packets before it. */
  ghost function Announced(policy: AlarmPolicy, packets: seq<TelemetryPacket>, p: TelemetryPacket)
    : seq<AlarmTransition>
  {
    var before, after := ConditionsAfter(policy, packets), ConditionsAfter(policy, packets + [p]);
    GapAnnounced(policy, packets, p)
    + TemperatureAnnounced(policy.temperature, before, after, Quantity(p.temperatureCentiC as real / 100.0))
    + BatteryAnnounced(policy.battery, before, after, Quantity(p.batteryMv as real / 1000.0))
    + SafeAnnounced(before, after, p.mode)
  }

  /**
   * After any history a packet causes exactly the transitions that the history announces: which, in what
   * order, with severity, code, identity, kind, observed value and threshold.
   */
  lemma TransitionsAreAnnounced(policy: AlarmPolicy, packets: seq<TelemetryPacket>, p: TelemetryPacket)
    requires policy.Valid()
    ensures Transitions(policy, StateAfter(policy, packets), p) == Announced(policy, packets, p)
  {
    hide ConditionsAfter, NextTemperature, NextBattery;
    var longer := packets + [p];
    assert longer[..|packets|] == packets;
    StateIsConditions(policy, packets);
    StateIsConditions(policy, longer);
    assert StateAfter(policy, longer) == NextState(policy, StateAfter(policy, packets), p);
  }

  /** The active identities after any history, in presentation order. */
  lemma ActiveIsConditions(policy: AlarmPolicy, packets: seq<TelemetryPacket>)
    requires policy.Valid()
    ensures var c := ConditionsAfter(policy, packets);
      ActiveIdentities(StateAfter(policy, packets)) ==
      (if c.warm then [Temperature] else []) + (if c.low then [Battery] else []) + (if c.safe then [SafeMode] else [])
  {
    hide ConditionsAfter;
    StateIsConditions(policy, packets);
  }
}
