/** The alarm engine: thresholds with hysteresis, latches, chatter and the lifecycle of alarms. */
module Alarms {
  import opened Wrappers
  import opened Codec
  import opened Texts
  import opened Words

  datatype TemperaturePolicy = TemperaturePolicy(warningC: real, criticalC: real, hysteresisC: real) {
    predicate Valid() {
      && warningC < criticalC
      && 0.0 <= hysteresisC
      && warningC <= criticalC - hysteresisC
    }
  }

  datatype BatteryPolicy = BatteryPolicy(criticalV: real, hysteresisV: real) {
    predicate Valid() { 0.0 < criticalV && 0.0 <= hysteresisV }
  }

  datatype AlarmPolicy = AlarmPolicy(
    temperature: TemperaturePolicy, battery: BatteryPolicy, alarmOnSafe: bool, detectGaps: bool)
  {
    predicate Valid() { temperature.Valid() && battery.Valid() }
  }

  const CODE_TEXTS: set<string> := {
    "HIGH_TEMPERATURE", "ELEVATED_TEMPERATURE", "LOW_BATTERY", "SAFE_MODE", "SEQUENCE_GAP"}
  const IDENTITY_NAMES: set<string> := {"temperature", "battery", "safe-mode", "sequence-gap"}

  /** Codes and identities that a log may hold and the engine never writes. */
  type OtherText = s: string | ValidText(s) && s !in CODE_TEXTS witness SomeText()
  type OtherName = s: string | ValidText(s) && s !in IDENTITY_NAMES witness SomeText()

  datatype Severity = Warning | Critical
  datatype AlarmCode =
    | HighTemperature
    | ElevatedTemperature
    | LowBattery
    | SafeModeEntered
    | SequenceGapSeen
    | OtherCode(text: OtherText)
  datatype TransitionType = Raised | Updated | Cleared
  datatype Identity = SequenceGap | Temperature | Battery | SafeMode | OtherIdentity(name: OtherName)

  function CodeText(c: AlarmCode): (s: string)
    ensures s !in CODE_TEXTS <==> c.OtherCode?
  {
    match c
    case HighTemperature => "HIGH_TEMPERATURE"
    case ElevatedTemperature => "ELEVATED_TEMPERATURE"
    case LowBattery => "LOW_BATTERY"
    case SafeModeEntered => "SAFE_MODE"
    case SequenceGapSeen => "SEQUENCE_GAP"
    case OtherCode(text) => text
  }

  function IdentityName(id: Identity): (s: string)
    ensures s !in IDENTITY_NAMES <==> id.OtherIdentity?
  {
    match id
    case Temperature => "temperature"
    case Battery => "battery"
    case SafeMode => "safe-mode"
    case SequenceGap => "sequence-gap"
    case OtherIdentity(name) => name
  }

  /** One text, one code; one name, one identity. */
  lemma TextsIdentify(c: AlarmCode, d: AlarmCode, i: Identity, j: Identity)
    ensures CodeText(c) == CodeText(d) ==> c == d
    ensures IdentityName(i) == IdentityName(j) ==> i == j
  {
    assert CodeText(c) == CodeText(d) ==> |CodeText(c)| == |CodeText(d)|;
    assert IdentityName(i) == IdentityName(j) ==> |IdentityName(i)| == |IdentityName(j)|;
  }

  datatype Observed = Quantity(amount: real) | Sequence(number: int) | Mode(mode: int)

  datatype AlarmTransition = AlarmTransition(
    severity: Severity,
    code: AlarmCode,
    identity: Identity,
    transition: TransitionType,
    observed: Observed,
    threshold: Option<real>)

  function TemperatureC(p: TelemetryPacket): real { p.temperatureCentiC as real / 100.0 }
  function BatteryV(p: TelemetryPacket): real { p.batteryMv as real / 1000.0 }

  datatype EngineState = EngineState(
    lastSequence: Option<int>, temperature: Option<Severity>, batteryActive: bool, safeModeActive: bool)

  const IDLE := EngineState(None, None, false, false)

  // ---------- one packet ----------

  function NextTemperature(policy: TemperaturePolicy, previous: Option<Severity>, c: real): Option<Severity> {
    var warningClear := policy.warningC - policy.hysteresisC;
    var criticalClear := policy.criticalC - policy.hysteresisC;
    match previous
    case None =>
      if c >= policy.criticalC then Some(Critical)
      else if c >= policy.warningC then Some(Warning)
      else None
    case Some(Warning) =>
      if c >= policy.criticalC then Some(Critical)
      else if c < warningClear then None
      else Some(Warning)
    case Some(Critical) =>
      if c >= criticalClear then Some(Critical)
      else if c >= warningClear then Some(Warning)
      else None
  }

  function NextBattery(policy: BatteryPolicy, previous: bool, v: real): bool {
    if !previous then v <= policy.criticalV else v <= policy.criticalV + policy.hysteresisV
  }

  function SequenceTransition(policy: AlarmPolicy, last: Option<int>, sequence: int): Option<AlarmTransition> {
    if !policy.detectGaps || last.None? || sequence == Expected(last.value) then None
    else Some(AlarmTransition(Warning, SequenceGapSeen, SequenceGap, Raised, Sequence(sequence),
      Some(Expected(last.value) as real)))
  }

  function TemperatureCode(severity: Severity): AlarmCode {
    if severity == Critical then HighTemperature else ElevatedTemperature
  }

  function TemperatureTransition(policy: TemperaturePolicy, previous: Option<Severity>, c: real)
    : Option<AlarmTransition>
  {
    var current := NextTemperature(policy, previous, c);
    match (previous, current)
    case (None, None) => None
    case (None, Some(s)) =>
      Some(AlarmTransition(s, TemperatureCode(s), Temperature, Raised, Quantity(c),
        Some(if s == Critical then policy.criticalC else policy.warningC)))
    case (Some(s), None) =>
      Some(AlarmTransition(s, TemperatureCode(s), Temperature, Cleared, Quantity(c),
        Some(policy.warningC - policy.hysteresisC)))
    case (Some(r), Some(s)) =>
      if r == s then None
      else Some(AlarmTransition(s, TemperatureCode(s), Temperature, Updated, Quantity(c),
        Some(if s == Critical then policy.criticalC else policy.criticalC - policy.hysteresisC)))
  }

  function BatteryTransition(policy: BatteryPolicy, previous: bool, v: real): Option<AlarmTransition> {
    var current := NextBattery(policy, previous, v);
    if current == previous then None
    else Some(AlarmTransition(Critical, LowBattery, Battery, if current then Raised else Cleared, Quantity(v),
      Some(if current then policy.criticalV else policy.criticalV + policy.hysteresisV)))
  }

  function ModeTransition(policy: AlarmPolicy, previous: bool, mode: int): Option<AlarmTransition> {
    var current := policy.alarmOnSafe && mode == SAFE;
    if current == previous then None
    else Some(AlarmTransition(
      Warning, SafeModeEntered, SafeMode, if current then Raised else Cleared, Mode(mode), None))
  }

  function ToSeq<T>(o: Option<T>): seq<T> { if o.Some? then [o.value] else [] }

  function NextState(policy: AlarmPolicy, s: EngineState, p: TelemetryPacket): EngineState {
    EngineState(
      Some(p.sequence),
      NextTemperature(policy.temperature, s.temperature, TemperatureC(p)),
      NextBattery(policy.battery, s.batteryActive, BatteryV(p)),
      policy.alarmOnSafe && p.mode == SAFE)
  }

  function Transitions(policy: AlarmPolicy, s: EngineState, p: TelemetryPacket): seq<AlarmTransition> {
    ToSeq(SequenceTransition(policy, s.lastSequence, p.sequence))
    + ToSeq(TemperatureTransition(policy.temperature, s.temperature, TemperatureC(p)))
    + ToSeq(BatteryTransition(policy.battery, s.batteryActive, BatteryV(p)))
    + ToSeq(ModeTransition(policy, s.safeModeActive, p.mode))
  }

  function ActiveIdentities(s: EngineState): seq<Identity> {
    (if s.temperature.Some? then [Temperature] else [])
    + (if s.batteryActive then [Battery] else [])
    + (if s.safeModeActive then [SafeMode] else [])
  }

  class AlarmEngine {
    const policy: AlarmPolicy
    var lastSequence: Option<int>
    var temperature: Option<Severity>
    var batteryActive: bool
    var safeModeActive: bool

    function State(): EngineState
      reads this
    {
      EngineState(lastSequence, temperature, batteryActive, safeModeActive)
    }

    constructor (policy: AlarmPolicy)
      requires policy.Valid()
      ensures this.policy == policy && State() == IDLE
    {
      this.policy := policy;
      lastSequence, temperature, batteryActive, safeModeActive := None, None, false, false;
    }

    method Reset()
      modifies this
      ensures State() == IDLE
    {
      lastSequence, temperature, batteryActive, safeModeActive := None, None, false, false;
    }

    method EvaluateSequence(p: TelemetryPacket) returns (t: Option<AlarmTransition>)
      modifies this`lastSequence
      ensures t == SequenceTransition(policy, old(lastSequence), p.sequence) && lastSequence == Some(p.sequence)
    {
      var expected := None;
      if lastSequence.Some? {
        expected := Some((lastSequence.value + 1) % 0x1_0000_0000);
      }
      lastSequence := Some(p.sequence);
      if !policy.detectGaps || expected.None? || p.sequence == expected.value {
        return None;
      }
      return Some(AlarmTransition(Warning, SequenceGapSeen, SequenceGap, Raised, Sequence(p.sequence),
        Some(expected.value as real)));
    }

    method EvaluateTemperature(p: TelemetryPacket) returns (t: Option<AlarmTransition>)
      modifies this`temperature
      ensures t == TemperatureTransition(policy.temperature, old(temperature), TemperatureC(p))
      ensures temperature == NextTemperature(policy.temperature, old(temperature), TemperatureC(p))
    {
      var previous := temperature;
      var current := NextTemperature(policy.temperature, temperature, TemperatureC(p));
      temperature := current;
      if current == previous {
        return None;
      }
      var observed := Quantity(TemperatureC(p));
      if previous.None? {
        var entry := if current.value == Critical then policy.temperature.criticalC else policy.temperature.warningC;
        return Some(AlarmTransition(
          current.value, TemperatureCode(current.value), Temperature, Raised, observed, Some(entry)));
      }
      if current.None? {
        return Some(AlarmTransition(previous.value, TemperatureCode(previous.value), Temperature, Cleared, observed,
          Some(policy.temperature.warningC - policy.temperature.hysteresisC)));
      }
      var threshold := if current.value == Critical then policy.temperature.criticalC
        else policy.temperature.criticalC - policy.temperature.hysteresisC;
      return Some(AlarmTransition(
        current.value, TemperatureCode(current.value), Temperature, Updated, observed, Some(threshold)));
    }

    method EvaluateBattery(p: TelemetryPacket) returns (t: Option<AlarmTransition>)
      modifies this`batteryActive
      ensures t == BatteryTransition(policy.battery, old(batteryActive), BatteryV(p))
      ensures batteryActive == NextBattery(policy.battery, old(batteryActive), BatteryV(p))
    {
      t := BatteryTransition(policy.battery, batteryActive, BatteryV(p));
      batteryActive := NextBattery(policy.battery, batteryActive, BatteryV(p));
    }

    method EvaluateMode(p: TelemetryPacket) returns (t: Option<AlarmTransition>)
      modifies this`safeModeActive
      ensures t == ModeTransition(policy, old(safeModeActive), p.mode)
      ensures safeModeActive == (policy.alarmOnSafe && p.mode == SAFE)
    {
      t := ModeTransition(policy, safeModeActive, p.mode);
      safeModeActive := policy.alarmOnSafe && p.mode == SAFE;
    }

    method Evaluate(p: TelemetryPacket) returns (transitions: seq<AlarmTransition>)
      modifies this
      ensures State() == NextState(policy, old(State()), p)
      ensures transitions == Transitions(policy, old(State()), p)
    {
      var sequence := EvaluateSequence(p);
      var heat := EvaluateTemperature(p);
      var charge := EvaluateBattery(p);
      var mode := EvaluateMode(p);
      transitions := ToSeq(sequence) + ToSeq(heat) + ToSeq(charge) + ToSeq(mode);
    }

    method Active() returns (active: seq<Identity>)
      ensures active == ActiveIdentities(State())
    {
      active := [];
      if temperature.Some? {
        active := active + [Temperature];
      }
      if batteryActive {
        active := active + [Battery];
      }
      if safeModeActive {
        active := active + [SafeMode];
      }
    }
  }

  // ---------- whole histories ----------

  function StateAfter(policy: AlarmPolicy, packets: seq<TelemetryPacket>): EngineState {
    if packets == [] then IDLE
    else NextState(policy, StateAfter(policy, packets[..|packets| - 1]), packets[|packets| - 1])
  }

  function AllTransitions(policy: AlarmPolicy, packets: seq<TelemetryPacket>): seq<AlarmTransition> {
    if packets == [] then []
    else
      var init := packets[..|packets| - 1];
      AllTransitions(policy, init) + Transitions(policy, StateAfter(policy, init), packets[|packets| - 1])
  }

  // ---------- threshold latches ----------

  /** Set at or above `set`; once set, stays until a sample falls strictly below `clear`. */
  datatype Latch = Latch(set_: real, clear: real)

  function Latched(l: Latch, previous: bool, x: real): bool {
    x >= l.set_ || (previous && x >= l.clear)
  }

  function LatchAfter(l: Latch, xs: seq<real>): bool {
    if xs == [] then false else Latched(l, LatchAfter(l, xs[..|xs| - 1]), xs[|xs| - 1])
  }

  /** Sample `k` reached the set level and none since fell below the clear level. */
  ghost predicate HoldsSince(l: Latch, xs: seq<real>, k: nat)
    requires k < |xs|
  {
    xs[k] >= l.set_ && forall j :: k <= j < |xs| ==> xs[j] >= l.clear
  }

  /** Closed form of a latch. */
  lemma {:induction false} LatchClosedForm(l: Latch, xs: seq<real>)
    requires l.clear <= l.set_
    ensures LatchAfter(l, xs) <==> exists k :: 0 <= k < |xs| && HoldsSince(l, xs, k)
  {
    if xs == [] {
    } else {
      var init, n := xs[..|xs| - 1], |xs| - 1;
      LatchClosedForm(l, init);
      if LatchAfter(l, xs) {
        if xs[n] >= l.set_ {
          assert HoldsSince(l, xs, n);
        } else {
          var k :| 0 <= k < n && HoldsSince(l, init, k);
          assert HoldsSince(l, xs, k) by {
            forall j | k <= j < |xs|
              ensures xs[j] >= l.clear
            {
              if j < n { assert init[j] == xs[j]; }
            }
          }
        }
      }
      if exists k :: 0 <= k < |xs| && HoldsSince(l, xs, k) {
        var k :| 0 <= k < |xs| && HoldsSince(l, xs, k);
        if k < n {
          assert HoldsSince(l, init, k);
        }
      }
    }
  }

  function Temperatures(packets: seq<TelemetryPacket>): (r: seq<real>)
    ensures |r| == |packets|
    ensures forall k :: 0 <= k < |r| ==> r[k] == TemperatureC(packets[k])
  {
    seq(|packets|, k requires 0 <= k < |packets| => TemperatureC(packets[k]))
  }

  /** Battery voltages negated, so that a low battery is a high sample. */
  function BatteryDeficits(packets: seq<TelemetryPacket>): (r: seq<real>)
    ensures |r| == |packets|
    ensures forall k :: 0 <= k < |r| ==> r[k] == -BatteryV(packets[k])
  {
    seq(|packets|, k requires 0 <= k < |packets| => -BatteryV(packets[k]))
  }

  function WarningLatch(p: TemperaturePolicy): Latch { Latch(p.warningC, p.warningC - p.hysteresisC) }
  function CriticalLatch(p: TemperaturePolicy): Latch { Latch(p.criticalC, p.criticalC - p.hysteresisC) }
  function BatteryLatch(p: BatteryPolicy): Latch { Latch(-p.criticalV, -(p.criticalV + p.hysteresisV)) }

  function SeverityOf(warning: bool, critical: bool): Option<Severity> {
    if critical then Some(Critical) else if warning then Some(Warning) else None
  }

  /** One step of the three-level machine is one step of two independent latches. */
  lemma LevelStep(p: TemperaturePolicy, warning: bool, critical: bool, c: real)
    requires p.Valid() && (critical ==> warning)
    ensures var w, k := Latched(WarningLatch(p), warning, c), Latched(CriticalLatch(p), critical, c);
      NextTemperature(p, SeverityOf(warning, critical), c) == SeverityOf(w, k) && (k ==> w)
  {
  }

  /**
   * Hysteresis decomposition: after any history the three-level severity is two independent latches,
   * the critical one implying the warning one, and the battery alarm is a third.
   */
  lemma {:induction false} HysteresisDecomposition(policy: AlarmPolicy, packets: seq<TelemetryPacket>)
    requires policy.Valid()
    ensures var s := StateAfter(policy, packets);
      var w := LatchAfter(WarningLatch(policy.temperature), Temperatures(packets));
      var k := LatchAfter(CriticalLatch(policy.temperature), Temperatures(packets));
      && s.temperature == SeverityOf(w, k)
      && (k ==> w)
      && s.batteryActive == LatchAfter(BatteryLatch(policy.battery), BatteryDeficits(packets))
  {
    if packets == [] {
    } else {
      var init, last := packets[..|packets| - 1], packets[|packets| - 1];
      HysteresisDecomposition(policy, init);
      assert Temperatures(packets)[..|init|] == Temperatures(init);
      assert BatteryDeficits(packets)[..|init|] == BatteryDeficits(init);
      LevelStep(policy.temperature,
        LatchAfter(WarningLatch(policy.temperature), Temperatures(init)),
        LatchAfter(CriticalLatch(policy.temperature), Temperatures(init)),
        TemperatureC(last));
    }
  }

  /** The decomposition with every latch in closed form. */
  lemma AlarmsInClosedForm(policy: AlarmPolicy, packets: seq<TelemetryPacket>)
    requires policy.Valid()
    ensures var s := StateAfter(policy, packets); var ts := Temperatures(packets); var t := policy.temperature;
      && (s.temperature.Some? <==> exists k :: 0 <= k < |ts| && HoldsSince(WarningLatch(t), ts, k))
      && (s.temperature == Some(Critical) <==> exists k :: 0 <= k < |ts| && HoldsSince(CriticalLatch(t), ts, k))
    ensures var vs := BatteryDeficits(packets);
      StateAfter(policy, packets).batteryActive <==>
      exists k :: 0 <= k < |vs| && HoldsSince(BatteryLatch(policy.battery), vs, k)
  {
    HysteresisDecomposition(policy, packets);
    LatchClosedForm(WarningLatch(policy.temperature), Temperatures(packets));
    LatchClosedForm(CriticalLatch(policy.temperature), Temperatures(packets));
    LatchClosedForm(BatteryLatch(policy.battery), BatteryDeficits(packets));
  }

  // ---------- chatter ----------

  function Abs(x: real): real { if x >= 0.0 then x else -x }

  function TotalVariation(xs: seq<real>): (v: real)
    ensures v >= 0.0
  {
    if |xs| < 2 then 0.0
    else TotalVariation(xs[..|xs| - 1]) + Abs(xs[|xs| - 1] - xs[|xs| - 2])
  }

  /** How often a latch changes over a history. */
  function Flips(l: Latch, xs: seq<real>): nat {
    if xs == [] then 0
    else
      var init := xs[..|xs| - 1];
      Flips(l, init) + (if LatchAfter(l, xs) != LatchAfter(l, init) then 1 else 0)
  }

  function Times(n: int, h: real): real { n as real * h }

  function Clamp(l: Latch, x: real): real
    requires l.clear <= l.set_
  {
    if x < l.clear then l.clear else if x > l.set_ then l.set_ else x
  }

  /** How far the signal travels inside the band between a latch's two levels. */
  function BandVariation(l: Latch, xs: seq<real>): (v: real)
    requires l.clear <= l.set_
    ensures v >= 0.0
  {
    if |xs| < 2 then 0.0
    else
      BandVariation(l, xs[..|xs| - 1]) + Abs(Clamp(l, xs[|xs| - 1]) - Clamp(l, xs[|xs| - 2]))
  }

  lemma ZeroPaid(h: real)
    ensures Times(0, h) == 0.0
  {
  }

  lemma OneMoreStep(n: nat, h: real)
    ensures Times(n, h) == Times(n - 1, h) + h
  {
  }

  /** The cost of moving from `y` to `x` covers one more hysteresis if the latch changes. */
  lemma StepCost(l: Latch, paid: real, v: real, y: real, x: real, active: bool)
    requires l.clear <= l.set_ && v >= paid
    requires if active then v >= paid + (l.set_ - Clamp(l, y)) else v >= paid + (Clamp(l, y) - l.clear)
    ensures var now := Latched(l, active, x); var v' := v + Abs(Clamp(l, x) - Clamp(l, y));
      var paid' := if now != active then paid + (l.set_ - l.clear) else paid;
      v' >= paid' && if now then v' >= paid' + (l.set_ - Clamp(l, x)) else v' >= paid' + (Clamp(l, x) - l.clear)
  {
  }

  /** The bound with what has been travelled inside the band since the last change. */
  lemma {:induction false} FlipsCostVariation(l: Latch, xs: seq<real>)
    requires l.clear <= l.set_
    ensures Flips(l, xs) == 0 ==> !LatchAfter(l, xs)
    ensures Flips(l, xs) > 0 ==>
      var paid := Times(Flips(l, xs) - 1, l.set_ - l.clear); var x := Clamp(l, xs[|xs| - 1]);
      && BandVariation(l, xs) >= paid
      && (LatchAfter(l, xs) ==> BandVariation(l, xs) >= paid + (l.set_ - x))
      && (!LatchAfter(l, xs) ==> BandVariation(l, xs) >= paid + (x - l.clear))
  {
    if xs == [] {
    } else {
      var init, x := xs[..|xs| - 1], xs[|xs| - 1];
      FlipsCostVariation(l, init);
      if init != [] && Flips(l, init) > 0 {
        var n := Flips(l, init);
        assert init[|init| - 1] == xs[|xs| - 2];
        var paid := Times(n - 1, l.set_ - l.clear);
        OneMoreStep(n, l.set_ - l.clear);
        StepCost(l, paid, BandVariation(l, init), xs[|xs| - 2], x, LatchAfter(l, init));
      } else if Flips(l, xs) > 0 {
        ZeroPaid(l.set_ - l.clear);
      }
    }
  }

  lemma StepsShare(low: Latch, high: Latch, y: real, x: real)
    requires low.clear <= low.set_ <= high.clear <= high.set_
    ensures Abs(Clamp(low, x) - Clamp(low, y)) + Abs(Clamp(high, x) - Clamp(high, y)) <= Abs(x - y)
  {
  }

  /** A signal travels at least as far as it travels inside two bands that do not overlap. */
  lemma {:induction false} BandsShareVariation(low: Latch, high: Latch, xs: seq<real>)
    requires low.clear <= low.set_ <= high.clear <= high.set_
    ensures BandVariation(low, xs) + BandVariation(high, xs) <= TotalVariation(xs)
  {
    if |xs| < 2 {
    } else {
      BandsShareVariation(low, high, xs[..|xs| - 1]);
      StepsShare(low, high, xs[|xs| - 2], xs[|xs| - 1]);
    }
  }

  lemma {:induction false} EmptyBand(l: Latch, xs: seq<real>)
    requires l.clear <= l.set_
    ensures BandVariation(Latch(l.set_, l.set_), xs) == 0.0
  {
    if |xs| < 2 {
    } else {
      EmptyBand(l, xs[..|xs| - 1]);
    }
  }

  /**
   * Chatter bound: every change after the first costs the signal at least the hysteresis, for the
   * battery alarm and for each temperature latch.
   */
  lemma ChatterBound(l: Latch, xs: seq<real>)
    requires l.clear <= l.set_
    ensures Times(Flips(l, xs) - 1, l.set_ - l.clear) <= BandVariation(l, xs) <= TotalVariation(xs)
  {
    FlipsCostVariation(l, xs);
    EmptyBand(l, xs);
    BandsShareVariation(l, Latch(l.set_, l.set_), xs);
  }

  /** Two latches with disjoint bands share one budget: their changes are paid for by the same signal once. */
  lemma DisjointLatchesBound(low: Latch, high: Latch, xs: seq<real>)
    requires low.clear <= low.set_ <= high.clear <= high.set_
    ensures Times(Flips(low, xs) - 1, low.set_ - low.clear) + Times(Flips(high, xs) - 1, high.set_ - high.clear)
      <= TotalVariation(xs)
  {
    ChatterBound(low, xs);
    ChatterBound(high, xs);
    BandsShareVariation(low, high, xs);
  }

  function CountIdentity(ts: seq<AlarmTransition>, id: Identity): nat {
    if ts == [] then 0
    else CountIdentity(ts[..|ts| - 1], id) + (if ts[|ts| - 1].identity == id then 1 else 0)
  }

  lemma {:induction false} CountConcat(xs: seq<AlarmTransition>, ys: seq<AlarmTransition>, id: Identity)
    ensures CountIdentity(xs + ys, id) == CountIdentity(xs, id) + CountIdentity(ys, id)
  {
    if ys == [] {
      assert xs + ys == xs;
    } else {
      assert (xs + ys)[..|xs + ys| - 1] == xs + ys[..|ys| - 1];
      CountConcat(xs, ys[..|ys| - 1], id);
    }
  }

  lemma CountOption(o: Option<AlarmTransition>, id: Identity)
    ensures CountIdentity(ToSeq(o), id) == if o.Some? && o.value.identity == id then 1 else 0
  {
    if o.Some? { assert ToSeq(o)[..0] == []; }
  }

  function Matches(o: Option<AlarmTransition>, id: Identity): nat {
    if o.Some? && o.value.identity == id then 1 else 0
  }

  lemma CountFour(
    a: Option<AlarmTransition>, b: Option<AlarmTransition>, c: Option<AlarmTransition>, d: Option<AlarmTransition>,
    id: Identity)
    ensures CountIdentity(ToSeq(a) + ToSeq(b) + ToSeq(c) + ToSeq(d), id) ==
      Matches(a, id) + Matches(b, id) + Matches(c, id) + Matches(d, id)
  {
    CountConcat(ToSeq(a) + ToSeq(b) + ToSeq(c), ToSeq(d), id);
    CountConcat(ToSeq(a) + ToSeq(b), ToSeq(c), id);
    CountConcat(ToSeq(a), ToSeq(b), id);
    CountOption(a, id);
    CountOption(b, id);
    CountOption(c, id);
    CountOption(d, id);
  }

  /** Each of the four possible transitions belongs to its own identity. */
  ghost predicate Belong(
    a: Option<AlarmTransition>, b: Option<AlarmTransition>, c: Option<AlarmTransition>, d: Option<AlarmTransition>)
  {
    && (a.Some? ==> a.value.identity == SequenceGap)
    && (b.Some? ==> b.value.identity == Temperature)
    && (c.Some? ==> c.value.identity == Battery)
    && (d.Some? ==> d.value.identity == SafeMode)
  }

  /** The lifecycle automaton: RAISED opens, UPDATED needs open, CLEARED closes; None is a violation. */
  function Lifecycle(active: Option<bool>, t: TransitionType): Option<bool> {
    match active
    case None => None
    case Some(open) =>
      match t
      case Raised => if open then None else Some(true)
      case Updated => if open then Some(true) else None
      case Cleared => if open then Some(false) else None
  }

  /** The stateful transitions occur exactly on a change of state, and take the lifecycle along. */
  ghost predicate Follow(
    s: EngineState, n: EngineState, b: Option<AlarmTransition>, c: Option<AlarmTransition>, d: Option<AlarmTransition>)
  {
    && (b.Some? <==> n.temperature != s.temperature)
    && (c.Some? <==> n.batteryActive != s.batteryActive)
    && (d.Some? <==> n.safeModeActive != s.safeModeActive)
    && (b.Some? ==> Lifecycle(Some(s.temperature.Some?), b.value.transition) == Some(n.temperature.Some?))
    && (c.Some? ==> Lifecycle(Some(s.batteryActive), c.value.transition) == Some(n.batteryActive))
    && (d.Some? ==> Lifecycle(Some(s.safeModeActive), d.value.transition) == Some(n.safeModeActive))
  }

  /** The four possible transitions of one packet: when each occurs and what it belongs to. */
  lemma FourTransitions(policy: AlarmPolicy, s: EngineState, p: TelemetryPacket)
    returns (a: Option<AlarmTransition>, b: Option<AlarmTransition>, c: Option<AlarmTransition>,
             d: Option<AlarmTransition>)
    ensures Transitions(policy, s, p) == ToSeq(a) + ToSeq(b) + ToSeq(c) + ToSeq(d)
    ensures a == SequenceTransition(policy, s.lastSequence, p.sequence)
    ensures Belong(a, b, c, d) && Follow(s, NextState(policy, s, p), b, c, d)
  {
    a := SequenceTransition(policy, s.lastSequence, p.sequence);
    b := TemperatureTransition(policy.temperature, s.temperature, TemperatureC(p));
    c := BatteryTransition(policy.battery, s.batteryActive, BatteryV(p));
    d := ModeTransition(policy, s.safeModeActive, p.mode);
  }

  /** How many transitions of each kind one packet causes. */
  lemma PacketCounts(policy: AlarmPolicy, s: EngineState, p: TelemetryPacket)
    ensures var ts := Transitions(policy, s, p); var n := NextState(policy, s, p);
      && CountIdentity(ts, Temperature) == (if n.temperature != s.temperature then 1 else 0)
      && CountIdentity(ts, Battery) == (if n.batteryActive != s.batteryActive then 1 else 0)
      && CountIdentity(ts, SafeMode) == (if n.safeModeActive != s.safeModeActive then 1 else 0)
      && CountIdentity(ts, SequenceGap) ==
           (if SequenceTransition(policy, s.lastSequence, p.sequence).Some? then 1 else 0)
  {
    hide CountIdentity, SequenceTransition, ToSeq;
    var a, b, c, d := FourTransitions(policy, s, p);
    CountFour(a, b, c, d, Temperature);
    CountFour(a, b, c, d, Battery);
    CountFour(a, b, c, d, SafeMode);
    CountFour(a, b, c, d, SequenceGap);
  }

  /** Battery transitions are the changes of its latch; temperature ones are at most those of two. */
  lemma {:induction false} TransitionsAreFlips(policy: AlarmPolicy, packets: seq<TelemetryPacket>)
    requires policy.Valid()
    ensures var ts := AllTransitions(policy, packets); var t := policy.temperature;
      && CountIdentity(ts, Battery) == Flips(BatteryLatch(policy.battery), BatteryDeficits(packets))
      && CountIdentity(ts, Temperature) <=
           Flips(WarningLatch(t), Temperatures(packets)) + Flips(CriticalLatch(t), Temperatures(packets))
  {
    hide Transitions, NextState, TotalVariation, LatchAfter, SeverityOf, NextTemperature, NextBattery;
    if packets == [] {
    } else {
      var init, last := packets[..|packets| - 1], packets[|packets| - 1];
      var s := StateAfter(policy, init);
      TransitionsAreFlips(policy, init);
      HysteresisDecomposition(policy, init);
      HysteresisDecomposition(policy, packets);
      assert Temperatures(packets)[..|init|] == Temperatures(init);
      assert BatteryDeficits(packets)[..|init|] == BatteryDeficits(init);
      PacketCounts(policy, s, last);
      CountConcat(AllTransitions(policy, init), Transitions(policy, s, last), Battery);
      CountConcat(AllTransitions(policy, init), Transitions(policy, s, last), Temperature);
    }
  }

  lemma BatteryBounded(p: BatteryPolicy, xs: seq<real>)
    requires p.Valid()
    ensures Times(Flips(BatteryLatch(p), xs) - 1, p.hysteresisV) <= TotalVariation(xs)
  {
    var l := BatteryLatch(p);
    ChatterBound(l, xs);
    assert l.set_ - l.clear == p.hysteresisV;
  }

  lemma TimesAdd(m: int, n: int, h: real)
    ensures Times(m + n, h) == Times(m, h) + Times(n, h)
  {
  }

  /** The bands of a valid policy are disjoint, so both latches together cost no more than one signal. */
  lemma TemperatureBounded(p: TemperaturePolicy, xs: seq<real>)
    requires p.Valid()
    ensures Times(Flips(WarningLatch(p), xs) + Flips(CriticalLatch(p), xs) - 2, p.hysteresisC) <= TotalVariation(xs)
  {
    hide Times, Flips, TotalVariation;
    var w, k := WarningLatch(p), CriticalLatch(p);
    DisjointLatchesBound(w, k, xs);
    assert w.set_ - w.clear == p.hysteresisC == k.set_ - k.clear;
    TimesAdd(Flips(w, xs) - 1, Flips(k, xs) - 1, p.hysteresisC);
  }

  lemma FewerCostLess(m: int, n: int, h: real)
    requires m <= n && 0.0 <= h
    ensures Times(m, h) <= Times(n, h)
  {
  }

  /** The chatter bound on emitted transitions. */
  lemma TransitionsAreBounded(policy: AlarmPolicy, packets: seq<TelemetryPacket>)
    requires policy.Valid()
    ensures var ts := AllTransitions(policy, packets);
      && Times(CountIdentity(ts, Battery) - 1, policy.battery.hysteresisV)
           <= TotalVariation(BatteryDeficits(packets))
      && Times(CountIdentity(ts, Temperature) - 2, policy.temperature.hysteresisC)
           <= TotalVariation(Temperatures(packets))
  {
    hide AllTransitions, Times, Flips, TotalVariation, CountIdentity, Temperatures, BatteryDeficits;
    TransitionsAreFlips(policy, packets);
    BatteryBounded(policy.battery, BatteryDeficits(packets));
    TemperatureBounded(policy.temperature, Temperatures(packets));
    FewerCostLess(CountIdentity(AllTransitions(policy, packets), Temperature) - 2,
      Flips(WarningLatch(policy.temperature), Temperatures(packets))
      + Flips(CriticalLatch(policy.temperature), Temperatures(packets)) - 2, policy.temperature.hysteresisC);
  }

  // ---------- lifecycle ----------

  /** Which stateful identities a state has active. */
  predicate IsActive(s: EngineState, id: Identity) {
    match id
    case Temperature => s.temperature.Some?
    case Battery => s.batteryActive
    case SafeMode => s.safeModeActive
    case SequenceGap => false
    case OtherIdentity(_) => false
  }

  function LifecycleOf(ts: seq<AlarmTransition>, id: Identity): Option<bool> {
    if ts == [] then Some(false)
    else
      var before := LifecycleOf(ts[..|ts| - 1], id);
      if ts[|ts| - 1].identity == id then Lifecycle(before, ts[|ts| - 1].transition) else before
  }

  function Advanced(active: Option<bool>, o: Option<AlarmTransition>, id: Identity): Option<bool> {
    if o.Some? && o.value.identity == id then Lifecycle(active, o.value.transition) else active
  }

  lemma LifecycleOption(xs: seq<AlarmTransition>, o: Option<AlarmTransition>, id: Identity)
    ensures LifecycleOf(xs + ToSeq(o), id) == Advanced(LifecycleOf(xs, id), o, id)
  {
    if o.Some? {
      assert (xs + ToSeq(o))[..|xs|] == xs;
    } else {
      assert xs + ToSeq(o) == xs;
    }
  }

  lemma LifecycleFour(
    xs: seq<AlarmTransition>, a: Option<AlarmTransition>, b: Option<AlarmTransition>, c: Option<AlarmTransition>,
    d: Option<AlarmTransition>, id: Identity)
    ensures LifecycleOf(xs + ToSeq(a) + ToSeq(b) + ToSeq(c) + ToSeq(d), id) ==
      Advanced(Advanced(Advanced(Advanced(LifecycleOf(xs, id), a, id), b, id), c, id), d, id)
  {
    LifecycleOption(xs, a, id);
    LifecycleOption(xs + ToSeq(a), b, id);
    LifecycleOption(xs + ToSeq(a) + ToSeq(b), c, id);
    LifecycleOption(xs + ToSeq(a) + ToSeq(b) + ToSeq(c), d, id);
  }

  lemma LifecycleJoined(
    xs: seq<AlarmTransition>, ts: seq<AlarmTransition>, a: Option<AlarmTransition>, b: Option<AlarmTransition>,
    c: Option<AlarmTransition>, d: Option<AlarmTransition>, id: Identity)
    requires ts == ToSeq(a) + ToSeq(b) + ToSeq(c) + ToSeq(d)
    ensures LifecycleOf(xs + ts, id) ==
      Advanced(Advanced(Advanced(Advanced(LifecycleOf(xs, id), a, id), b, id), c, id), d, id)
  {
    assert xs + ts == xs + ToSeq(a) + ToSeq(b) + ToSeq(c) + ToSeq(d);
    LifecycleFour(xs, a, b, c, d, id);
  }

  lemma AdvanceFour(
    s: EngineState, n: EngineState, a: Option<AlarmTransition>, b: Option<AlarmTransition>,
    c: Option<AlarmTransition>, d: Option<AlarmTransition>, id: Identity)
    requires id != SequenceGap && Belong(a, b, c, d) && Follow(s, n, b, c, d)
    ensures Advanced(Advanced(Advanced(Advanced(Some(IsActive(s, id)), a, id), b, id), c, id), d, id)
      == Some(IsActive(n, id))
  {
  }

  lemma LifecycleStep(
    policy: AlarmPolicy, xs: seq<AlarmTransition>, s: EngineState, p: TelemetryPacket, id: Identity)
    requires id != SequenceGap && LifecycleOf(xs, id) == Some(IsActive(s, id))
    ensures LifecycleOf(xs + Transitions(policy, s, p), id) == Some(IsActive(NextState(policy, s, p), id))
  {
    var a, b, c, d := FourTransitions(policy, s, p);
    var n := NextState(policy, s, p);
    LifecycleJoined(xs, Transitions(policy, s, p), a, b, c, d, id);
    AdvanceFour(s, n, a, b, c, d, id);
  }

  /**
   * Lifecycle grammar: for each stateful identity the transitions over any packet stream are a
   * prefix of (RAISED UPDATED* CLEARED)*, and folding them gives the identity's activity.
   */
  lemma {:induction false} LifecycleGrammar(policy: AlarmPolicy, packets: seq<TelemetryPacket>, id: Identity)
    requires id != SequenceGap
    ensures LifecycleOf(AllTransitions(policy, packets), id) == Some(IsActive(StateAfter(policy, packets), id))
  {
    if packets == [] {
    } else {
      var init, p := packets[..|packets| - 1], packets[|packets| - 1];
      LifecycleGrammar(policy, init, id);
      LifecycleStep(policy, AllTransitions(policy, init), StateAfter(policy, init), p, id);
    }
  }

  /** Folding an identity's transitions tells whether the engine reports it as active. */
  lemma FoldGivesActiveIdentities(policy: AlarmPolicy, packets: seq<TelemetryPacket>, id: Identity)
    requires id != SequenceGap
    ensures LifecycleOf(AllTransitions(policy, packets), id) ==
      Some(id in ActiveIdentities(StateAfter(policy, packets)))
  {
    hide LifecycleOf, AllTransitions, StateAfter, Transitions;
    LifecycleGrammar(policy, packets, id);
  }

  function Rank(id: Identity): nat {
    match id
    case SequenceGap => 0
    case Temperature => 1
    case Battery => 2
    case SafeMode => 3
    case OtherIdentity(_) => 4
  }

  ghost predicate Single(ts: seq<AlarmTransition>, rank: nat) {
    |ts| <= 1 && forall k :: 0 <= k < |ts| ==> Rank(ts[k].identity) == rank
  }

  lemma SingleOf(o: Option<AlarmTransition>, id: Identity)
    requires o.Some? ==> o.value.identity == id
    ensures Single(ToSeq(o), Rank(id))
  {
  }

  /** Ranks increase and stay below `top`. */
  ghost predicate RanksBelow(ts: seq<AlarmTransition>, top: nat) {
    && (forall i :: 0 <= i < |ts| ==> Rank(ts[i].identity) < top)
    && (forall i, j :: 0 <= i < j < |ts| ==> Rank(ts[i].identity) < Rank(ts[j].identity))
  }

  lemma RanksJoin(xs: seq<AlarmTransition>, ys: seq<AlarmTransition>, rank: nat)
    requires RanksBelow(xs, rank) && Single(ys, rank)
    ensures RanksBelow(xs + ys, rank + 1)
  {
  }

  lemma RanksOfFour(
    a: seq<AlarmTransition>, b: seq<AlarmTransition>, c: seq<AlarmTransition>, d: seq<AlarmTransition>)
    requires Single(a, 0) && Single(b, 1) && Single(c, 2) && Single(d, 3)
    ensures RanksBelow(a + b + c + d, 4)
  {
    RanksJoin(a, b, 1);
    RanksJoin(a + b, c, 2);
    RanksJoin(a + b + c, d, 3);
  }

  /** One packet emits at most one transition per identity, in fixed order. */
  lemma OnePerIdentityInOrder(policy: AlarmPolicy, s: EngineState, p: TelemetryPacket)
    ensures var ts := Transitions(policy, s, p);
      forall i, j :: 0 <= i < j < |ts| ==> Rank(ts[i].identity) < Rank(ts[j].identity)
  {
    var a, b, c, d := FourTransitions(policy, s, p);
    SingleOf(a, SequenceGap);
    SingleOf(b, Temperature);
    SingleOf(c, Battery);
    SingleOf(d, SafeMode);
    RanksOfFour(ToSeq(a), ToSeq(b), ToSeq(c), ToSeq(d));
  }

  // ---------- what a transition says ----------

  /** The observed value lies on the side of the threshold that the transition claims. */
  predicate Crosses(t: AlarmTransition) {
    match (t.identity, t.observed, t.threshold)
    case (Temperature, Quantity(c), Some(limit)) =>
      if t.transition == Raised || (t.transition == Updated && t.severity == Critical) then c >= limit else c < limit
    case (Battery, Quantity(v), Some(limit)) =>
      if t.transition == Raised then v <= limit else v > limit
    case (SequenceGap, Sequence(n), Some(expected)) => t.transition == Raised && n as real != expected
    case (SafeMode, Mode(m), None) => t.transition == Cleared || m == SAFE
    case _ => false
  }

  lemma SequenceCrosses(policy: AlarmPolicy, last: Option<int>, sequence: int)
    ensures var t := SequenceTransition(policy, last, sequence); t.Some? ==> Crosses(t.value)
  {
  }

  lemma TemperatureCrosses(policy: TemperaturePolicy, previous: Option<Severity>, c: real)
    ensures var t := TemperatureTransition(policy, previous, c); t.Some? ==> Crosses(t.value)
  {
  }

  lemma BatteryCrosses(policy: BatteryPolicy, previous: bool, v: real)
    ensures var t := BatteryTransition(policy, previous, v); t.Some? ==> Crosses(t.value)
  {
  }

  lemma ModeCrosses(policy: AlarmPolicy, previous: bool, mode: int)
    ensures var t := ModeTransition(policy, previous, mode); t.Some? ==> Crosses(t.value)
  {
  }

  /** Every emitted transition names a threshold that its observed value has crossed. */
  lemma TransitionsCross(policy: AlarmPolicy, s: EngineState, p: TelemetryPacket)
    requires policy.Valid()
    ensures forall t :: t in Transitions(policy, s, p) ==> Crosses(t)
  {
    hide Crosses, SequenceTransition, TemperatureTransition, BatteryTransition, ModeTransition;
    SequenceCrosses(policy, s.lastSequence, p.sequence);
    TemperatureCrosses(policy.temperature, s.temperature, TemperatureC(p));
    BatteryCrosses(policy.battery, s.batteryActive, BatteryV(p));
    ModeCrosses(policy, s.safeModeActive, p.mode);
  }
}
