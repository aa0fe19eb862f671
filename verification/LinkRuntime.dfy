/** The emulator's runtime object: its loop against a clock, an input and an output. */
module LinkRuntime {
  import opened Wrappers
  import opened Impairments
  import opened Schedule
  import opened Scheduler
  import opened LinkEvents
  import opened LinkRun
  import LinkEvidence
  import LinkOrder

  /**
   * What the surroundings do in pass `n` of the loop: whether a stop has been requested, the clock
   * reading at the head, the datagram that arrives before the receive timeout (if any), and the
   * second clock reading of the pass.
   */
  datatype World = World(
    stopped: nat -> bool,
    now: nat -> int,
    received: nat -> Option<Bytes>,
    second: nat -> int)

  /** The clock never goes backwards. */
  ghost predicate Monotone(w: World, startNs: int) {
    && startNs <= w.now(0)
    && (forall n: nat :: w.now(n) <= w.second(n) <= w.now(n + 1))
  }

  lemma {:induction false} NowMonotone(w: World, startNs: int, m: nat, n: nat)
    requires Monotone(w, startNs) && m <= n
    ensures w.now(m) <= w.now(n)
    decreases n - m
  {
    if m == n {
    } else {
      NowMonotone(w, startNs, m, n - 1);
      assert w.now(n - 1) <= w.second(n - 1) <= w.now(n);
    }
  }

  /** Datagrams that arrive in the first `n` passes. */
  ghost function ArrivedBy(w: World, n: nat): nat {
    if n == 0 then 0 else ArrivedBy(w, n - 1) + (if w.received(n - 1).Some? then 1 else 0)
  }

  /** By pass `horizon` a stop has been requested or the packet limit has been reached. */
  ghost predicate Resolves(w: World, limit: Option<int>, horizon: nat) {
    w.stopped(horizon) || (limit.Some? && ArrivedBy(w, horizon) >= limit.value)
  }

  /** The turn that a receiving pass amounts to. */
  function TurnOf(nowNs: int, received: Option<Bytes>, secondNs: int): Turn {
    Turn(nowNs, match received case None => None case Some(raw) => Some(Arrival(raw, secondNs)))
  }

  datatype Exit = Stopped | Drained

  /** What reception does to each part of the state. */
  lemma ReceiveShape(setup: Setup, s: LinkState, a: Arrival, outcome: PacketOutcome)
    requires setup.Valid() && Conserved(setup.config, s)
    requires outcome == OutcomeAt(setup.config, |s.arrivals|, a.payload)
    requires outcome.dropped || outcome.deliveries != []
    ensures var r := Receive(setup, s, a);
      && Conserved(setup.config, r)
      && |r.arrivals| == |s.arrivals| + 1
      && multiset(r.agenda) == multiset(s.agenda) + multiset(Scheduled(outcome, a.receivedAtNs))
      && r.releasing == (s.releasing || LimitReached(setup, |s.arrivals| + 1))
      && r.log == OutcomeLog(setup, s.log, a.payload, outcome, a.receivedAtNs)
      && r.highestForwarded == s.highestForwarded && r.reordered == s.reordered && r.forwarded == s.forwarded
  {
    ReceiveConserves(setup, s, a);
    InsertAllProperties(s.agenda, Scheduled(outcome, a.receivedAtNs));
  }

  lemma TurnAppended(setup: Setup, turns: seq<Turn>, turn: Turn)
    requires setup.Valid() && Clocked(setup, turns)
    requires LastReading(setup, turns) <= turn.nowNs <= TurnEnd(turn)
    ensures Clocked(setup, turns + [turn]) && LastReading(setup, turns + [turn]) == TurnEnd(turn)
    ensures LinkRun.Run(setup, turns + [turn]) == Step(setup, LinkRun.Run(setup, turns), turn)
  {
    assert (turns + [turn])[..|turns|] == turns;
  }

  /** What keeps the loop finite: receiving stays within `horizon`, draining within `bound`. */
  ghost predicate Progress(setup: Setup, s: LinkState, w: World, n: nat, horizon: nat, bound: nat) {
    && (s.releasing <==> LimitReached(setup, |s.arrivals|))
    && (!s.releasing ==> n <= horizon && |s.arrivals| == ArrivedBy(w, n))
    && (s.releasing ==> forall x :: x in s.agenda ==> x.dueAtNs <= w.now(bound))
  }

  /** A drain pass that leaves something pending was made before every due time had passed. */
  lemma DrainProgress(setup: Setup, before: LinkState, w: World, n: nat, horizon: nat, bound: nat)
    requires Monotone(w, setup.startNs)
    requires before.releasing && Progress(setup, before, w, n, horizon, bound)
    requires LinkRun.SendReady(setup, before, w.now(n)).agenda != []
    ensures n < bound
    ensures Progress(setup, LinkRun.SendReady(setup, before, w.now(n)), w, n + 1, horizon, bound)
  {
    SendReadyCore(setup, before, w.now(n));
    ReadyHeldMembers(before.agenda, GateAt(before, w.now(n)));
    if bound <= n {
      NowMonotone(w, setup.startNs, bound, n);
      LinkOrder.DueReleasedDrains(setup, before, w.now(n));
    }
  }

  lemma StepCounts(setup: Setup, before: LinkState, turn: Turn)
    requires setup.Valid() && !before.releasing
    ensures var after := Step(setup, before, turn);
      && |after.arrivals| == |before.arrivals| + (if turn.arrival.Some? then 1 else 0)
      && (after.releasing <==> turn.arrival.Some? && LimitReached(setup, |after.arrivals|))
  {
    SendReadyCore(setup, before, turn.nowNs);
  }

  /** A pass by which the clock has reached every due time. */
  lemma DrainBound(w: World, agenda: seq<ScheduledDatagram>, reach: int -> nat)
    returns (bound: nat)
    requires forall t :: w.now(reach(t)) >= t
    ensures forall x :: x in agenda ==> x.dueAtNs <= w.now(bound)
  {
    var latest := 0;
    for i := 0 to |agenda|
      invariant forall k :: 0 <= k < i ==> agenda[k].dueAtNs <= latest
    {
      latest := Max(latest, agenda[i].dueAtNs);
    }
    bound := reach(latest);
    assert w.now(bound) >= latest;
  }

  /** A receiving pass made before `horizon`, and the bound on draining once it starts. */
  lemma ReceiveProgress(setup: Setup, before: LinkState, w: World, n: nat, horizon: nat, reach: int -> nat)
    returns (bound: nat)
    requires setup.Valid() && Resolves(w, setup.maxPackets, horizon)
    requires !before.releasing && !w.stopped(n) && n <= horizon && |before.arrivals| == ArrivedBy(w, n)
    requires !LimitReached(setup, |before.arrivals|)
    requires forall t :: w.now(reach(t)) >= t
    ensures n < horizon
    ensures Progress(setup, Step(setup, before, TurnOf(w.now(n), w.received(n), w.second(n))), w, n + 1, horizon, bound)
  {
    var turn := TurnOf(w.now(n), w.received(n), w.second(n));
    StepCounts(setup, before, turn);
    bound := DrainBound(w, Step(setup, before, turn).agenda, reach);
  }

  // ---------- which run the surroundings determine ----------

  /** What pass `n` amounts to from state `s`: a draining pass takes nothing in. */
  function PassTurn(w: World, s: LinkState, n: nat): Turn {
    if s.releasing then Turn(w.now(n), None) else TurnOf(w.now(n), w.received(n), w.second(n))
  }

  /** Pass `k` was made without a stop request and read what the surroundings offered in it. */
  ghost predicate PassFollows(w: World, setup: Setup, turns: seq<Turn>, k: nat)
    requires setup.Valid() && k < |turns|
  {
    !w.stopped(k) && turns[k] == PassTurn(w, LinkRun.Run(setup, turns[..k]), k)
  }

  /** The first `k` passes end with one that drained and left nothing. */
  ghost predicate DrainedBy(setup: Setup, turns: seq<Turn>, k: nat)
    requires setup.Valid() && k <= |turns|
  {
    0 < k && LinkRun.Run(setup, turns[..k - 1]).releasing && LinkRun.Run(setup, turns[..k]).agenda == []
  }

  /** Every pass follows the surroundings, and no pass before the last has drained the run. */
  ghost predicate Follows(w: World, setup: Setup, turns: seq<Turn>)
    requires setup.Valid()
  {
    && (forall k :: 0 <= k < |turns| ==> PassFollows(w, setup, turns, k))
    && (forall k :: 0 <= k < |turns| ==> !DrainedBy(setup, turns, k))
  }

  /** The passes that the loop makes in these surroundings, and why it ends after them. */
  ghost predicate IsRun(w: World, setup: Setup, turns: seq<Turn>, exit: Exit)
    requires setup.Valid()
  {
    && Follows(w, setup, turns)
    && (exit == Drained <==> DrainedBy(setup, turns, |turns|))
    && (exit == Stopped ==> w.stopped(|turns|))
  }

  /** The clock reading for the summary. */
  function EndOf(w: World, passes: nat, exit: Exit): int {
    match exit
    case Stopped => w.now(passes)
    case Drained => if passes == 0 then w.now(0) else w.second(passes - 1)
  }

  lemma FollowsStart(w: World, setup: Setup)
    requires setup.Valid()
    ensures Follows(w, setup, []) && !DrainedBy(setup, [], 0)
  {
  }

  lemma FollowsAppend(w: World, setup: Setup, turns: seq<Turn>)
    requires setup.Valid() && Follows(w, setup, turns) && !DrainedBy(setup, turns, |turns|)
    requires !w.stopped(|turns|)
    ensures var s := LinkRun.Run(setup, turns); var longer := turns + [PassTurn(w, s, |turns|)];
      && Follows(w, setup, longer)
      && (DrainedBy(setup, longer, |longer|) <==> s.releasing && LinkRun.Run(setup, longer).agenda == [])
  {
    hide PassTurn, LinkRun.Run;
    var longer := turns + [PassTurn(w, LinkRun.Run(setup, turns), |turns|)];
    assert longer[..|turns|] == turns && longer[..|longer|] == longer;
    forall k | 0 <= k < |longer|
      ensures PassFollows(w, setup, longer, k) && !DrainedBy(setup, longer, k)
    {
      assert longer[..k] == turns[..k];
      assert turns[..|turns|] == turns;
      if k > 0 { assert longer[..k - 1] == turns[..k - 1]; }
      if k < |turns| { assert PassFollows(w, setup, turns, k) && !DrainedBy(setup, turns, k); }
    }
  }

  lemma {:induction false} SamePrefix(w: World, setup: Setup, x: seq<Turn>, y: seq<Turn>, n: nat)
    requires setup.Valid() && Follows(w, setup, x) && Follows(w, setup, y) && n <= |x| && n <= |y|
    ensures x[..n] == y[..n]
  {
    hide PassTurn;
    if n == 0 {
    } else {
      SamePrefix(w, setup, x, y, n - 1);
      assert PassFollows(w, setup, x, n - 1) && PassFollows(w, setup, y, n - 1);
      assert x[..n] == x[..n - 1] + [x[n - 1]] && y[..n] == y[..n - 1] + [y[n - 1]];
    }
  }

  lemma DrainedAgrees(setup: Setup, x: seq<Turn>, y: seq<Turn>)
    requires setup.Valid() && |x| <= |y| && y[..|x|] == x
    ensures DrainedBy(setup, x, |x|) <==> DrainedBy(setup, y, |x|)
  {
    hide LinkRun.Run;
    assert x[..|x|] == x;
    if |x| > 0 { assert x[..|x| - 1] == y[..|x| - 1]; }
  }

  lemma EarlierPass(w: World, setup: Setup, y: seq<Turn>, k: nat)
    requires setup.Valid() && Follows(w, setup, y) && k < |y|
    ensures !w.stopped(k) && !DrainedBy(setup, y, k)
  {
    hide LinkRun.Run;
    assert PassFollows(w, setup, y, k);
  }

  lemma NoRunIsLonger(w: World, setup: Setup, x: seq<Turn>, ex: Exit, y: seq<Turn>, ey: Exit)
    requires setup.Valid() && IsRun(w, setup, x, ex) && IsRun(w, setup, y, ey)
    ensures |y| <= |x|
  {
    hide LinkRun.Run, DrainedBy, PassFollows;
    if |x| < |y| {
      SamePrefix(w, setup, x, y, |x|);
      assert x[..|x|] == x;
      DrainedAgrees(setup, x, y);
      EarlierPass(w, setup, y, |x|);
    }
  }

  /** The surroundings determine the passes, and with them the output, the log and the exit. */
  lemma RunIsDetermined(w: World, setup: Setup, x: seq<Turn>, ex: Exit, y: seq<Turn>, ey: Exit)
    requires setup.Valid() && IsRun(w, setup, x, ex) && IsRun(w, setup, y, ey)
    ensures x == y && ex == ey
  {
    NoRunIsLonger(w, setup, x, ex, y, ey);
    NoRunIsLonger(w, setup, y, ey, x, ex);
    SamePrefix(w, setup, x, y, |x|);
    assert x[..|x|] == x && y[..|y|] == y;
  }

  // ---------- what the run takes in ----------

  /** The datagrams that come in the first `n` passes, each with the second reading of its pass. */
  ghost function Inbox(w: World, n: nat): seq<Arrival> {
    if n == 0 then []
    else
      Inbox(w, n - 1)
      + (match w.received(n - 1) case Some(raw) => [Arrival(raw, w.second(n - 1))] case None => [])
  }

  /** No more of them than the packet limit. */
  ghost function UpTo(arrivals: seq<Arrival>, limit: Option<int>): seq<Arrival> {
    if limit.Some? && 0 <= limit.value <= |arrivals| then arrivals[..limit.value] else arrivals
  }

  lemma PassTakes(setup: Setup, s: LinkState, w: World, n: nat)
    requires setup.Valid()
    ensures Step(setup, s, PassTurn(w, s, n)).arrivals ==
      s.arrivals
      + (match w.received(n)
         case Some(raw) => if s.releasing then [] else [Arrival(raw, w.second(n))]
         case None => [])
  {
    SendReadyCore(setup, s, w.now(n));
  }

  /** A run takes in every datagram that comes while it receives, unchanged and in order. */
  lemma {:induction false} TakesInbox(w: World, setup: Setup, turns: seq<Turn>, n: nat)
    requires setup.Valid() && Follows(w, setup, turns) && n <= |turns|
    ensures LinkRun.Run(setup, turns[..n]).arrivals == UpTo(Inbox(w, n), setup.maxPackets)
  {
    hide Step, PassTurn, DrainedBy;
    if n == 0 {
    } else {
      TakesInbox(w, setup, turns, n - 1);
      assert PassFollows(w, setup, turns, n - 1);
      assert turns[..n][..n - 1] == turns[..n - 1];
      PassTakes(setup, LinkRun.Run(setup, turns[..n - 1]), w, n - 1);
      LimitIsKept(setup, turns[..n - 1]);
    }
  }

  // ---------- waiting ----------

  /**
   * A wait of `waitNs` from `fromNs` stays within the poll interval, ends no later than a delivery
   * becomes eligible, and is zero exactly when one already is.
   */
  ghost predicate WaitsUntilReady(s: LinkState, pollNs: int, fromNs: int, waitNs: int) {
    && 0 <= waitNs <= pollNs
    && (waitNs == 0 <==> Ready(s.agenda, GateAt(s, fromNs)) != [])
    && (forall t :: fromNs <= t < fromNs + waitNs ==> Ready(s.agenda, GateAt(s, t)) == [])
  }

  function WaitFor(pollNs: int, fromNs: int, deadline: Option<int>): int {
    if deadline.None? then pollNs else
    var remaining := Max(0, deadline.value - fromNs);
    if remaining < pollNs then remaining else pollNs
  }

  lemma WaitForDeadline(s: LinkState, pollNs: int, fromNs: int, deadline: Option<int>)
    requires 0 < pollNs
    requires IsDeadline(deadline, multiset(s.agenda), |s.arrivals| - 1, s.releasing)
    ensures WaitsUntilReady(s, pollNs, fromNs, WaitFor(pollNs, fromNs, deadline))
  {
    hide IsDeadline;
    forall t
      ensures Ready(s.agenda, GateAt(s, t)) != [] <==> deadline.Some? && deadline.value <= t
    {
      LinkOrder.SameDeadline(s, GateAt(s, t), deadline);
    }
  }

  /** What a gate opens for does not stay behind. */
  lemma NothingReadyAfter(setup: Setup, s: LinkState, nowNs: int)
    ensures var after := LinkRun.SendReady(setup, s, nowNs); Ready(after.agenda, GateAt(after, nowNs)) == []
  {
    SendReadyCore(setup, s, nowNs);
    ReadyHeldMembers(s.agenda, GateAt(s, nowNs));
    var g := GateAt(s, nowNs);
    ReadyHeldMembers(Held(s.agenda, g), g);
    LinkOrder.FirstIsMember(Ready(Held(s.agenda, g), g));
  }

  class LinkRuntime {
    const setup: Setup
    const pollIntervalNs: int
    const engine: ImpairmentEngine
    const scheduler: DatagramScheduler
    const stream: LinkEventStream
    var highestForwarded: int
    var reordered: set<nat>
    /** What the output socket has accepted. */
    var sent: seq<ScheduledDatagram>
    ghost var state: LinkState

    /** The sending side holds exactly what `state` says. */
    ghost predicate Shows()
      reads this, stream
    {
      && stream.log == state.log
      && highestForwarded == state.highestForwarded
      && reordered == state.reordered
      && sent == state.forwarded
    }

    /** The receiving side holds `arrivals` packets, the pending deliveries and the release flag. */
    ghost predicate Holds(arrivals: nat, pending: multiset<ScheduledDatagram>, releasing: bool)
      reads engine, engine.rng, scheduler, scheduler.heap, scheduler.heap.slots
    {
      && engine.Valid() && engine.config == setup.config && scheduler.Valid()
      && engine.packetIndex == arrivals
      && scheduler.Pending() == pending
      && scheduler.highestPacketIndex == arrivals - 1
      && scheduler.releasing == releasing
    }

    ghost predicate StreamOpen(nowNs: int)
      reads stream
    {
      stream.Open(nowNs) && stream.sessionId == setup.sessionId && stream.startNs == setup.startNs
    }

    /** The objects hold exactly `state`, and an event can be stamped at `nowNs`. */
    ghost predicate Valid(nowNs: int)
      reads this, engine, engine.rng, scheduler, scheduler.heap, scheduler.heap.slots, stream
    {
      && setup.Valid() && 0 < pollIntervalNs
      && StreamOpen(nowNs)
      && Conserved(setup.config, state)
      && Holds(|state.arrivals|, multiset(state.agenda), state.releasing)
      && Shows()
    }

    /** A runtime that has been opened and not yet run. */
    ghost predicate Opened()
      reads this, engine, engine.rng, scheduler, scheduler.heap, scheduler.heap.slots, stream
    {
      && setup.Valid() && 0 < pollIntervalNs
      && stream.Valid() && stream.sessionId == setup.sessionId && stream.startNs == setup.startNs
      && stream.log == [] && !stream.closed
      && Holds(0, multiset{}, false)
      && highestForwarded == -1 && reordered == {} && sent == []
    }

    constructor (setup: Setup, pollIntervalNs: int)
      requires setup.Valid() && 0 < pollIntervalNs
      ensures Opened() && this.setup == setup && this.pollIntervalNs == pollIntervalNs
      ensures fresh(engine) && fresh(engine.rng) && fresh(scheduler) && fresh(scheduler.heap) && fresh(scheduler.heap.slots) && fresh(stream)
    {
      this.setup := setup;
      this.pollIntervalNs := pollIntervalNs;
      this.engine := new ImpairmentEngine(setup.config);
      this.scheduler := new DatagramScheduler();
      this.stream := new LinkEventStream(setup.sessionId, setup.startNs);
      this.highestForwarded := -1;
      this.reordered := {};
      this.sent := [];
      this.state := Start(setup);
    }

    /** Reorder evidence, once for each overtaken packet. */
    method NoteReordered(item: ScheduledDatagram, nowNs: int)
      requires StreamOpen(nowNs)
      requires stream.log == state.log && highestForwarded == state.highestForwarded && reordered == state.reordered
      modifies this`reordered, stream
      ensures StreamOpen(nowNs)
      ensures stream.log == NoteOvertaken(setup, state, item, nowNs).log
      ensures reordered == NoteOvertaken(setup, state, item, nowNs).reordered
    {
      if item.packetIndex < highestForwarded && item.packetIndex !in reordered {
        reordered := reordered + {item.packetIndex};
        var r := stream.Emit(PacketReordered, nowNs, item.packetIndex, ReorderFields(highestForwarded, item));
      }
    }

    /** One forwarded delivery: reorder evidence first, then the forwarding event. */
    method EmitForwarded(item: ScheduledDatagram, nowNs: int)
      requires StreamOpen(nowNs)
      requires stream.log == state.log && highestForwarded == state.highestForwarded
      requires reordered == state.reordered && sent == state.forwarded + [item]
      modifies this, stream
      ensures StreamOpen(nowNs) && Shows()
      ensures state == Forward(setup, old(state), item, nowNs)
    {
      hide StatisticsOf, AcceptedLog, NoteOvertaken, IsOvertaken;
      NoteReordered(item, nowNs);
      highestForwarded := Max(highestForwarded, item.packetIndex);
      var r := stream.Emit(PacketForwarded, nowNs, item.packetIndex, ForwardFields(item));
      state := Forward(setup, state, item, nowNs);
    }

    method SendAll(items: seq<ScheduledDatagram>, nowNs: int)
      requires StreamOpen(nowNs) && Shows()
      modifies this, stream
      ensures StreamOpen(nowNs) && Shows()
      ensures state == ForwardAll(setup, old(state), items, nowNs)
    {
      for i := 0 to |items|
        invariant StreamOpen(nowNs) && Shows()
        invariant state == ForwardAll(setup, old(state), items[..i], nowNs)
      {
        assert items[..i + 1][..i] == items[..i];
        sent := sent + [items[i]];
        EmitForwarded(items[i], nowNs);
      }
      assert items[..|items|] == items;
    }

    /** The batch that the scheduler hands over. */
    method PopBatch(nowNs: int) returns (items: seq<ScheduledDatagram>)
      requires setup.Valid() && 0 <= nowNs && Conserved(setup.config, state)
      requires Holds(|state.arrivals|, multiset(state.agenda), state.releasing)
      modifies scheduler.heap, scheduler.heap.slots
      ensures scheduler.heap.slots == old(scheduler.heap.slots) || fresh(scheduler.heap.slots)
      ensures items == Ready(state.agenda, GateAt(state, nowNs))
      ensures Holds(|state.arrivals|, multiset(Held(state.agenda, GateAt(state, nowNs))), state.releasing)
    {
      PendingIdentified(setup.config, state);
      var popped := scheduler.PopReady(nowNs);
      items := popped.value;
      SelectionIsReady(state.agenda, GateAt(state, nowNs), items, scheduler.Pending());
    }

    method SendReady(nowNs: int)
      requires Valid(nowNs) && 0 <= nowNs
      modifies this, stream, scheduler.heap, scheduler.heap.slots
      ensures Valid(nowNs) && (scheduler.heap.slots == old(scheduler.heap.slots) || fresh(scheduler.heap.slots))
      ensures state == LinkRun.SendReady(setup, old(state), nowNs)
    {
      hide Conserved, Sorted, Ready, Held, ForwardAll;
      ghost var before := state;
      var items := PopBatch(nowNs);
      state := before.(agenda := Held(before.agenda, GateAt(before, nowNs)));
      SendAll(items, nowNs);
      SendConserves(setup, before, nowNs);
      SendReadyCore(setup, before, nowNs);
    }

    method EmitIf(condition: bool, t: LinkEventType, nowNs: int, packetIndex: nat, fields: map<Field, Scalar>)
      requires StreamOpen(nowNs) && t != RunMetadata && t != RunSummary
      modifies stream
      ensures StreamOpen(nowNs)
      ensures stream.log == LoggedIf(setup, old(stream.log), condition, t, nowNs, packetIndex, fields)
    {
      if condition {
        var r := stream.Emit(t, nowNs, packetIndex, fields);
      }
    }

    method EmitEffects(outcome: PacketOutcome, nowNs: int)
      requires StreamOpen(nowNs) && outcome.deliveries != []
      modifies stream
      ensures StreamOpen(nowNs)
      ensures stream.log == EffectsLog(setup, old(stream.log), outcome, nowNs)
    {
      var packetIndex, first := outcome.packetIndex, outcome.deliveries[0];
      EmitIf(outcome.Duplicated(), PacketDuplicated, nowNs, packetIndex,
        map[CopyCount := Number(|outcome.deliveries|)]);
      EmitIf(first.corruptedBit.Some?, PacketCorrupted, nowNs, packetIndex,
        map[BitIndex := BitScalar(first.corruptedBit)]);
      EmitIf(first.delayMs > 0, PacketDelayed, nowNs, packetIndex, map[DelayField := Number(first.delayMs)]);
    }

    method EmitDeliveries(outcome: PacketOutcome, nowNs: int)
      requires StreamOpen(nowNs)
      modifies stream
      ensures StreamOpen(nowNs)
      ensures stream.log == DeliveriesLog(setup, old(stream.log), outcome, |outcome.deliveries|, nowNs)
    {
      for i := 0 to |outcome.deliveries|
        invariant StreamOpen(nowNs)
        invariant stream.log == DeliveriesLog(setup, old(stream.log), outcome, i, nowNs)
      {
        EmitIf(true, DeliveryScheduled, nowNs, outcome.packetIndex, DeliveryFields(outcome.deliveries[i]));
      }
    }

    method EmitOutcome(raw: Bytes, outcome: PacketOutcome, nowNs: int)
      requires StreamOpen(nowNs)
      requires outcome.dropped || outcome.deliveries != []
      modifies stream
      ensures StreamOpen(nowNs)
      ensures stream.log == OutcomeLog(setup, old(stream.log), raw, outcome, nowNs)
    {
      var packetIndex := outcome.packetIndex;
      EmitIf(true, PacketReceived, nowNs, packetIndex, map[PayloadBytes := Number(|raw|)]);
      if outcome.dropped {
        EmitIf(true, PacketDropped, nowNs, packetIndex, map[PayloadBytes := Number(|raw|)]);
        return;
      }
      EmitEffects(outcome, nowNs);
      EmitDeliveries(outcome, nowNs);
    }

    /** Enqueue one outcome, and release holds at the packet limit. */
    method Queue(
      outcome: PacketOutcome, receivedAtNs: int, ghost arrivals: nat, ghost pending: multiset<ScheduledDatagram>)
      requires setup.Valid() && 0 <= receivedAtNs && outcome.packetIndex == arrivals
      requires engine.Valid() && engine.config == setup.config && engine.packetIndex == arrivals + 1
      requires scheduler.Valid() && scheduler.Pending() == pending && scheduler.highestPacketIndex == arrivals - 1
      modifies scheduler, scheduler.heap, scheduler.heap.slots
      ensures scheduler.heap.slots == old(scheduler.heap.slots) || fresh(scheduler.heap.slots)
      ensures Holds(arrivals + 1, pending + multiset(Scheduled(outcome, receivedAtNs)),
        old(scheduler.releasing) || LimitReached(setup, arrivals + 1))
    {
      var r := scheduler.Enqueue(outcome, receivedAtNs);
      if setup.maxPackets.Some? && engine.packetIndex >= setup.maxPackets.value {
        scheduler.ReleaseHolds();
      }
    }

    /** Decide, log and enqueue one datagram, and release holds at the packet limit. */
    method Ingest(
      raw: Bytes, receivedAtNs: int, ghost arrivals: nat, ghost pending: multiset<ScheduledDatagram>,
      ghost releasing: bool)
      returns (outcome: PacketOutcome)
      requires setup.Valid() && StreamOpen(receivedAtNs) && 0 <= receivedAtNs
      requires Holds(arrivals, pending, releasing)
      modifies engine, engine.rng, scheduler, scheduler.heap, scheduler.heap.slots, stream
      ensures scheduler.heap.slots == old(scheduler.heap.slots) || fresh(scheduler.heap.slots)
      ensures outcome == OutcomeAt(setup.config, arrivals, raw)
      ensures outcome.dropped || outcome.deliveries != []
      ensures StreamOpen(receivedAtNs)
      ensures stream.log == OutcomeLog(setup, old(stream.log), raw, outcome, receivedAtNs)
      ensures Holds(arrivals + 1, pending + multiset(Scheduled(outcome, receivedAtNs)),
        releasing || LimitReached(setup, arrivals + 1))
    {
      hide OutcomeAt, OutcomeLog, Scheduled;
      outcome := engine.Process(raw);
      LinkOrder.OutcomeShape(setup.config, arrivals, raw);
      EmitOutcome(raw, outcome, receivedAtNs);
      Queue(outcome, receivedAtNs, arrivals, pending);
    }

    method Accept(raw: Bytes, receivedAtNs: int)
      requires Valid(receivedAtNs) && 0 <= receivedAtNs
      modifies this, engine, engine.rng, scheduler, scheduler.heap, scheduler.heap.slots, stream
      ensures Valid(receivedAtNs)
      ensures scheduler.heap.slots == old(scheduler.heap.slots) || fresh(scheduler.heap.slots)
      ensures state == Receive(setup, old(state), Arrival(raw, receivedAtNs))
    {
      hide OutcomeAt, OutcomeLog, Scheduled, Conserved, Sorted, InsertAll, Receive, Holds, StreamOpen, LimitReached;
      ghost var before := state;
      ghost var a := Arrival(raw, receivedAtNs);
      var outcome := Ingest(raw, receivedAtNs, |before.arrivals|, multiset(before.agenda), before.releasing);
      state := Receive(setup, before, a);
      ReceiveShape(setup, before, a, outcome);
    }

    /** The timeout of the receiving socket. */
    method ReceiveTimeout(nowNs: int) returns (timeoutNs: int)
      requires Valid(nowNs)
      ensures WaitsUntilReady(state, pollIntervalNs, nowNs, timeoutNs)
    {
      var deadline := scheduler.NextDeadlineNs();
      WaitForDeadline(state, pollIntervalNs, nowNs, deadline);
      timeoutNs := WaitFor(pollIntervalNs, nowNs, deadline);
    }

    /** The exits of a drain pass, and otherwise its sleep, measured from the second clock reading. */
    method CheckDrained(ghost nowNs: int, secondNs: int) returns (done: bool, sleepNs: int)
      requires Valid(nowNs) && state.releasing
      ensures done <==> state.agenda == []
      ensures !done ==> WaitsUntilReady(state, pollIntervalNs, secondNs, sleepNs)
    {
      var pending := scheduler.PendingCount();
      if pending == 0 {
        return true, 0;
      }
      var deadline := scheduler.NextDeadlineNs();
      LinkOrder.NoDeadlineMeansEmpty(state, deadline);
      if deadline.None? {
        return true, 0;
      }
      WaitForDeadline(state, pollIntervalNs, secondNs, deadline);
      return false, WaitFor(pollIntervalNs, secondNs, deadline);
    }

    /** One pass while draining; `done` when nothing is left. */
    method DrainPass(nowNs: int, secondNs: int) returns (done: bool, sleepNs: int)
      requires Valid(nowNs) && 0 <= nowNs && state.releasing
      modifies this, stream, scheduler.heap, scheduler.heap.slots
      ensures Valid(nowNs) && (scheduler.heap.slots == old(scheduler.heap.slots) || fresh(scheduler.heap.slots))
      ensures state == LinkRun.SendReady(setup, old(state), nowNs) && state.releasing
      ensures done <==> state.agenda == []
      ensures !done ==> WaitsUntilReady(state, pollIntervalNs, secondNs, sleepNs)
    {
      hide Conserved, Sorted, LinkRun.SendReady;
      LinkRun.SendReadyCore(setup, state, nowNs);
      SendReady(nowNs);
      done, sleepNs := CheckDrained(nowNs, secondNs);
    }

    /** One pass while receiving. */
    method ReceivePass(nowNs: int, received: Option<Bytes>, secondNs: int) returns (timeoutNs: int)
      requires Valid(nowNs) && 0 <= nowNs <= secondNs && !state.releasing
      modifies this, engine, engine.rng, scheduler, scheduler.heap, scheduler.heap.slots, stream
      ensures Valid(secondNs)
      ensures scheduler.heap.slots == old(scheduler.heap.slots) || fresh(scheduler.heap.slots)
      ensures state == Step(setup, old(state), TurnOf(nowNs, received, secondNs))
      ensures 0 < timeoutNs
      ensures WaitsUntilReady(LinkRun.SendReady(setup, old(state), nowNs), pollIntervalNs, nowNs, timeoutNs)
    {
      hide Conserved, Sorted, Ready, Held, LinkRun.SendReady, Receive;
      LinkRun.SendReadyCore(setup, state, nowNs);
      NothingReadyAfter(setup, state, nowNs);
      SendReady(nowNs);
      timeoutNs := ReceiveTimeout(nowNs);
      if received.Some? {
        Accept(received.value, secondNs);
      }
    }

    /** The closing summary. */
    method Close(endNs: int)
      requires StreamOpen(endNs) && Shows()
      modifies stream
      ensures stream.closed && stream.log == Finished(setup, state, endNs)
    {
      var summary := stream.EmitSummary(endNs);
    }

    /** The loop proper, from a stream that holds only its header. */
    method Loop(w: World, ghost horizon: nat, ghost reach: int -> nat)
      returns (exit: Exit, ghost turns: seq<Turn>, nextNs: int)
      requires Valid(setup.startNs) && state == Start(setup)
      requires Monotone(w, setup.startNs)
      requires Resolves(w, setup.maxPackets, horizon)
      requires forall t :: w.now(reach(t)) >= t
      modifies this, engine, engine.rng, scheduler, scheduler.heap, scheduler.heap.slots, stream
      ensures Valid(nextNs)
      ensures Clocked(setup, turns) && LastReading(setup, turns) <= nextNs
      ensures state == LinkRun.Run(setup, turns)
      ensures IsRun(w, setup, turns, exit) && nextNs == EndOf(w, |turns|, exit)
      ensures exit == Drained ==> state.agenda == [] && setup.maxPackets == Some(|state.arrivals|)
    {
      hide LinkRun.SendReady, Shows;
      hide Conserved, Resolves, Follows, DrainedBy;
      turns := [];
      FollowsStart(w, setup);
      var n: nat := 0;
      ghost var bound: nat := 0;
      while !w.stopped(n)
        invariant Valid(w.now(n)) && 0 <= w.now(n)
        invariant scheduler.heap.slots == old(scheduler.heap.slots) || fresh(scheduler.heap.slots)
        invariant state == LinkRun.Run(setup, turns)
        invariant Clocked(setup, turns) && LastReading(setup, turns) <= w.now(n)
        invariant n == |turns| && Follows(w, setup, turns) && !DrainedBy(setup, turns, n)
        invariant Progress(setup, state, w, n, horizon, bound)
        decreases !state.releasing, if state.releasing then bound - n else horizon - n
      {
        ghost var before := state;
        assert w.now(n) <= w.second(n) <= w.now(n + 1);
        FollowsAppend(w, setup, turns);
        if scheduler.releasing {
          TurnAppended(setup, turns, Turn(w.now(n), None));
          turns := turns + [Turn(w.now(n), None)];
          var done, sleepNs := DrainPass(w.now(n), w.second(n));
          if done {
            LimitIsKept(setup, turns);
            return Drained, turns, w.second(n);
          }
          DrainProgress(setup, before, w, n, horizon, bound);
        } else {
          TurnAppended(setup, turns, TurnOf(w.now(n), w.received(n), w.second(n)));
          turns := turns + [TurnOf(w.now(n), w.received(n), w.second(n))];
          var timeoutNs := ReceivePass(w.now(n), w.received(n), w.second(n));
          bound := ReceiveProgress(setup, before, w, n, horizon, reach);
        }
        n := n + 1;
      }
      return Stopped, turns, w.now(n);
    }

    /** The stream header. */
    method Begin()
      requires Opened()
      modifies this, stream
      ensures Valid(setup.startNs) && state == Start(setup)
    {
      var r := stream.EmitRunMetadata(setup.metadata, setup.startNs);
      state := Start(setup);
    }

    /**
     * The whole run. The result is the fold over the passes that the surroundings determine, followed
     * by the summary. A run that is not stopped ends at the packet limit with nothing pending, and it
     * does end: receiving ends by `horizon` and draining because the clock, being unbounded, passes
     * every due time.
     */
    method Run(w: World, ghost horizon: nat, ghost reach: int -> nat)
      returns (exit: Exit, ghost turns: seq<Turn>, endNs: int)
      requires Opened()
      requires Monotone(w, setup.startNs)
      requires Resolves(w, setup.maxPackets, horizon)
      requires forall t :: w.now(reach(t)) >= t
      modifies this, engine, engine.rng, scheduler, scheduler.heap, scheduler.heap.slots, stream
      ensures Clocked(setup, turns) && LastReading(setup, turns) <= endNs
      ensures state == LinkRun.Run(setup, turns)
      ensures sent == state.forwarded
      ensures stream.closed && stream.log == Finished(setup, state, endNs)
      ensures Holds(|state.arrivals|, multiset(state.agenda), state.releasing)
      ensures IsRun(w, setup, turns, exit) && endNs == EndOf(w, |turns|, exit)
      ensures exit == Drained ==> scheduler.Pending() == multiset{} && setup.maxPackets == Some(|state.arrivals|)
      ensures state.arrivals == UpTo(Inbox(w, |turns|), setup.maxPackets)
      ensures StatisticsOf(state.log).packetsReceived == |state.arrivals|
    {
      hide Conserved, Sorted, Clocked, StatisticsOf, Follows;
      Begin();
      exit, turns, endNs := Loop(w, horizon, reach);
      Close(endNs);
      LinkEvidence.RunAccounted(setup, turns);
      TakesInbox(w, setup, turns, |turns|);
      assert turns[..|turns|] == turns;
    }
  }
}
