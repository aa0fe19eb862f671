/** First-in-first-out runs: what the inspector's gaps and duplicates say of the packets lost and doubled. */
module LinkLosses {
  import opened Wrappers
  import opened Impairments
  import opened Inspection
  import opened LinkEvidence
  import opened LinkInspection
  import opened LinkOrder
  import opened LinkRun
  import opened LossAccounting
  import opened Receiver
  import opened Schedule
  import opened SequenceInspection
  import opened Words
  import AlarmEvents
  import Alarms
  import Codec
  import ReceiverInspection

  // ---------- the output of a first-in-first-out run ----------

  predicate Precedes(x: ScheduledDatagram, y: ScheduledDatagram) {
    x.packetIndex < y.packetIndex || (x.packetIndex == y.packetIndex && x.copyIndex < y.copyIndex)
  }

  lemma WithoutLast(f: seq<ScheduledDatagram>, x: ScheduledDatagram)
    requires f != [] && InOrder(f) && f[|f| - 1] == x
    ensures InOrder(f[..|f| - 1])
    ensures multiset(f[..|f| - 1]) == multiset(f) - multiset{x}
    ensures f == f[..|f| - 1] + [x]
  {
    DropLast(f);
  }

  lemma LastsEqual(f: seq<ScheduledDatagram>, g: seq<ScheduledDatagram>)
    requires f != [] && g != [] && InOrder(f) && InOrder(g) && multiset(f) == multiset(g)
    ensures f[|f| - 1] == g[|g| - 1]
  {
    var x, y := f[|f| - 1], g[|g| - 1];
    assert x in multiset(g) && y in multiset(f);
    var a :| 0 <= a < |g| && g[a] == x;
    var b :| 0 <= b < |f| && f[b] == y;
    assert a == |g| - 1 || Precedes(x, y);
    assert b == |f| - 1 || Precedes(y, x);
  }

  /** Sequences in packet and copy order with the same members are equal. */
  lemma {:induction false} InOrderIsUnique(f: seq<ScheduledDatagram>, g: seq<ScheduledDatagram>)
    requires InOrder(f) && InOrder(g) && multiset(f) == multiset(g)
    ensures f == g
  {
    hide InOrder;
    SameSize(f, g);
    if f == [] {
    } else {
      var x := f[|f| - 1];
      LastsEqual(f, g);
      WithoutLast(f, x);
      WithoutLast(g, x);
      InOrderIsUnique(f[..|f| - 1], g[..|g| - 1]);
    }
  }

  lemma CopiesNumbered(config: LinkConfig, index: nat, payload: Bytes)
    requires config.Valid()
    ensures var o := OutcomeAt(config, index, payload);
      forall c :: 0 <= c < |o.deliveries| ==> o.deliveries[c].copyIndex == c
  {
    OutcomeShape(config, index, payload);
  }

  /** What the engine produces is in packet and copy order. */
  lemma {:induction false} ProducedInOrder(config: LinkConfig, arrivals: seq<Arrival>)
    requires config.Valid()
    ensures InOrder(Produced(config, arrivals))
    ensures forall x :: x in Produced(config, arrivals) ==> x.packetIndex < |arrivals|
  {
    hide OutcomeAt;
    if arrivals == [] {
    } else {
      var init, last := arrivals[..|arrivals| - 1], arrivals[|arrivals| - 1];
      ProducedInOrder(config, init);
      OutcomeShape(config, |init|, last.payload);
      CopiesNumbered(config, |init|, last.payload);
      var old_ := Produced(config, init);
      assert forall k :: 0 <= k < |old_| ==> old_[k] in old_;
    }
  }

  /** The packets up to the last one sent. */
  function SentPackets(s: LinkState): nat {
    if s.forwarded == [] then 0 else s.forwarded[|s.forwarded| - 1].packetIndex + 1
  }

  /** Two deliveries of one packet are equal or are the two copies of a duplicate. */
  lemma SamePacket(config: LinkConfig, arrivals: seq<Arrival>, j: ScheduledDatagram, x: ScheduledDatagram)
    requires config.Valid() && IsItem(config, arrivals, j) && IsItem(config, arrivals, x)
    requires j.copyIndex <= 1 && x.copyIndex <= 1
    ensures j.packetIndex == x.packetIndex ==> j == x || (Duplicates(config, x.packetIndex) && j == Twin(x))
  {
    hide OutcomeAt, Duplicates;
    TwinIsItem(config, arrivals, j);
    TwinIsItem(config, arrivals, x);
  }

  /** A sent delivery and a pending one are never the two copies of one packet. */
  lemma CopiesApart(config: LinkConfig, s: LinkState, j: ScheduledDatagram, x: ScheduledDatagram)
    requires config.Valid() && Conserved(config, s) && Paired(config, s.agenda)
    requires j in s.forwarded && x in s.agenda
    ensures j.packetIndex != x.packetIndex
  {
    hide Conserved, Duplicates, OutcomeAt, IsItem;
    PendingIdentified(config, s);
    TwinIsItem(config, s.arrivals, j);
    TwinIsItem(config, s.arrivals, x);
    SamePacket(config, s.arrivals, j, x);
  }

  /** Over a first-in-first-out run nothing pending belongs to a packet up to the last one sent. */
  lemma NonePendingBefore(setup: Setup, turns: seq<Turn>, x: ScheduledDatagram)
    requires setup.Valid() && Clocked(setup, turns)
    requires setup.config.jitterMs == 0 && setup.config.reorderWindow <= 1
    requires x in Run(setup, turns).agenda
    ensures SentPackets(Run(setup, turns)) <= x.packetIndex
  {
    hide LinkRun.Run, IsItem, Conserved, Duplicates, Clocked;
    var s := Run(setup, turns);
    if s.forwarded != [] {
      var j := s.forwarded[|s.forwarded| - 1];
      RunKeepsOrder(setup, turns);
      ExactlyOnce(setup, turns);
      PendingIdentified(setup.config, s);
      ArrivalTimes(setup, turns);
      assert j in s.forwarded && Justified(j, x);
      DueOf(setup.config, s.arrivals, x);
      if x.packetIndex < j.packetIndex && j.dueAtNs < x.dueAtNs {
        DueReversalNeedsJitter(setup.config, s.arrivals, j, x);
      }
      DuplicatesLeaveTogether(setup, turns);
      CopiesApart(setup.config, s, j, x);
    }
  }

  /** What is produced of the first `m` packets is what is produced of all, up to packet `m`. */
  lemma ProducedPrefix(config: LinkConfig, arrivals: seq<Arrival>, m: nat, x: ScheduledDatagram)
    requires config.Valid() && m <= |arrivals|
    ensures IsItem(config, arrivals[..m], x) <==> x.packetIndex < m && IsItem(config, arrivals, x)
  {
  }

  lemma ItemIndex(config: LinkConfig, arrivals: seq<Arrival>, x: ScheduledDatagram)
    requires config.Valid() && IsItem(config, arrivals, x)
    ensures x.packetIndex < |arrivals|
  {
  }

  lemma SentIsBounded(f: seq<ScheduledDatagram>, x: ScheduledDatagram)
    requires InOrder(f) && x in f
    ensures x.packetIndex <= f[|f| - 1].packetIndex
  {
    var k :| 0 <= k < |f| && f[k] == x;
    assert k == |f| - 1 || Precedes(f[k], f[|f| - 1]);
  }

  /** Sequences without repeats and with the same members are equal as multisets. */
  lemma SameMembers(f: seq<ScheduledDatagram>, g: seq<ScheduledDatagram>)
    requires forall x :: multiset(f)[x] <= 1 && multiset(g)[x] <= 1
    requires forall x :: x in f <==> x in g
    ensures multiset(f) == multiset(g)
  {
    forall x: ScheduledDatagram
      ensures multiset(f)[x] == multiset(g)[x]
    {
      assert x in multiset(f) <==> x in f;
      assert x in multiset(g) <==> x in g;
    }
  }

  /**
   * With zero jitter and a reorder window of at most one, every run has sent what the engine produced
   * of the packets up to the last one sent, in the order in which it was produced.
   */
  lemma OutputIsPrefix(setup: Setup, turns: seq<Turn>)
    requires setup.Valid() && Clocked(setup, turns)
    requires setup.config.jitterMs == 0 && setup.config.reorderWindow <= 1
    ensures var s := Run(setup, turns); var m := SentPackets(s);
      m <= |s.arrivals| && s.forwarded == Produced(setup.config, s.arrivals[..m])
  {
    hide LinkRun.Run, Produced, IsItem, Conserved, Clocked;
    var s := Run(setup, turns);
    var m := SentPackets(s);
    ExactlyOnce(setup, turns);
    PendingIdentified(setup.config, s);
    FirstInFirstOut(setup, turns);
    if s.forwarded != [] {
      assert s.forwarded[|s.forwarded| - 1] in s.forwarded;
      ItemIndex(setup.config, s.arrivals, s.forwarded[|s.forwarded| - 1]);
    }
    var sent := Produced(setup.config, s.arrivals[..m]);
    ProducedItems(setup.config, s.arrivals[..m]);
    ProducedInOrder(setup.config, s.arrivals[..m]);
    forall x
      ensures x in s.forwarded <==> x in sent
    {
      ProducedPrefix(setup.config, s.arrivals, m, x);
      if x in s.agenda { NonePendingBefore(setup, turns, x); }
      if x in s.forwarded { SentIsBounded(s.forwarded, x); }
    }
    SameMembers(s.forwarded, sent);
    InOrderIsUnique(s.forwarded, sent);
  }

  // ---------- what decodes of it ----------

  /** Encoded packets whose sequence numbers count up modulo 2^32. */
  ghost predicate Counting(arrivals: seq<Arrival>, packets: seq<Codec.TelemetryPacket>, start: int) {
    && Encoded(arrivals, packets)
    && forall k :: 0 <= k < |packets| ==> packets[k].sequence == (start + k) % WORD_32
  }

  /** A packet arrives intact when it is neither dropped nor corrupted. */
  predicate Intact(config: LinkConfig, index: nat)
    requires config.Valid()
  {
    !Drops(config, index) && !Corrupts(config, index)
  }

  function Alive(config: LinkConfig, n: nat): (alive: seq<bool>)
    requires config.Valid()
    ensures |alive| == n && forall k :: 0 <= k < n ==> alive[k] == Intact(config, k)
  {
    seq(n, k requires 0 <= k < n => Intact(config, k))
  }

  /** What arrives intact of packet `index` carrying sequence `q`: nothing, one copy or two. */
  function Copied(config: LinkConfig, index: nat, q: int): seq<int>
    requires config.Valid()
  {
    if !Intact(config, index) then [] else if Duplicates(config, index) then [q, q] else [q]
  }

  /** The sequence numbers that arrive intact of the first `n` packets, second copies included. */
  function Arriving(config: LinkConfig, start: int, n: nat): seq<int>
    requires config.Valid()
  {
    if n == 0 then [] else Arriving(config, start, n - 1) + Copied(config, n - 1, (start + n - 1) % WORD_32)
  }

  lemma NoDatagram()
    ensures DecodedSequences([]) == []
  {
  }

  lemma OneDatagram(raw: Bytes)
    ensures DecodedSequences([raw]) ==
      if Codec.DecodePacket(raw).Success? then [Codec.DecodePacket(raw).value.sequence] else []
  {
    assert [raw][..0] == [];
  }

  /** What one packet contributes to the decoded sequences. */
  lemma PacketDecodes(config: LinkConfig, index: nat, p: Codec.TelemetryPacket, at: int)
    requires config.Valid() && Codec.ValidatePacket(p) == None
    ensures var o := OutcomeAt(config, index, Codec.EncodePacket(p).value);
      DecodedSequences(Payloads(Scheduled(o, at))) == Copied(config, index, p.sequence)
  {
    hide Codec.DecodePacket, OutcomeAt, Codec.EncodePacket, DecodedSequences;
    EncodedNotEmpty(p);
    var data := Codec.EncodePacket(p).value;
    var o := OutcomeAt(config, index, data);
    OutcomeShape(config, index, data);
    OutcomeCorruption(config, index, data);
    var raws := Payloads(Scheduled(o, at));
    if o.deliveries == [] {
      assert raws == [];
      NoDatagram();
    } else {
      var raw := o.deliveries[0].payload;
      Codec.DeliveryDecodesIffUncorrupted(config, index, p, 0);
      OneDatagram(raw);
      if |o.deliveries| == 1 {
        assert raws == [raw];
      } else {
        assert raws == [raw] + [raw];
        DecodedConcat([raw], [raw]);
      }
    }
  }

  lemma NothingDecoded(config: LinkConfig)
    requires config.Valid()
    ensures DecodedSequences(Payloads(Produced(config, []))) == []
  {
    assert Payloads([]) == [];
  }

  lemma CountingPrefix(arrivals: seq<Arrival>, packets: seq<Codec.TelemetryPacket>, start: int)
    requires arrivals != [] && Counting(arrivals, packets, start)
    ensures var n := |arrivals| - 1;
      && Counting(arrivals[..n], packets[..n], start)
      && Codec.ValidatePacket(packets[n]) == None
      && arrivals[n].payload == Codec.EncodePacket(packets[n]).value
      && packets[n].sequence == (start + n) % WORD_32
  {
    hide Codec.EncodePacket, Codec.ValidatePacket;
    var n := |arrivals| - 1;
    assert packets[n] == packets[n];
    assert forall k :: 0 <= k < n ==> packets[..n][k] == packets[k];
  }

  /** The decoded sequences of what the engine produces from a counting input. */
  lemma {:induction false} DecodedAreArriving(
    config: LinkConfig, arrivals: seq<Arrival>, packets: seq<Codec.TelemetryPacket>, start: int)
    requires config.Valid() && |packets| == |arrivals| && Counting(arrivals, packets, start)
    ensures DecodedSequences(Payloads(Produced(config, arrivals))) == Arriving(config, start, |arrivals|)
  {
    hide Codec.DecodePacket, OutcomeAt, Codec.EncodePacket, Codec.ValidatePacket, Intact, Duplicates, Counting,
      Produced, DecodedSequences, Scheduled, Copied;
    if arrivals == [] {
      NothingDecoded(config);
    } else {
      var n := |arrivals| - 1;
      var init, last := arrivals[..n], arrivals[n];
      CountingPrefix(arrivals, packets, start);
      DecodedAreArriving(config, init, packets[..n], start);
      PacketDecodes(config, n, packets[n], last.receivedAtNs);
      assert arrivals == init + [last];
      ProducedAppend(config, init, last);
      var older, newer := Produced(config, init), Scheduled(OutcomeAt(config, n, last.payload), last.receivedAtNs);
      assert Payloads(older + newer) == Payloads(older) + Payloads(newer);
      DecodedConcat(Payloads(older), Payloads(newer));
    }
  }

  lemma OneMoreAlive(config: LinkConfig, n: nat, start: int)
    requires config.Valid()
    ensures Survivors(start, Alive(config, n + 1)) ==
      Survivors(start, Alive(config, n)) + if Intact(config, n) then [(start + n) % WORD_32] else []
  {
    assert Alive(config, n + 1)[..n] == Alive(config, n);
  }

  // ---------- second copies make no gaps ----------

  /**
   * What second copies change: the length and the immediate repeats, by their number; not the gaps,
   * nor which numbers occur.
   */
  ghost predicate Doubled(qs: seq<int>, ss: seq<int>, twins: nat) {
    && |qs| == |ss| + twins
    && GapCount(qs) == GapCount(ss) && MissingTotal(qs) == MissingTotal(ss)
    && AdjacentRepeats(qs) == AdjacentRepeats(ss) + twins
    && (qs == [] <==> ss == [])
    && (qs != [] ==> qs[|qs| - 1] == ss[|ss| - 1])
    && (forall q :: q in qs <==> q in ss)
  }

  lemma BothGrow(qs: seq<int>, ss: seq<int>, twins: nat, q: int)
    requires Doubled(qs, ss, twins)
    ensures Doubled(qs + [q], ss + [q], twins)
  {
    RepeatAppend(qs, q);
    RepeatAppend(ss, q);
    if qs == [] {
      assert ss == [] && qs + [q] == [q] == ss + [q];
    } else {
      OneMoreSurvivor(qs, q);
      OneMoreSurvivor(ss, q);
    }
  }

  lemma TwinGrows(qs: seq<int>, ss: seq<int>, twins: nat)
    requires Doubled(qs, ss, twins) && qs != []
    ensures Doubled(qs + [qs[|qs| - 1]], ss, twins + 1)
  {
    RepeatAppend(qs, qs[|qs| - 1]);
    OneMoreSurvivor(qs, qs[|qs| - 1]);
  }

  lemma NothingDoubled(config: LinkConfig, start: int)
    requires config.Valid()
    ensures Doubled(Arriving(config, start, 0), Survivors(start, Alive(config, 0)), 0)
  {
  }

  lemma {:induction false} ArrivingIsDoubled(config: LinkConfig, start: int, n: nat)
    requires config.Valid()
    ensures Doubled(Arriving(config, start, n), Survivors(start, Alive(config, n)), TwinCount(config, n, false))
  {
    hide Doubled, Drops, Duplicates, Corrupts, Survivors;
    if n == 0 {
      NothingDoubled(config, start);
    } else {
      var qs, ss := Arriving(config, start, n - 1), Survivors(start, Alive(config, n - 1));
      var twins, q := TwinCount(config, n - 1, false), (start + n - 1) % WORD_32;
      ArrivingIsDoubled(config, start, n - 1);
      OneMoreAlive(config, n - 1, start);
      if Intact(config, n - 1) {
        BothGrow(qs, ss, twins, q);
        if Duplicates(config, n - 1) {
          TwinGrows(qs + [q], ss + [q], twins);
          assert qs + [q, q] == qs + [q] + [q];
        }
      } else {
        assert qs + [] == qs && ss + [] == ss;
      }
    }
  }

  // ---------- survivors of less than a full turn of the counter ----------

  /** Packet `i` carries sequence `q`. */
  predicate IsNumberOf(start: int, i: nat, q: int) { q == (start + i) % WORD_32 }

  lemma {:induction false} SurvivorIsCounted(start: int, alive: seq<bool>, q: int)
    requires q in Survivors(start, alive)
    ensures exists i: nat :: i < |alive| && IsNumberOf(start, i, q)
  {
    var n := |alive| - 1;
    if q in Survivors(start, alive[..n]) {
      SurvivorIsCounted(start, alive[..n], q);
    } else {
      assert IsNumberOf(start, n, q);
    }
  }

  lemma NewNumber(start: int, alive: seq<bool>, n: nat)
    requires n == |alive| < WORD_32
    ensures (start + n) % WORD_32 !in Survivors(start, alive)
  {
    var q := (start + n) % WORD_32;
    forall i: nat | i < n
      ensures !IsNumberOf(start, i, q)
    {
      DistinctSteps(start, i, n);
    }
    if q in Survivors(start, alive) {
      SurvivorIsCounted(start, alive, q);
    }
  }

  /** Up to 2^32 packets no sequence number comes twice. */
  lemma {:induction false} SurvivorsDistinct(start: int, alive: seq<bool>)
    requires |alive| <= WORD_32
    ensures |set q | q in Survivors(start, alive)| == |Survivors(start, alive)|
  {
    if alive == [] {
    } else {
      var n := |alive| - 1;
      var init := Survivors(start, alive[..n]);
      SurvivorsDistinct(start, alive[..n]);
      if alive[n] {
        var q := (start + n) % WORD_32;
        NewNumber(start, alive[..n], n);
        assert (set x | x in init + [q]) == (set x | x in init) + {q};
      } else {
        assert Survivors(start, alive) == init;
      }
    }
  }

  // ---------- end to end ----------

  /** A first-in-first-out run, drained or not, fed with a counting encoder. */
  ghost predicate OrderedRun(setup: Setup, turns: seq<Turn>, packets: seq<Codec.TelemetryPacket>, start: int) {
    && setup.Valid() && Clocked(setup, turns)
    && setup.config.jitterMs == 0 && setup.config.reorderWindow <= 1
    && Counting(Run(setup, turns).arrivals, packets, start)
  }

  lemma CountingTake(arrivals: seq<Arrival>, packets: seq<Codec.TelemetryPacket>, start: int, m: nat)
    requires Counting(arrivals, packets, start) && m <= |arrivals|
    ensures |packets| == |arrivals| && Counting(arrivals[..m], packets[..m], start)
  {
    hide Codec.EncodePacket, Codec.ValidatePacket;
    assert forall k :: 0 <= k < m ==> packets[..m][k] == packets[k];
  }

  lemma OrderedRunDecodes(
    setup: Setup, turns: seq<Turn>, packets: seq<Codec.TelemetryPacket>, start: int, received: seq<Received>)
    requires OrderedRun(setup, turns, packets, start) && Delivered(setup, turns, received)
    ensures SentPackets(Run(setup, turns)) <= |Run(setup, turns).arrivals|
    ensures Numbers(SightingsOf(Rows(received))) == Arriving(setup.config, start, SentPackets(Run(setup, turns)))
  {
    hide LinkRun.Run, Clocked, Counting, Codec.DecodePacket;
    var s := Run(setup, turns);
    var m := SentPackets(s);
    OutputIsPrefix(setup, turns);
    RecordingShows(received, Payloads(s.forwarded));
    CountingTake(s.arrivals, packets, start, m);
    DecodedAreArriving(setup.config, s.arrivals[..m], packets[..m], start);
  }

  /**
   * Over every first-in-first-out run, drained or not, duplication or not, and for the packets up to
   * the last one sent: if no loss run reaches 2^31, the inspector's gaps are the loss runs between the
   * first and the last survivor, and the missing packets that it reports are the packets lost there.
   * Its duplicates are the intact second copies and whatever the counter repeats by wrapping, which
   * is nothing up to 2^32 packets.
   */
  lemma GapsTellLosses(
    setup: Setup, turns: seq<Turn>, packets: seq<Codec.TelemetryPacket>, start: int, received: seq<Received>,
    name: string)
    requires OrderedRun(setup, turns, packets, start) && Delivered(setup, turns, received)
    ensures var c := TelemetrySummary(name, Rows(received)).counters;
      var m := SentPackets(Run(setup, turns)); var alive := Alive(setup.config, m);
      var ss := Survivors(start, alive);
      && c.duplicates == TwinCount(setup.config, m, false) + (|ss| - |set q | q in ss|)
      && (m <= WORD_32 ==> c.duplicates == TwinCount(setup.config, m, false))
      && (ShortRuns(alive) ==>
           && c.gaps == |LossRuns(alive)|
           && StatedMissing(GapMessages(SightingsOf(Rows(received)))) == |LostBetween(alive)|)
  {
    hide LinkRun.Run, Clocked, ShortRuns, LossRuns, LostBetween, SightingsOf, GapCount, MissingTotal, Survivors, Alive,
      Counting, TwinCount, Arriving, DistinctSequences, SentPackets, StatedMissing, GapMessages;
    var m := SentPackets(Run(setup, turns));
    var alive := Alive(setup.config, m);
    var ss, s := Survivors(start, alive), SightingsOf(Rows(received));
    MissingIsStated(s);
    OrderedRunDecodes(setup, turns, packets, start, received);
    ArrivingIsDoubled(setup.config, start, m);
    DistinctCount(s);
    forall q
      ensures q in Numbers(s) <==> q in ss
    {
    }
    assert (set q | q in Numbers(s)) == (set q | q in ss);
    if m <= WORD_32 {
      SurvivorsDistinct(start, alive);
    }
    if ShortRuns(alive) {
      GapsAreLossRuns(start, alive);
    }
  }

  /**
   * Across link, receiver, alarm engine and inspector: over every first-in-first-out run, drained or
   * not, whose loss runs are short, the receiver's alarm log holds one sequence-gap event for each loss
   * run between the first and the last survivor and one for each intact second copy.
   */
  lemma AlarmsTellLosses(
    setup: Setup, turns: seq<Turn>, packets: seq<Codec.TelemetryPacket>, start: int, received: seq<Received>,
    policy: Alarms.AlarmPolicy, r: AlarmEvents.Recording, closed: bool)
    requires OrderedRun(setup, turns, packets, start) && Delivered(setup, turns, received)
    requires ShortRuns(Alive(setup.config, SentPackets(Run(setup, turns))))
    ensures var m := SentPackets(Run(setup, turns));
      ReceiverInspection.GapEvents(ReceiverInspection.AlarmLog(r, EntriesOfRun(policy, received), closed)) ==
      if policy.detectGaps then |LossRuns(Alive(setup.config, m))| + TwinCount(setup.config, m, false) else 0
  {
    hide LinkRun.Run, Clocked, ShortRuns, LossRuns, SightingsOf, GapCount, MissingTotal, Survivors, Alive, Counting,
      TwinCount, Arriving, SentPackets, AdjacentRepeats, EntriesOfRun, ReceiverInspection.GapEvents,
      ReceiverInspection.AlarmLog, DistinctSequences;
    var m := SentPackets(Run(setup, turns));
    var alive := Alive(setup.config, m);
    ReceiverInspection.AlarmGapsAreTelemetryGaps(policy, received, r, closed, "telemetry.jsonl");
    OrderedRunDecodes(setup, turns, packets, start, received);
    ArrivingIsDoubled(setup.config, start, m);
    GapsAreLossRuns(start, alive);
    SurvivorsNeverRepeat(start, alive);
  }
}
