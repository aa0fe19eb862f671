/** The order, release rule and abstract agenda behind the delivery scheduler. */
module Schedule {
  import opened Wrappers
  import opened Impairments
  import opened Ordering

  const NANOSECONDS_PER_MILLISECOND := 1_000_000

  datatype ScheduledDatagram = ScheduledDatagram(
    dueAtNs: int,
    packetIndex: nat,
    copyIndex: nat,
    releaseAfterPacket: int,
    payload: Bytes,
    corruptedBit: Option<nat>)

  /** Strict key order: due time, packet, copy, release; payload and bit do not take part. */
  predicate Before(a: ScheduledDatagram, b: ScheduledDatagram) {
    if a.dueAtNs != b.dueAtNs then a.dueAtNs < b.dueAtNs
    else if a.packetIndex != b.packetIndex then a.packetIndex < b.packetIndex
    else if a.copyIndex != b.copyIndex then a.copyIndex < b.copyIndex
    else a.releaseAfterPacket < b.releaseAfterPacket
  }

  function TupleOf(x: ScheduledDatagram): Key { [x.dueAtNs, x.packetIndex, x.copyIndex, x.releaseAfterPacket] }

  lemma LessHead(a: int, x: Key, b: int, y: Key)
    ensures Less([a] + x, [b] + y) <==> a < b || (a == b && Less(x, y))
  {
    assert ([a] + x)[1..] == x && ([b] + y)[1..] == y;
  }

  /** That is the order of the tuples. */
  lemma BeforeIsTupleOrder(a: ScheduledDatagram, b: ScheduledDatagram)
    ensures Before(a, b) <==> Less(TupleOf(a), TupleOf(b))
  {
    hide Less;
    var x, y := TupleOf(a), TupleOf(b);
    assert x == [x[0]] + x[1..] && x[1..] == [x[1]] + x[2..] && x[2..] == [x[2]] + x[3..] && x[3..] == [x[3]] + [];
    assert y == [y[0]] + y[1..] && y[1..] == [y[1]] + y[2..] && y[2..] == [y[2]] + y[3..] && y[3..] == [y[3]] + [];
    LessHead(x[0], x[1..], y[0], y[1..]);
    LessHead(x[1], x[2..], y[1], y[2..]);
    LessHead(x[2], x[3..], y[2], y[3..]);
    LessHead(x[3], [], y[3], []);
    LessIsTotal([], []);
  }

  predicate AtMost(a: ScheduledDatagram, b: ScheduledDatagram) {
    !Before(b, a)
  }

  lemma AtMostTransitive(a: ScheduledDatagram, b: ScheduledDatagram, c: ScheduledDatagram)
    requires AtMost(a, b) && AtMost(b, c)
    ensures AtMost(a, c)
  {
  }

  predicate Sorted(s: seq<ScheduledDatagram>) {
    forall i, j :: 0 <= i < j < |s| ==> AtMost(s[i], s[j])
  }

  /** What the scheduler knows when it is asked for deliveries. */
  datatype Gate = Gate(nowNs: int, highest: int, releaseHolds: bool)

  predicate Released(x: ScheduledDatagram, highest: int, releaseHolds: bool) {
    releaseHolds || x.releaseAfterPacket <= highest
  }

  predicate Opens(g: Gate, x: ScheduledDatagram) {
    x.dueAtNs <= g.nowNs && Released(x, g.highest, g.releaseHolds)
  }

  /** The queue entry of delivery `copy` of an outcome received at the given time. */
  function ScheduledFor(outcome: PacketOutcome, copy: nat, receivedAtNs: int): ScheduledDatagram
    requires copy < |outcome.deliveries|
  {
    var delivery := outcome.deliveries[copy];
    ScheduledDatagram(
      receivedAtNs + delivery.delayMs * NANOSECONDS_PER_MILLISECOND,
      outcome.packetIndex,
      delivery.copyIndex,
      outcome.packetIndex + delivery.holdPackets,
      delivery.payload,
      delivery.corruptedBit)
  }

  function Scheduled(outcome: PacketOutcome, receivedAtNs: int): (r: seq<ScheduledDatagram>)
    ensures |r| == |outcome.deliveries|
    ensures forall k :: 0 <= k < |r| ==> r[k] == ScheduledFor(outcome, k, receivedAtNs)
  {
    seq(|outcome.deliveries|, k requires 0 <= k < |outcome.deliveries| => ScheduledFor(outcome, k, receivedAtNs))
  }

  /** The deliveries a gate lets through, in order. */
  function Ready(s: seq<ScheduledDatagram>, g: Gate): seq<ScheduledDatagram> {
    if s == [] then []
    else if Opens(g, s[|s| - 1]) then Ready(s[..|s| - 1], g) + [s[|s| - 1]]
    else Ready(s[..|s| - 1], g)
  }

  /** The deliveries a gate keeps back, in order. */
  function Held(s: seq<ScheduledDatagram>, g: Gate): seq<ScheduledDatagram> {
    if s == [] then []
    else if Opens(g, s[|s| - 1]) then Held(s[..|s| - 1], g)
    else Held(s[..|s| - 1], g) + [s[|s| - 1]]
  }

  lemma InsertLast(s: seq<ScheduledDatagram>, x: ScheduledDatagram)
    requires s != [] && AtMost(s[|s| - 1], x)
    ensures Sorted(s) ==> Sorted(s + [x])
  {
    if Sorted(s) {
      forall i | 0 <= i < |s|
        ensures AtMost(s[i], x)
      {
        if i < |s| - 1 { AtMostTransitive(s[i], s[|s| - 1], x); }
      }
    }
  }

  lemma InsertEarlier(s: seq<ScheduledDatagram>, x: ScheduledDatagram, r: seq<ScheduledDatagram>)
    requires s != [] && Sorted(s) && !AtMost(s[|s| - 1], x)
    requires multiset(r) == multiset(s[..|s| - 1]) + multiset{x} && Sorted(r)
    ensures Sorted(r + [s[|s| - 1]])
  {
    forall i | 0 <= i < |r|
      ensures AtMost(r[i], s[|s| - 1])
    {
      assert r[i] in multiset(r);
      if r[i] != x {
        assert r[i] in multiset(s[..|s| - 1]);
        assert r[i] in s[..|s| - 1];
      }
    }
  }

  /** Sorted insertion, after any equal keys. */
  function Insert(s: seq<ScheduledDatagram>, x: ScheduledDatagram): (r: seq<ScheduledDatagram>)
    ensures multiset(r) == multiset(s) + multiset{x}
    ensures Sorted(s) ==> Sorted(r)
  {
    if s == [] then [x]
    else
      var last := s[|s| - 1];
      assert s == s[..|s| - 1] + [last];
      if AtMost(last, x) then InsertLast(s, x); s + [x]
      else
        var r := Insert(s[..|s| - 1], x);
        if Sorted(s) then InsertEarlier(s, x, r); r + [last] else r + [last]
  }

  // ---------- what opening a gate means ----------

  lemma {:induction false} ReadyHeldMembers(s: seq<ScheduledDatagram>, g: Gate)
    ensures forall x :: x in Ready(s, g) <==> x in s && Opens(g, x)
    ensures forall x :: x in Held(s, g) <==> x in s && !Opens(g, x)
  {
    if s == [] {
    } else {
      assert s == s[..|s| - 1] + [s[|s| - 1]];
      ReadyHeldMembers(s[..|s| - 1], g);
    }
  }

  lemma {:induction false} ReadyHeldPartition(s: seq<ScheduledDatagram>, g: Gate)
    ensures multiset(Ready(s, g)) + multiset(Held(s, g)) == multiset(s)
  {
    if s == [] {
    } else {
      assert s == s[..|s| - 1] + [s[|s| - 1]];
      ReadyHeldPartition(s[..|s| - 1], g);
    }
  }

  lemma AppendSorted(init: seq<ScheduledDatagram>, part: seq<ScheduledDatagram>, last: ScheduledDatagram)
    requires Sorted(part) && forall x :: x in part ==> x in init
    requires forall i :: 0 <= i < |init| ==> AtMost(init[i], last)
    ensures Sorted(part + [last])
  {
    forall i | 0 <= i < |part|
      ensures AtMost(part[i], last)
    {
      assert part[i] in init;
    }
  }

  lemma {:induction false} ReadyHeldSorted(s: seq<ScheduledDatagram>, g: Gate)
    requires Sorted(s)
    ensures Sorted(Ready(s, g)) && Sorted(Held(s, g))
  {
    if s == [] {
    } else {
      var init, last := s[..|s| - 1], s[|s| - 1];
      ReadyHeldSorted(init, g);
      ReadyHeldMembers(init, g);
      AppendSorted(init, Ready(init, g), last);
      AppendSorted(init, Held(init, g), last);
    }
  }

  lemma {:induction false} GateSplits(s: seq<ScheduledDatagram>, t: seq<ScheduledDatagram>, g: Gate)
    ensures Ready(s + t, g) == Ready(s, g) + Ready(t, g)
    ensures Held(s + t, g) == Held(s, g) + Held(t, g)
    decreases |t|
  {
    if t == [] {
      assert s + t == s;
    } else {
      var init, last := t[..|t| - 1], t[|t| - 1];
      assert (s + t)[..|s + t| - 1] == s + init;
      GateSplits(s, init, g);
    }
  }

  lemma DueByLast(s: seq<ScheduledDatagram>, last: ScheduledDatagram, x: ScheduledDatagram)
    requires Sorted(s + [last]) && x in s
    ensures x.dueAtNs <= last.dueAtNs
  {
    var k :| 0 <= k < |s| && s[k] == x;
    assert AtMost((s + [last])[k], (s + [last])[|s|]);
  }

  lemma NothingLaterOpens(
    s: seq<ScheduledDatagram>, last: ScheduledDatagram, early: Gate, late: Gate)
    requires Sorted(s + [last]) && Opens(early, last)
    requires early.highest == late.highest && early.releaseHolds == late.releaseHolds
    ensures Ready(Held(s, early), late) == []
  {
    ReadyHeldMembers(s, early);
    ReadyHeldMembers(Held(s, early), late);
    if Ready(Held(s, early), late) != [] {
      var x := Ready(Held(s, early), late)[0];
      assert x in Ready(Held(s, early), late);
      DueByLast(s, last, x);
    }
  }

  /**
   * Popping at an earlier and then at a later time, with nothing enqueued or released between,
   * gives the same deliveries in the same order as popping once at the later time.
   */
  lemma {:induction false} PopTwiceIsPopOnce(s: seq<ScheduledDatagram>, early: Gate, late: Gate)
    requires Sorted(s)
    requires early.nowNs <= late.nowNs
    requires early.highest == late.highest && early.releaseHolds == late.releaseHolds
    ensures Ready(s, early) + Ready(Held(s, early), late) == Ready(s, late)
    ensures Held(Held(s, early), late) == Held(s, late)
  {
    if s == [] {
    } else {
      var init, last := s[..|s| - 1], s[|s| - 1];
      PopTwiceIsPopOnce(init, early, late);
      if Opens(early, last) {
        NothingLaterOpens(init, last, early, late);
      } else {
        assert (Held(init, early) + [last])[..|Held(init, early)|] == Held(init, early);
      }
    }
  }

  // ---------- one sorted sequence per multiset ----------

  /** Deliveries are identified by packet and copy. */
  ghost predicate Identified(m: multiset<ScheduledDatagram>) {
    && (forall x :: x in m ==> m[x] == 1)
    && (forall x, y :: x in m && y in m && x.packetIndex == y.packetIndex && x.copyIndex == y.copyIndex ==> x == y)
  }

  lemma LastIsMaximal(s: seq<ScheduledDatagram>, x: ScheduledDatagram)
    requires Sorted(s) && x in s
    ensures AtMost(x, s[|s| - 1])
  {
  }

  lemma DropLast(s: seq<ScheduledDatagram>)
    requires s != []
    ensures multiset(s) == multiset(s[..|s| - 1]) + multiset{s[|s| - 1]}
  {
    assert s == s[..|s| - 1] + [s[|s| - 1]];
  }

  lemma SubIdentified(m: multiset<ScheduledDatagram>, r: multiset<ScheduledDatagram>)
    requires Identified(m) && r <= m
    ensures Identified(r)
  {
    forall x | x in r
      ensures x in m && r[x] == 1
    {
      assert r[x] <= m[x];
    }
  }

  lemma DropBoth(s: seq<ScheduledDatagram>, t: seq<ScheduledDatagram>)
    requires s != [] && t != [] && s[|s| - 1] == t[|t| - 1]
    requires multiset(s) == multiset(t) && Identified(multiset(s))
    ensures multiset(s[..|s| - 1]) == multiset(t[..|t| - 1])
    ensures Identified(multiset(s[..|s| - 1]))
  {
    DropLast(s);
    DropLast(t);
    var x := s[|s| - 1];
    assert multiset(s[..|s| - 1]) == multiset(s) - multiset{x};
    assert multiset(t[..|t| - 1]) == multiset(t) - multiset{x};
    SubIdentified(multiset(s), multiset(s[..|s| - 1]));
  }

  lemma SameSize(s: seq<ScheduledDatagram>, t: seq<ScheduledDatagram>)
    requires multiset(s) == multiset(t)
    ensures |s| == |t|
  {
    assert |multiset(s)| == |s| && |multiset(t)| == |t|;
  }

  lemma LastsAgree(s: seq<ScheduledDatagram>, t: seq<ScheduledDatagram>)
    requires s != [] && t != [] && Sorted(s) && Sorted(t)
    requires multiset(s) == multiset(t)
    requires Identified(multiset(s))
    ensures s[|s| - 1] == t[|t| - 1]
  {
    var x, y := s[|s| - 1], t[|t| - 1];
    assert x in multiset(s) && y in multiset(t);
    LastIsMaximal(s, y);
    LastIsMaximal(t, x);
  }

  /** With identified deliveries the key order leaves only one sorted arrangement. */
  lemma {:induction false} SortedIsUnique(s: seq<ScheduledDatagram>, t: seq<ScheduledDatagram>)
    requires Sorted(s) && Sorted(t)
    requires multiset(s) == multiset(t)
    requires Identified(multiset(s))
    ensures s == t
  {
    hide Identified, Before;
    SameSize(s, t);
    if s == [] {
    } else {
      LastsAgree(s, t);
      DropBoth(s, t);
      SortedIsUnique(s[..|s| - 1], t[..|t| - 1]);
      assert s == s[..|s| - 1] + [s[|s| - 1]];
      assert t == t[..|t| - 1] + [t[|t| - 1]];
    }
  }

  lemma SplitIsUnique(
    a: multiset<ScheduledDatagram>, b: multiset<ScheduledDatagram>,
    c: multiset<ScheduledDatagram>, d: multiset<ScheduledDatagram>, g: Gate)
    requires a + b == c + d
    requires forall x :: x in a || x in c ==> Opens(g, x)
    requires forall x :: x in b || x in d ==> !Opens(g, x)
    ensures a == c && b == d
  {
    forall x: ScheduledDatagram
      ensures a[x] == c[x] && b[x] == d[x]
    {
      assert (a + b)[x] == (c + d)[x];
      if Opens(g, x) {
        assert x !in b && x !in d;
      } else {
        assert x !in a && x !in c;
      }
    }
  }

  /** Any sorted selection that opens the gate, out of contents that afterwards hold nothing open, is `Ready`. */
  lemma SelectionIsReady(
    agenda: seq<ScheduledDatagram>, g: Gate,
    ready: seq<ScheduledDatagram>, rest: multiset<ScheduledDatagram>)
    requires Sorted(agenda) && Identified(multiset(agenda))
    requires Sorted(ready) && multiset(agenda) == multiset(ready) + rest
    requires forall x :: x in ready ==> Opens(g, x)
    requires forall x :: x in rest ==> !Opens(g, x)
    ensures ready == Ready(agenda, g)
    ensures rest == multiset(Held(agenda, g))
  {
    ReadyHeldMembers(agenda, g);
    ReadyHeldPartition(agenda, g);
    ReadyHeldSorted(agenda, g);
    var r, h := multiset(Ready(agenda, g)), multiset(Held(agenda, g));
    SplitIsUnique(multiset(ready), rest, r, h, g);
    SubIdentified(multiset(agenda), r);
    SortedIsUnique(ready, Ready(agenda, g));
  }

  // ---------- deadlines ----------

  /** The earliest due time among released deliveries of `m`. */
  ghost predicate IsDeadline(
    d: Option<int>, m: multiset<ScheduledDatagram>, highest: int, releaseHolds: bool)
  {
    match d
    case None => forall x :: x in m ==> !Released(x, highest, releaseHolds)
    case Some(t) =>
      && (exists x :: x in m && Released(x, highest, releaseHolds) && x.dueAtNs == t)
      && (forall x :: x in m && Released(x, highest, releaseHolds) ==> t <= x.dueAtNs)
  }

  /** Something is ready exactly when the deadline has come. */
  lemma DeadlineIsReadiness(agenda: seq<ScheduledDatagram>, g: Gate, d: Option<int>)
    requires IsDeadline(d, multiset(agenda), g.highest, g.releaseHolds)
    ensures Ready(agenda, g) != [] <==> d.Some? && d.value <= g.nowNs
  {
    ReadyHeldMembers(agenda, g);
    if Ready(agenda, g) != [] {
      var x := Ready(agenda, g)[0];
      assert x in Ready(agenda, g);
      assert x in multiset(agenda);
    }
    if d.Some? && d.value <= g.nowNs {
      var x :| x in multiset(agenda) && Released(x, g.highest, g.releaseHolds) && x.dueAtNs == d.value;
      assert x in agenda && Opens(g, x);
      assert x in Ready(agenda, g);
    }
  }
}
