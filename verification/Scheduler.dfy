/** The delivery scheduler over an array-backed binary heap. */
module Scheduler {
  import opened Wrappers
  import opened Impairments
  import opened Schedule

  type Item = ScheduledDatagram

  function Parent(j: nat): nat
    requires j > 0
  {
    (j - 1) / 2
  }

  ghost predicate HeapOrdered(s: seq<Item>) {
    forall j {:trigger Parent(j)} :: 0 < j < |s| ==> AtMost(s[Parent(j)], s[j])
  }

  /** Heap order everywhere except between `hole` and its parent. */
  ghost predicate OrderedExceptUp(s: seq<Item>, hole: nat) {
    && (forall j {:trigger Parent(j)} :: 0 < j < |s| && j != hole ==> AtMost(s[Parent(j)], s[j]))
    && (forall j {:trigger Parent(j)} :: 0 < j < |s| && hole > 0 && Parent(j) == hole ==> AtMost(s[Parent(hole)], s[j]))
  }

  /** Heap order everywhere except between `hole` and its children. */
  ghost predicate OrderedExceptDown(s: seq<Item>, hole: nat) {
    && (forall j {:trigger Parent(j)} :: 0 < j < |s| && Parent(j) != hole ==> AtMost(s[Parent(j)], s[j]))
    && (forall j {:trigger Parent(j)} :: 0 < j < |s| && hole > 0 && Parent(j) == hole ==> AtMost(s[Parent(hole)], s[j]))
  }

  lemma {:induction false} RootIsLeast(s: seq<Item>, j: nat)
    requires HeapOrdered(s) && j < |s|
    ensures AtMost(s[0], s[j])
  {
    if j == 0 {
    } else {
      RootIsLeast(s, Parent(j));
      AtMostTransitive(s[0], s[Parent(j)], s[j]);
    }
  }

  function Swapped(s: seq<Item>, i: nat, j: nat): (r: seq<Item>)
    requires i < |s| && j < |s|
    ensures multiset(r) == multiset(s)
  {
    s[i := s[j]][j := s[i]]
  }

  lemma SwapUp(s: seq<Item>, hole: nat)
    requires 0 < hole < |s| && OrderedExceptUp(s, hole) && Before(s[hole], s[Parent(hole)])
    ensures OrderedExceptUp(Swapped(s, Parent(hole), hole), Parent(hole))
  {
    var p := Parent(hole);
    var r := Swapped(s, p, hole);
    forall j | 0 < j < |r| && j != p
      ensures AtMost(r[Parent(j)], r[j])
    {
      if j != hole && Parent(j) == p {
        AtMostTransitive(s[hole], s[p], s[j]);
      }
    }
    forall j | 0 < j < |r| && p > 0 && Parent(j) == p
      ensures AtMost(r[Parent(p)], r[j])
    {
      if j != hole {
        AtMostTransitive(s[Parent(p)], s[p], s[j]);
      }
    }
  }

  lemma SwapDown(s: seq<Item>, hole: nat, child: nat)
    requires hole < child < |s| && Parent(child) == hole && OrderedExceptDown(s, hole)
    requires Before(s[child], s[hole])
    requires forall j {:trigger Parent(j)} :: 0 < j < |s| && Parent(j) == hole ==> AtMost(s[child], s[j])
    ensures OrderedExceptDown(Swapped(s, hole, child), child)
  {
    var r := Swapped(s, hole, child);
    forall j | 0 < j < |r| && Parent(j) != child
      ensures AtMost(r[Parent(j)], r[j])
    {
    }
    forall j | 0 < j < |r| && Parent(j) == child
      ensures AtMost(r[Parent(child)], r[j])
    {
      assert j != child && j != hole;
    }
  }

  lemma AppendedHole(s: seq<Item>, x: Item)
    requires HeapOrdered(s)
    ensures OrderedExceptUp(s + [x], |s|)
  {
    forall j | 0 < j < |s + [x]| && j != |s|
      ensures AtMost((s + [x])[Parent(j)], (s + [x])[j])
    {
      assert (s + [x])[j] == s[j];
    }
  }

  lemma HoleRisen(s: seq<Item>, hole: nat)
    requires hole < |s| && OrderedExceptUp(s, hole)
    requires hole > 0 ==> AtMost(s[Parent(hole)], s[hole])
    ensures HeapOrdered(s)
  {
  }

  lemma NoChildren(s: seq<Item>, hole: nat)
    requires OrderedExceptDown(s, hole) && |s| <= 2 * hole + 1
    ensures HeapOrdered(s)
  {
    forall j | 0 < j < |s|
      ensures Parent(j) != hole
    {
    }
  }

  lemma RootIsLeastOfAll(s: seq<Item>)
    requires HeapOrdered(s) && s != []
    ensures forall y :: y in multiset(s) ==> AtMost(s[0], y)
  {
    forall y | y in multiset(s)
      ensures AtMost(s[0], y)
    {
      var k :| 0 <= k < |s| && s[k] == y;
      RootIsLeast(s, k);
    }
  }

  lemma MoveLastToRoot(s: seq<Item>, r: seq<Item>)
    requires s != [] && HeapOrdered(s)
    requires r == if |s| == 1 then [] else [s[|s| - 1]] + s[1..|s| - 1]
    ensures multiset(s) == multiset(r) + multiset{s[0]}
    ensures OrderedExceptDown(r, 0)
  {
    if |s| == 1 {
      assert s == [s[0]];
    } else {
      assert s == [s[0]] + s[1..|s| - 1] + [s[|s| - 1]];
    }
    forall j | 0 < j < |r| && Parent(j) != 0
      ensures AtMost(r[Parent(j)], r[j])
    {
      assert r[j] == s[j] && r[Parent(j)] == s[Parent(j)];
    }
  }

  lemma LeastChild(s: seq<Item>, hole: nat, child: nat)
    requires child < |s| && (child == 2 * hole + 1 || child == 2 * hole + 2)
    requires child == 2 * hole + 1 && child + 1 < |s| ==> AtMost(s[child], s[child + 1])
    requires child == 2 * hole + 2 ==> Before(s[child], s[child - 1])
    ensures Parent(child) == hole
    ensures forall j {:trigger Parent(j)} :: 0 < j < |s| && Parent(j) == hole ==> AtMost(s[child], s[j])
  {
    forall j | 0 < j < |s| && Parent(j) == hole
      ensures j == 2 * hole + 1 || j == 2 * hole + 2
    {
    }
  }

  lemma FilledHole(s: seq<Item>, hole: nat, child: nat)
    requires child < |s| && hole < |s| && OrderedExceptDown(s, hole) && AtMost(s[hole], s[child])
    requires forall j {:trigger Parent(j)} :: 0 < j < |s| && Parent(j) == hole ==> AtMost(s[child], s[j])
    ensures HeapOrdered(s)
  {
    forall j | 0 < j < |s| && Parent(j) == hole
      ensures AtMost(s[hole], s[j])
    {
      AtMostTransitive(s[hole], s[child], s[j]);
    }
  }

  /** A mutable binary min-heap of deliveries. */
  class DatagramHeap {
    var slots: array<Item>
    var count: nat

    ghost predicate Valid()
      reads this, slots
    {
      count <= slots.Length && HeapOrdered(slots[..count])
    }

    ghost function Contents(): multiset<Item>
      reads this, slots
      requires count <= slots.Length
    {
      multiset(slots[..count])
    }

    constructor ()
      ensures Valid() && fresh(slots)
      ensures count == 0 && Contents() == multiset{}
    {
      slots := new Item[0];
      count := 0;
      new;
      assert slots[..count] == [];
    }

    method Grow()
      requires Valid() && count == slots.Length
      modifies this
      ensures Valid() && fresh(slots) && count < slots.Length
      ensures count == old(count) && slots[..count] == old(slots[..count])
    {
      var placeholder := ScheduledDatagram(0, 0, 0, 0, [], None);
      var larger := new Item[2 * count + 1](i => placeholder);
      for i := 0 to count
        invariant count == old(count) <= slots.Length < larger.Length && slots == old(slots)
        invariant slots[..count] == old(slots[..count])
        invariant larger[..i] == slots[..i]
      {
        larger[i] := slots[i];
      }
      slots := larger;
    }

    method Swap(i: nat, j: nat)
      requires i < count <= slots.Length && j < count
      modifies slots
      ensures slots[..count] == Swapped(old(slots[..count]), i, j)
    {
      slots[i], slots[j] := slots[j], slots[i];
    }

    method SiftUp()
      requires 0 < count <= slots.Length && OrderedExceptUp(slots[..count], count - 1)
      modifies slots
      ensures Valid() && Contents() == old(Contents())
    {
      var hole: nat := count - 1;
      while hole > 0 && Before(slots[hole], slots[Parent(hole)])
        invariant hole < count
        invariant OrderedExceptUp(slots[..count], hole)
        invariant multiset(slots[..count]) == old(multiset(slots[..count]))
      {
        SwapUp(slots[..count], hole);
        Swap(Parent(hole), hole);
        hole := Parent(hole);
      }
      HoleRisen(slots[..count], hole);
    }

    method Push(x: Item)
      requires Valid()
      modifies this, slots
      ensures Valid() && (slots == old(slots) || fresh(slots))
      ensures count == old(count) + 1
      ensures Contents() == old(Contents()) + multiset{x}
    {
      if count == slots.Length {
        Grow();
      }
      ghost var before := slots[..count];
      slots[count] := x;
      count := count + 1;
      assert slots[..count] == before + [x];
      AppendedHole(before, x);
      SiftUp();
    }

    method SmallerChild(hole: nat) returns (child: nat)
      requires 2 * hole + 1 < count <= slots.Length
      ensures hole < child < count && Parent(child) == hole
      ensures forall j {:trigger Parent(j)} :: 0 < j < count && Parent(j) == hole ==>
        AtMost(slots[..count][child], slots[..count][j])
    {
      child := 2 * hole + 1;
      if child + 1 < count && Before(slots[child + 1], slots[child]) {
        child := child + 1;
      }
      LeastChild(slots[..count], hole, child);
    }

    method SiftDown()
      requires count <= slots.Length && OrderedExceptDown(slots[..count], 0)
      modifies slots
      ensures Valid() && Contents() == old(Contents())
    {
      var hole: nat := 0;
      while 2 * hole + 1 < count
        invariant OrderedExceptDown(slots[..count], hole)
        invariant multiset(slots[..count]) == old(multiset(slots[..count]))
        decreases count - hole
      {
        var child := SmallerChild(hole);
        if !Before(slots[child], slots[hole]) {
          FilledHole(slots[..count], hole, child);
          return;
        }
        SwapDown(slots[..count], hole, child);
        Swap(hole, child);
        hole := child;
      }
      NoChildren(slots[..count], hole);
    }

    method Pop() returns (x: Item)
      requires Valid() && count > 0
      modifies this, slots
      ensures Valid() && slots == old(slots)
      ensures count == old(count) - 1
      ensures old(Contents()) == Contents() + multiset{x}
      ensures x == old(slots[0])
      ensures forall y :: y in old(Contents()) ==> AtMost(x, y)
    {
      ghost var before := slots[..count];
      assert HeapOrdered(before);
      x := slots[0];
      RootIsLeastOfAll(before);
      count := count - 1;
      slots[0] := slots[count];
      assert slots[..count] == if count == 0 then [] else [before[count]] + before[1..count];
      MoveLastToRoot(before, slots[..count]);
      SiftDown();
    }
  }

  /** Nothing in `m` sorts before the last element of `ready`. */
  ghost predicate Floor(ready: seq<Item>, m: multiset<Item>) {
    ready != [] ==> forall y :: y in m ==> AtMost(ready[|ready| - 1], y)
  }

  /** The state of the popping loop: `all` is split into what left, by release, and what remains. */
  ghost predicate Taken(
    g: Gate, all: multiset<Item>, ready: seq<Item>, blocked: seq<Item>, remaining: multiset<Item>)
  {
    && all == multiset(ready) + multiset(blocked) + remaining
    && Sorted(ready)
    && Floor(ready, remaining)
    && (forall x :: x in ready ==> Opens(g, x))
    && (forall x :: x in blocked ==> !Opens(g, x))
  }

  lemma TakenStep(
    g: Gate, all: multiset<Item>, ready: seq<Item>, blocked: seq<Item>,
    before: multiset<Item>, item: Item, after: multiset<Item>)
    requires Taken(g, all, ready, blocked, before)
    requires before == after + multiset{item} && item.dueAtNs <= g.nowNs
    requires forall y :: y in before ==> AtMost(item, y)
    ensures Opens(g, item) ==> Taken(g, all, ready + [item], blocked, after)
    ensures !Opens(g, item) ==> Taken(g, all, ready, blocked + [item], after)
  {
    assert item in before;
    assert forall y :: y in after ==> y in before;
    if Opens(g, item) {
      if ready != [] { InsertLast(ready, item); }
      assert multiset(ready + [item]) == multiset(ready) + multiset{item};
    } else {
      assert multiset(blocked + [item]) == multiset(blocked) + multiset{item};
    }
  }

  lemma NoneDue(s: seq<Item>, nowNs: int)
    requires HeapOrdered(s)
    requires s != [] ==> nowNs < s[0].dueAtNs
    ensures forall x :: x in multiset(s) ==> nowNs < x.dueAtNs
  {
    if s != [] { RootIsLeastOfAll(s); }
  }

  /** Schedules immutable outcomes against a clock that callers supply. */
  class DatagramScheduler {
    const heap: DatagramHeap
    var highestPacketIndex: int
    var releasing: bool

    ghost predicate Valid()
      reads this, heap, heap.slots
    {
      heap.Valid() && -1 <= highestPacketIndex
    }

    ghost function Pending(): multiset<Item>
      reads this, heap, heap.slots
      requires Valid()
    {
      heap.Contents()
    }

    constructor ()
      ensures Valid() && fresh(heap) && fresh(heap.slots)
      ensures Pending() == multiset{} && highestPacketIndex == -1 && !releasing
    {
      heap := new DatagramHeap();
      highestPacketIndex := -1;
      releasing := false;
    }

    method PendingCount() returns (n: nat)
      requires Valid()
      ensures n == |Pending()|
    {
      n := heap.count;
    }

    method PushDeliveries(outcome: PacketOutcome, receivedAtNs: int)
      requires Valid()
      modifies heap, heap.slots
      ensures Valid() && (heap.slots == old(heap.slots) || fresh(heap.slots))
      ensures Pending() == old(Pending()) + multiset(Scheduled(outcome, receivedAtNs))
    {
      hide HeapOrdered, Scheduled, ScheduledFor;
      ghost var all := Scheduled(outcome, receivedAtNs);
      for i := 0 to |outcome.deliveries|
        invariant Valid() && (heap.slots == old(heap.slots) || fresh(heap.slots))
        invariant Pending() == old(Pending()) + multiset(all[..i])
      {
        assert all[..i + 1] == all[..i] + [all[i]];
        heap.Push(ScheduledFor(outcome, i, receivedAtNs));
      }
      assert all[..|all|] == all;
    }

    method Enqueue(outcome: PacketOutcome, receivedAtNs: int) returns (r: Result<(), LinkError>)
      requires Valid()
      modifies this, heap, heap.slots
      ensures Valid() && (heap.slots == old(heap.slots) || fresh(heap.slots))
      ensures releasing == old(releasing)
      ensures r.Success? <==> 0 <= receivedAtNs && old(highestPacketIndex) < outcome.packetIndex
      ensures r.Failure? ==> r.error == if receivedAtNs < 0 then NegativeTime else OutcomeOutOfOrder
      ensures r.Failure? ==> Pending() == old(Pending()) && highestPacketIndex == old(highestPacketIndex)
      ensures r.Success? ==>
        && highestPacketIndex == outcome.packetIndex
        && Pending() == old(Pending()) + multiset(Scheduled(outcome, receivedAtNs))
    {
      if receivedAtNs < 0 {
        return Failure(NegativeTime);
      }
      if outcome.packetIndex <= highestPacketIndex {
        return Failure(OutcomeOutOfOrder);
      }
      highestPacketIndex := outcome.packetIndex;
      PushDeliveries(outcome, receivedAtNs);
      return Success(());
    }

    method ReleaseHolds()
      requires Valid()
      modifies this
      ensures Valid() && releasing
      ensures highestPacketIndex == old(highestPacketIndex) && Pending() == old(Pending())
    {
      releasing := true;
    }

    /** One turn of the loop: the least delivery joins the released or the blocked ones. */
    method TakeOne(nowNs: int, ghost all: multiset<Item>, ready: seq<Item>, blocked: seq<Item>)
      returns (ready': seq<Item>, blocked': seq<Item>)
      requires Valid() && heap.count > 0 && heap.slots[0].dueAtNs <= nowNs
      requires Taken(Gate(nowNs, highestPacketIndex, releasing), all, ready, blocked, Pending())
      modifies heap, heap.slots
      ensures Valid() && heap.slots == old(heap.slots) && heap.count == old(heap.count) - 1
      ensures Taken(Gate(nowNs, highestPacketIndex, releasing), all, ready', blocked', Pending())
    {
      hide Taken, Sorted;
      ghost var g := Gate(nowNs, highestPacketIndex, releasing);
      ghost var before := Pending();
      var item := heap.Pop();
      TakenStep(g, all, ready, blocked, before, item, Pending());
      if releasing || item.releaseAfterPacket <= highestPacketIndex {
        return ready + [item], blocked;
      } else {
        return ready, blocked + [item];
      }
    }

    /** The popping loop: everything due leaves the heap, split by release. */
    method TakeDue(nowNs: int) returns (ready: seq<Item>, blocked: seq<Item>)
      requires Valid()
      modifies heap, heap.slots
      ensures Valid() && heap.slots == old(heap.slots)
      ensures old(Pending()) == multiset(ready) + multiset(blocked) + Pending()
      ensures Sorted(ready)
      ensures forall x :: x in ready ==> Opens(Gate(nowNs, highestPacketIndex, releasing), x)
      ensures forall x :: x in blocked ==> !Opens(Gate(nowNs, highestPacketIndex, releasing), x)
      ensures forall x :: x in Pending() ==> nowNs < x.dueAtNs
    {
      ghost var g := Gate(nowNs, highestPacketIndex, releasing);
      ghost var all := Pending();
      blocked, ready := [], [];
      while heap.count > 0 && heap.slots[0].dueAtNs <= nowNs
        invariant Valid() && heap.slots == old(heap.slots)
        invariant Taken(g, all, ready, blocked, Pending())
        decreases heap.count
      {
        ready, blocked := TakeOne(nowNs, all, ready, blocked);
      }
      NoneDue(heap.slots[..heap.count], nowNs);
    }

    method PutBack(blocked: seq<Item>)
      requires Valid()
      modifies heap, heap.slots
      ensures Valid() && (heap.slots == old(heap.slots) || fresh(heap.slots))
      ensures Pending() == old(Pending()) + multiset(blocked)
    {
      hide HeapOrdered;
      for i := 0 to |blocked|
        invariant Valid() && (heap.slots == old(heap.slots) || fresh(heap.slots))
        invariant Pending() == old(Pending()) + multiset(blocked[..i])
      {
        assert blocked[..i + 1] == blocked[..i] + [blocked[i]];
        heap.Push(blocked[i]);
      }
      assert blocked[..|blocked|] == blocked;
    }

    /**
     * Removes, in key order, every delivery that is due and released, and keeps every other one.
     */
    method PopReady(nowNs: int) returns (r: Result<seq<Item>, LinkError>)
      requires Valid()
      modifies heap, heap.slots
      ensures Valid() && (heap.slots == old(heap.slots) || fresh(heap.slots))
      ensures r.Failure? <==> nowNs < 0
      ensures r.Failure? ==> r.error == NegativeTime && Pending() == old(Pending())
      ensures r.Success? ==>
        var g := Gate(nowNs, highestPacketIndex, releasing);
        && Sorted(r.value)
        && old(Pending()) == multiset(r.value) + Pending()
        && (forall x :: x in r.value ==> Opens(g, x))
        && (forall x :: x in Pending() ==> !Opens(g, x))
    {
      if nowNs < 0 {
        return Failure(NegativeTime);
      }
      var ready, blocked := TakeDue(nowNs);
      PutBack(blocked);
      return Success(ready);
    }

    method NextDeadlineNs() returns (deadline: Option<int>)
      requires Valid()
      ensures IsDeadline(deadline, Pending(), highestPacketIndex, releasing)
    {
      deadline := None;
      for i := 0 to heap.count
        invariant IsDeadline(deadline, multiset(heap.slots[..i]), highestPacketIndex, releasing)
      {
        var item := heap.slots[i];
        assert heap.slots[..i + 1] == heap.slots[..i] + [item];
        if releasing || item.releaseAfterPacket <= highestPacketIndex {
          if deadline == None || item.dueAtNs < deadline.value {
            deadline := Some(item.dueAtNs);
          }
        }
      }
    }
  }
}
