/** What gap diagnostics say about packets lost on the way, and what the alarm engine says of the same stream. */
module LossAccounting {
  import opened Wrappers
  import opened SequenceInspection
  import opened Words
  import Alarms
  import Codec

  /** The sequence numbers that arrive when packet `i` carries `start + i` modulo 2^32. */
  function Survivors(start: int, alive: seq<bool>): seq<int> {
    if alive == [] then []
    else
      var n := |alive| - 1;
      Survivors(start, alive[..n]) + (if alive[n] then [(start + n) % WORD_32] else [])
  }

  ghost predicate SurvivorBefore(alive: seq<bool>, i: nat) { exists j :: 0 <= j < i && j < |alive| && alive[j] }
  ghost predicate SurvivorAfter(alive: seq<bool>, i: nat) { exists j :: i < j < |alive| && alive[j] }

  ghost predicate StartsRun(alive: seq<bool>, i: nat) {
    i + 1 < |alive| && alive[i] && !alive[i + 1] && SurvivorAfter(alive, i)
  }

  ghost predicate IsLost(alive: seq<bool>, i: nat) {
    i < |alive| && !alive[i] && SurvivorBefore(alive, i) && SurvivorAfter(alive, i)
  }

  /** Where a loss run begins: a survivor whose successor is lost, with another survivor to come. */
  ghost function LossRuns(alive: seq<bool>): set<nat> {
    set i: nat | i < |alive| && StartsRun(alive, i)
  }

  /** What is lost between the first and the last survivor. */
  ghost function LostBetween(alive: seq<bool>): set<nat> {
    set i: nat | i < |alive| && IsLost(alive, i)
  }

  /** `i` and `j` are consecutive survivors. */
  ghost predicate Consecutive(alive: seq<bool>, i: nat, j: nat) {
    i < j < |alive| && alive[i] && alive[j] && forall k :: i < k < j ==> !alive[k]
  }

  /** Every loss run between survivors is shorter than 2^31. */
  ghost predicate ShortRuns(alive: seq<bool>) {
    forall i: nat, j: nat {:trigger Consecutive(alive, i, j)} :: Consecutive(alive, i, j) ==> j - i - 1 < WORD_32 / 2
  }

  /** The last survivor, if any. */
  function LastSurvivor(alive: seq<bool>): (p: Option<nat>)
    ensures p.None? <==> forall k :: 0 <= k < |alive| ==> !alive[k]
    ensures p.Some? ==> p.value < |alive| && alive[p.value] && forall k :: p.value < k < |alive| ==> !alive[k]
  {
    if alive == [] then None
    else if alive[|alive| - 1] then Some(|alive| - 1)
    else LastSurvivor(alive[..|alive| - 1])
  }

  lemma {:induction false} LastNumber(start: int, alive: seq<bool>)
    ensures var qs, p := Survivors(start, alive), LastSurvivor(alive);
      && (qs == [] <==> p.None?)
      && (p.Some? ==> qs[|qs| - 1] == (start + p.value) % WORD_32)
  {
    if alive == [] || alive[|alive| - 1] {
    } else {
      LastNumber(start, alive[..|alive| - 1]);
    }
  }

  lemma Congruent(x: int, d: nat)
    requires d < WORD_32
    ensures ((x + d) % WORD_32 - x % WORD_32) % WORD_32 == d
    ensures (x % WORD_32 + d) % WORD_32 == (x + d) % WORD_32
  {
  }

  lemma DistinctSteps(x: int, c: nat, d: nat)
    requires c < WORD_32 && d < WORD_32 && c != d
    ensures (x + c) % WORD_32 != (x + d) % WORD_32
  {
    Congruent(x, c);
    Congruent(x, d);
  }

  /** The distance between two counter values a whole number of steps apart. */
  lemma Distance(a: int, p: nat, n: nat)
    requires p < n && n - p <= WORD_32 / 2
    ensures ((a + n) % WORD_32 - (a + p) % WORD_32) % WORD_32 == n - p
    ensures (a + n) % WORD_32 != (a + p) % WORD_32
    ensures Expected((a + p) % WORD_32) == (a + n) % WORD_32 <==> n - p == 1
  {
    var x, d := a + p, n - p;
    assert a + n == x + d;
    Congruent(x, d);
    Congruent(x, 1);
    if d != 1 { DistinctSteps(x, 1, d); }
    DistinctSteps(x, 0, d);
  }

  /** The gap between consecutive survivors `p` and `n`, and what it reports missing. */
  lemma GapBetween(start: int, p: nat, n: nat)
    requires p < n && n - p - 1 < WORD_32 / 2
    ensures var previous, current := (start + p) % WORD_32, (start + n) % WORD_32;
      && (IsGap(previous, current) <==> n - p > 1)
      && (n - p > 1 ==> MissingBetween(previous, current) == Some(n - p - 1))
  {
    Distance(start, p, n);
  }

  function Interval(a: nat, b: nat): (r: set<nat>)
    ensures forall k :: k in r <==> a <= k < b
    ensures |r| == if a <= b then b - a else 0
    decreases b
  {
    if a >= b then {} else Interval(a, b - 1) + {b - 1}
  }

  lemma AfterMeansBeforeLast(alive: seq<bool>, i: nat)
    ensures SurvivorAfter(alive, i) <==> LastSurvivor(alive).Some? && i < LastSurvivor(alive).value
  {
    if LastSurvivor(alive).Some? && i < LastSurvivor(alive).value {
      assert alive[LastSurvivor(alive).value];
    }
  }

  lemma SurvivorsOfPrefix(alive: seq<bool>, i: nat)
    requires alive != []
    ensures var init := alive[..|alive| - 1];
      && (i < |alive| ==> (SurvivorBefore(init, i) <==> SurvivorBefore(alive, i)))
      && (SurvivorAfter(alive, i) <==> SurvivorAfter(init, i) || (i < |init| && alive[|alive| - 1]))
  {
    var init := alive[..|alive| - 1];
    if i < |alive| && SurvivorBefore(alive, i) {
      var j :| 0 <= j < i && j < |alive| && alive[j];
      assert init[j];
    }
    if SurvivorAfter(alive, i) {
      var j :| i < j < |alive| && alive[j];
      if j < |init| { assert init[j]; }
    }
    if SurvivorAfter(init, i) {
      var j :| i < j < |init| && init[j];
      assert alive[j];
    }
  }

  /** One more packet closes the run behind it if it survives, and otherwise changes nothing yet. */
  lemma ElementStep(alive: seq<bool>, i: nat)
    requires alive != []
    ensures var n := |alive| - 1; var init := alive[..n]; var p := LastSurvivor(init);
      && (StartsRun(alive, i) <==> StartsRun(init, i) || (alive[n] && p == Some(i) && n - i > 1))
      && (IsLost(alive, i) <==> IsLost(init, i) || (alive[n] && p.Some? && p.value < i < n))
      && (p == Some(i) ==> !StartsRun(init, i))
      && (p.Some? && p.value < i ==> !IsLost(init, i))
  {
    hide LastSurvivor;
    var n := |alive| - 1;
    var init := alive[..n];
    var p := LastSurvivor(init);
    SurvivorsOfPrefix(alive, i);
    AfterMeansBeforeLast(init, i);
    if p.Some? && p.value < i { assert init[p.value] && SurvivorBefore(init, i); }
  }

  lemma SizesAdd(whole: set<nat>, a: set<nat>, b: set<nat>)
    requires forall i: nat :: i in whole <==> i in a || i in b
    requires forall i: nat :: i in b ==> i !in a
    ensures |whole| == |a| + |b|
  {
    assert whole == a + b && a !! b;
  }

  lemma OutOfRange(alive: seq<bool>, i: nat)
    requires i >= |alive|
    ensures !StartsRun(alive, i) && !IsLost(alive, i)
  {
  }

  lemma RunsStep(alive: seq<bool>)
    requires alive != []
    ensures var n := |alive| - 1; var init := alive[..n]; var p := LastSurvivor(init);
      |LossRuns(alive)| == |LossRuns(init)| + (if alive[n] && p.Some? && n - p.value > 1 then 1 else 0)
  {
    hide LastSurvivor, StartsRun;
    var n := |alive| - 1;
    var init := alive[..n];
    var p := LastSurvivor(init);
    var new_: set<nat> := if alive[n] && p.Some? && n - p.value > 1 then {p.value} else {};
    forall i: nat
      ensures i in LossRuns(alive) <==> i in LossRuns(init) || i in new_
      ensures i in new_ ==> i !in LossRuns(init)
    {
      ElementStep(alive, i);
      if i >= n { OutOfRange(init, i); }
      if i >= |alive| { OutOfRange(alive, i); }
    }
    SizesAdd(LossRuns(alive), LossRuns(init), new_);
  }

  lemma LostStep(alive: seq<bool>)
    requires alive != []
    ensures var n := |alive| - 1; var init := alive[..n]; var p := LastSurvivor(init);
      |LostBetween(alive)| == |LostBetween(init)| + (if alive[n] && p.Some? then n - p.value - 1 else 0)
  {
    hide LastSurvivor, IsLost;
    var n := |alive| - 1;
    var init := alive[..n];
    var p := LastSurvivor(init);
    var new_: set<nat> := if alive[n] && p.Some? then Interval(p.value + 1, n) else {};
    forall i: nat
      ensures i in LostBetween(alive) <==> i in LostBetween(init) || i in new_
      ensures i in new_ ==> i !in LostBetween(init)
    {
      ElementStep(alive, i);
      if i >= n { OutOfRange(init, i); }
      if i >= |alive| { OutOfRange(alive, i); }
    }
    SizesAdd(LostBetween(alive), LostBetween(init), new_);
  }

  lemma ShortPrefix(alive: seq<bool>)
    requires alive != [] && ShortRuns(alive)
    ensures ShortRuns(alive[..|alive| - 1])
  {
    var init := alive[..|alive| - 1];
    forall i: nat, j: nat | Consecutive(init, i, j)
      ensures j - i - 1 < WORD_32 / 2
    {
      assert Consecutive(alive, i, j);
    }
  }

  lemma FirstSurvivor(q: int)
    ensures GapCount([q]) == GapCount([]) && MissingTotal([q]) == MissingTotal([])
  {
  }

  lemma OneMoreSurvivor(qs: seq<int>, q: int)
    requires qs != []
    ensures var last := qs[|qs| - 1];
      && GapCount(qs + [q]) == GapCount(qs) + (if IsGap(last, q) then 1 else 0)
      && MissingTotal(qs + [q]) == MissingTotal(qs)
           + (if IsGap(last, q) && MissingBetween(last, q).Some? then MissingBetween(last, q).value else 0)
  {
    assert (qs + [q])[..|qs|] == qs;
  }

  /** What one more packet adds to the inspector's numbers. */
  lemma SurvivorStep(start: int, alive: seq<bool>)
    requires alive != [] && ShortRuns(alive)
    ensures var n := |alive| - 1; var init := alive[..n]; var p := LastSurvivor(init);
      var gap := if alive[n] && p.Some? then n - p.value - 1 else 0;
      && GapCount(Survivors(start, alive)) == GapCount(Survivors(start, init)) + (if gap > 0 then 1 else 0)
      && MissingTotal(Survivors(start, alive)) == MissingTotal(Survivors(start, init)) + gap
  {
    hide GapCount, MissingTotal, IsGap, MissingBetween, LastSurvivor;
    var n := |alive| - 1;
    var init := alive[..n];
    var qs, q := Survivors(start, init), (start + n) % WORD_32;
    LastNumber(start, init);
    var p := LastSurvivor(init);
    if alive[n] {
      if p.Some? {
        assert Consecutive(alive, p.value, n);
        GapBetween(start, p.value, n);
        OneMoreSurvivor(qs, q);
      } else {
        assert qs + [q] == [q];
        FirstSurvivor(q);
      }
    } else {
      assert qs + [] == qs;
    }
  }

  /**
   * Loss accounting: when what arrives is what survives of a consecutive 32-bit counter and no loss
   * run reaches 2^31, the gaps are the loss runs between first and last survivor, and the missing
   * counts add up to the packets lost there, whatever the counter's start.
   */
  lemma {:induction false} GapsAreLossRuns(start: int, alive: seq<bool>)
    requires ShortRuns(alive)
    ensures GapCount(Survivors(start, alive)) == |LossRuns(alive)|
    ensures MissingTotal(Survivors(start, alive)) == |LostBetween(alive)|
  {
    if alive == [] {
      assert LossRuns(alive) == {} && LostBetween(alive) == {};
    } else {
      var n := |alive| - 1;
      var init := alive[..n];
      ShortPrefix(alive);
      GapsAreLossRuns(start, init);
      RunsStep(alive);
      LostStep(alive);
      SurvivorStep(start, alive);
    }
  }

  // ---------- the alarm engine on the same stream ----------

  function AdjacentRepeats(qs: seq<int>): nat {
    if |qs| < 2 then 0
    else AdjacentRepeats(qs[..|qs| - 1]) + (if qs[|qs| - 2] == qs[|qs| - 1] then 1 else 0)
  }

  lemma NoRepeat()
    ensures AdjacentRepeats([]) == 0
  {
  }

  lemma RepeatAppend(qs: seq<int>, q: int)
    ensures AdjacentRepeats(qs + [q]) == AdjacentRepeats(qs) + (if qs != [] && qs[|qs| - 1] == q then 1 else 0)
  {
    assert (qs + [q])[..|qs|] == qs;
  }

  /** Short loss runs never make the counter arrive at the same number again. */
  lemma {:induction false} SurvivorsNeverRepeat(start: int, alive: seq<bool>)
    requires ShortRuns(alive)
    ensures AdjacentRepeats(Survivors(start, alive)) == 0
  {
    hide AdjacentRepeats;
    if alive == [] {
      assert Survivors(start, alive) == [];
      NoRepeat();
    } else {
      var n := |alive| - 1;
      var init := alive[..n];
      ShortPrefix(alive);
      SurvivorsNeverRepeat(start, init);
      LastNumber(start, init);
      var p := LastSurvivor(init);
      if alive[n] {
        RepeatAppend(Survivors(start, init), (start + n) % WORD_32);
        if p.Some? {
          assert Consecutive(alive, p.value, n);
          Distance(start, p.value, n);
        }
      } else {
        assert Survivors(start, alive) == Survivors(start, init);
      }
    }
  }

  function SequencesOf(packets: seq<Codec.TelemetryPacket>): (qs: seq<int>)
    ensures |qs| == |packets| && forall k :: 0 <= k < |qs| ==> qs[k] == packets[k].sequence
  {
    seq(|packets|, k requires 0 <= k < |packets| => packets[k].sequence)
  }

  lemma LastSequence(policy: Alarms.AlarmPolicy, packets: seq<Codec.TelemetryPacket>)
    ensures Alarms.StateAfter(policy, packets).lastSequence ==
      if packets == [] then None else Some(packets[|packets| - 1].sequence)
  {
  }

  lemma RepeatIsNotNext(q: int)
    ensures Expected(q) != q
  {
  }

  /** The engine's gap transitions are the inspector's gaps and, besides, every immediate repeat. */
  lemma {:induction false} EngineGaps(policy: Alarms.AlarmPolicy, packets: seq<Codec.TelemetryPacket>)
    ensures Alarms.CountIdentity(Alarms.AllTransitions(policy, packets), Alarms.SequenceGap) ==
      if policy.detectGaps then GapCount(SequencesOf(packets)) + AdjacentRepeats(SequencesOf(packets)) else 0
  {
    hide Alarms.Transitions, Alarms.NextState;
    if packets == [] {
    } else {
      var init, last := packets[..|packets| - 1], packets[|packets| - 1];
      var s := Alarms.StateAfter(policy, init);
      EngineGaps(policy, init);
      LastSequence(policy, init);
      Alarms.PacketCounts(policy, s, last);
      Alarms.CountConcat(Alarms.AllTransitions(policy, init), Alarms.Transitions(policy, s, last), Alarms.SequenceGap);
      var qs := SequencesOf(packets);
      assert qs[..|init|] == SequencesOf(init);
      if init != [] {
        RepeatIsNotNext(init[|init| - 1].sequence);
      }
    }
  }
}
