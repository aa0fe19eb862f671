/** Diagnostics of the sequence numbers in one telemetry recording. */
module SequenceInspection {
  import opened Wrappers
  import opened Correlation
  import opened SessionModels
  import opened TelemetryRecording
  import opened Words

  /** A decoded row's index and sequence number. */
  datatype Sighting = Sighting(index: nat, sequence: int)

  function Sightings(ds: seq<Decoded>): (r: seq<Sighting>)
    ensures |r| == |ds|
    ensures forall k :: 0 <= k < |r| ==> r[k] == Sighting(ds[k].index, ds[k].packet.sequence)
  {
    seq(|ds|, k requires 0 <= k < |ds| => Sighting(ds[k].index, ds[k].packet.sequence))
  }

  function Numbers(sightings: seq<Sighting>): (qs: seq<int>)
    ensures |qs| == |sightings| && forall k :: 0 <= k < |qs| ==> qs[k] == sightings[k].sequence
  {
    seq(|sightings|, k requires 0 <= k < |sightings| => sightings[k].sequence)
  }

  /** The rows that carry sequence `q`, in order. */
  function IndicesWith(sightings: seq<Sighting>, q: int): seq<nat> {
    if sightings == [] then []
    else
      var last := sightings[|sightings| - 1];
      IndicesWith(sightings[..|sightings| - 1], q) + (if last.sequence == q then [last.index] else [])
  }

  function InsertAscending(qs: seq<int>, q: int): (r: seq<int>)
    ensures |qs| <= |r| <= |qs| + 1
  {
    if qs == [] || qs[|qs| - 1] < q then qs + [q]
    else if qs[|qs| - 1] == q then qs
    else InsertAscending(qs[..|qs| - 1], q) + [qs[|qs| - 1]]
  }

  /** The distinct sequence numbers, ascending. */
  function DistinctSequences(sightings: seq<Sighting>): (qs: seq<int>)
    ensures |qs| <= |sightings|
  {
    if sightings == [] then []
    else
      InsertAscending(DistinctSequences(sightings[..|sightings| - 1]), sightings[|sightings| - 1].sequence)
  }

  lemma AscendingAppend(qs: seq<int>, q: int)
    requires Ascending(qs)
    ensures (forall x :: x in qs ==> x < q) ==> Ascending(qs + [q])
    ensures qs != [] && qs[|qs| - 1] < q ==> Ascending(qs + [q])
    ensures Ascending(qs + [q]) ==> forall x :: x in qs ==> x < q
  {
    assert forall k :: 0 <= k < |qs| ==> qs[k] in qs;
    if Ascending(qs + [q]) {
      forall x | x in qs
        ensures x < q
      {
        var k :| 0 <= k < |qs| && qs[k] == x;
        assert (qs + [q])[k] < (qs + [q])[|qs|];
      }
    }
  }

  lemma {:induction false} InsertAscends(qs: seq<int>, q: int)
    requires Ascending(qs)
    ensures Ascending(InsertAscending(qs, q))
    ensures forall x :: x in InsertAscending(qs, q) <==> x == q || x in qs
  {
    if qs != [] && q < qs[|qs| - 1] {
      var init, last := qs[..|qs| - 1], qs[|qs| - 1];
      InsertAscends(init, q);
      assert qs == init + [last];
      AscendingAppend(InsertAscending(init, q), last);
    } else if qs == [] || qs[|qs| - 1] < q {
      AscendingAppend(qs, q);
    }
  }

  lemma {:induction false} DistinctAreAll(sightings: seq<Sighting>)
    ensures Ascending(DistinctSequences(sightings))
    ensures forall q :: q in DistinctSequences(sightings) <==> q in Numbers(sightings)
  {
    if sightings == [] {
    } else {
      var init, last := sightings[..|sightings| - 1], sightings[|sightings| - 1];
      DistinctAreAll(init);
      InsertAscends(DistinctSequences(init), last.sequence);
      assert Numbers(sightings) == Numbers(init) + [last.sequence];
    }
  }

  // ---------- duplicates ----------

  function DuplicateFor(w: Wording, sightings: seq<Sighting>, q: int): Diagnostic
    requires |IndicesWith(sightings, q)| >= 2
  {
    var indices := IndicesWith(sightings, q);
    Diagnostic(TelemetrySequenceDuplicate, Warning, w(Repeated(q)), Some(TelemetryLane), Some(indices[0]),
      Some(TelemetryLane), indices)
  }

  function DuplicatesAmong(w: Wording, sightings: seq<Sighting>, qs: seq<int>): seq<Diagnostic> {
    if qs == [] then []
    else
      var q := qs[|qs| - 1];
      DuplicatesAmong(w, sightings, qs[..|qs| - 1])
      + (if |IndicesWith(sightings, q)| >= 2 then [DuplicateFor(w, sightings, q)] else [])
  }

  function DuplicateDiagnostics(w: Wording, sightings: seq<Sighting>): seq<Diagnostic> {
    DuplicatesAmong(w, sightings, DistinctSequences(sightings))
  }

  function TotalAmong(sightings: seq<Sighting>, qs: seq<int>): nat {
    if qs == [] then 0 else TotalAmong(sightings, qs[..|qs| - 1]) + |IndicesWith(sightings, qs[|qs| - 1])|
  }

  lemma IndicesAppend(sightings: seq<Sighting>, x: Sighting, q: int)
    ensures IndicesWith(sightings + [x], q) ==
      IndicesWith(sightings, q) + (if x.sequence == q then [x.index] else [])
  {
    assert (sightings + [x])[..|sightings|] == sightings;
  }

  lemma {:induction false} IndicesAbsent(sightings: seq<Sighting>, q: int)
    ensures IndicesWith(sightings, q) == [] <==> q !in Numbers(sightings)
  {
    if sightings == [] {
    } else {
      var init, last := sightings[..|sightings| - 1], sightings[|sightings| - 1];
      IndicesAbsent(init, q);
      assert Numbers(sightings) == Numbers(init) + [last.sequence];
    }
  }

  lemma {:induction false} TotalAppend(sightings: seq<Sighting>, x: Sighting, qs: seq<int>)
    requires Ascending(qs)
    ensures TotalAmong(sightings + [x], qs) == TotalAmong(sightings, qs) + (if x.sequence in qs then 1 else 0)
  {
    if qs == [] {
    } else {
      var init, q := qs[..|qs| - 1], qs[|qs| - 1];
      TotalAppend(sightings, x, init);
      IndicesAppend(sightings, x, q);
      assert qs == init + [q];
      assert forall k :: 0 <= k < |init| ==> init[k] < q;
    }
  }

  lemma {:induction false} TotalInsert(sightings: seq<Sighting>, qs: seq<int>, q: int)
    requires Ascending(qs)
    ensures TotalAmong(sightings, InsertAscending(qs, q)) ==
      TotalAmong(sightings, qs) + (if q in qs then 0 else |IndicesWith(sightings, q)|)
  {
    if qs == [] || qs[|qs| - 1] < q {
      assert (qs + [q])[..|qs|] == qs;
      assert q !in qs;
    } else if q < qs[|qs| - 1] {
      var init, last := qs[..|qs| - 1], qs[|qs| - 1];
      TotalInsert(sightings, init, q);
      var r := InsertAscending(init, q);
      assert (r + [last])[..|r|] == r;
      assert qs == init + [last];
    }
  }

  /** Every row is counted under exactly one distinct sequence. */
  lemma {:induction false} TotalOfAll(sightings: seq<Sighting>)
    ensures TotalAmong(sightings, DistinctSequences(sightings)) == |sightings|
  {
    if sightings == [] {
    } else {
      var init, last := sightings[..|sightings| - 1], sightings[|sightings| - 1];
      var qs := DistinctSequences(init);
      TotalOfAll(init);
      DistinctAreAll(init);
      InsertAscends(qs, last.sequence);
      assert sightings == init + [last];
      TotalAppend(init, last, InsertAscending(qs, last.sequence));
      TotalInsert(init, qs, last.sequence);
      IndicesAbsent(init, last.sequence);
    }
  }

  // ---------- gaps ----------

  predicate IsGap(previous: int, current: int) {
    current != previous && current != Expected(previous)
  }

  /** How many packets are missing, where the modular distance tells. */
  function MissingBetween(previous: int, current: int): Option<nat> {
    var distance := (current - previous) % WORD_32;
    if 1 < distance <= WORD_32 / 2 then Some(distance - 1) else None
  }

  function GapMessage(previous: Sighting, current: Sighting): Message {
    Gap(previous.sequence, Expected(previous.sequence), current.sequence,
      MissingBetween(previous.sequence, current.sequence))
  }

  function GapFor(w: Wording, previous: Sighting, current: Sighting): Diagnostic {
    Diagnostic(TelemetrySequenceGap, Warning, w(GapMessage(previous, current)), Some(TelemetryLane),
      Some(current.index), Some(TelemetryLane), [previous.index, current.index])
  }

  function GapDiagnostics(w: Wording, sightings: seq<Sighting>): seq<Diagnostic> {
    if |sightings| < 2 then []
    else
      var n := |sightings| - 1;
      GapDiagnostics(w, sightings[..n])
      + (if IsGap(sightings[n - 1].sequence, sightings[n].sequence)
         then [GapFor(w, sightings[n - 1], sightings[n])] else [])
  }

  function GapCount(qs: seq<int>): nat {
    if |qs| < 2 then 0
    else GapCount(qs[..|qs| - 1]) + (if IsGap(qs[|qs| - 2], qs[|qs| - 1]) then 1 else 0)
  }

  /** How many packets are missing over all gaps whose modular distance tells. */
  function MissingTotal(qs: seq<int>): nat {
    if |qs| < 2 then 0
    else
      var previous, current := qs[|qs| - 2], qs[|qs| - 1];
      MissingTotal(qs[..|qs| - 1])
      + (if IsGap(previous, current) && MissingBetween(previous, current).Some?
         then MissingBetween(previous, current).value else 0)
  }

  method IndexBySequence(decoded: seq<Sighting>) returns (m: map<int, seq<nat>>, order: seq<int>)
    ensures order == DistinctSequences(decoded)
    ensures forall q :: q in m <==> q in order
    ensures forall q :: q in m ==> m[q] == IndicesWith(decoded, q)
  {
    m, order := map[], [];
    for i := 0 to |decoded|
      invariant order == DistinctSequences(decoded[..i])
      invariant forall q :: q in m <==> q in order
      invariant forall q :: q in m ==> m[q] == IndicesWith(decoded[..i], q)
    {
      var x := decoded[i];
      assert decoded[..i + 1] == decoded[..i] + [x];
      DistinctAreAll(decoded[..i]);
      InsertAscends(order, x.sequence);
      forall q { IndicesAppend(decoded[..i], x, q); }
      IndicesAbsent(decoded[..i], x.sequence);
      m := m[x.sequence := (if x.sequence in m then m[x.sequence] else []) + [x.index]];
      order := InsertAscending(order, x.sequence);
    }
    assert decoded[..|decoded|] == decoded;
  }

  method CollectDuplicates(w: Wording, decoded: seq<Sighting>, m: map<int, seq<nat>>, order: seq<int>)
    returns (diagnostics: seq<Diagnostic>, duplicateCount: int)
    requires order == DistinctSequences(decoded)
    requires forall q :: q in m <==> q in order
    requires forall q :: q in m ==> m[q] == IndicesWith(decoded, q)
    ensures diagnostics == DuplicateDiagnostics(w, decoded)
    ensures duplicateCount == |decoded| - |DistinctSequences(decoded)|
  {
    hide DistinctSequences, IndicesWith;
    diagnostics, duplicateCount := [], 0;
    DistinctAreAll(decoded);
    for i := 0 to |order|
      invariant diagnostics == DuplicatesAmong(w, decoded, order[..i])
      invariant duplicateCount == TotalAmong(decoded, order[..i]) - i
    {
      var q := order[i];
      var indices := m[q];
      assert order[..i + 1][..i] == order[..i];
      IndicesAbsent(decoded, q);
      if |indices| >= 2 {
        duplicateCount := duplicateCount + |indices| - 1;
        diagnostics := diagnostics + [
          Diagnostic(TelemetrySequenceDuplicate, Warning, w(Repeated(q)), Some(TelemetryLane), Some(indices[0]),
            Some(TelemetryLane), indices)];
      }
    }
    assert order[..|order|] == order;
    TotalOfAll(decoded);
  }

  lemma GapStep(w: Wording, decoded: seq<Sighting>, i: nat)
    requires 0 < i < |decoded|
    ensures GapDiagnostics(w, decoded[..i + 1]) == GapDiagnostics(w, decoded[..i])
      + (if IsGap(decoded[i - 1].sequence, decoded[i].sequence) then [GapFor(w, decoded[i - 1], decoded[i])] else [])
    ensures GapCount(Numbers(decoded[..i + 1])) ==
      GapCount(Numbers(decoded[..i])) + (if IsGap(decoded[i - 1].sequence, decoded[i].sequence) then 1 else 0)
  {
    assert decoded[..i + 1][..i] == decoded[..i];
    assert Numbers(decoded[..i + 1])[..i] == Numbers(decoded[..i]);
  }

  method CollectGaps(w: Wording, decoded: seq<Sighting>) returns (diagnostics: seq<Diagnostic>, gapCount: nat)
    ensures diagnostics == GapDiagnostics(w, decoded)
    ensures gapCount == GapCount(Numbers(decoded))
  {
    diagnostics, gapCount := [], 0;
    if decoded == [] {
      return;
    }
    for i := 1 to |decoded|
      invariant diagnostics == GapDiagnostics(w, decoded[..i])
      invariant gapCount == GapCount(Numbers(decoded[..i]))
    {
      var previous, current := decoded[i - 1], decoded[i];
      GapStep(w, decoded, i);
      if current.sequence == previous.sequence {
        continue;
      }
      var expected := (previous.sequence + 1) % WORD_32;
      if current.sequence == expected {
        continue;
      }
      gapCount := gapCount + 1;
      var distance := (current.sequence - previous.sequence) % WORD_32;
      var missing := if 1 < distance <= WORD_32 / 2 then Some(distance - 1) else None;
      diagnostics := diagnostics + [
        Diagnostic(TelemetrySequenceGap, Warning, w(Gap(previous.sequence, expected, current.sequence, missing)),
          Some(TelemetryLane), Some(current.index), Some(TelemetryLane), [previous.index, current.index])];
    }
    assert decoded[..|decoded|] == decoded;
  }

  /** The index of rows by sequence, then the duplicates in sequence order, then the gaps in row order. */
  method TelemetrySequenceDiagnostics(w: Wording, decoded: seq<Sighting>)
    returns (diagnostics: seq<Diagnostic>, gapCount: nat, duplicateCount: int)
    ensures diagnostics == DuplicateDiagnostics(w, decoded) + GapDiagnostics(w, decoded)
    ensures gapCount == GapCount(Numbers(decoded))
    ensures duplicateCount == |decoded| - |DistinctSequences(decoded)|
  {
    var indicesBySequence, order := IndexBySequence(decoded);
    var duplicates;
    duplicates, duplicateCount := CollectDuplicates(w, decoded, indicesBySequence, order);
    var gaps;
    gaps, gapCount := CollectGaps(w, decoded);
    diagnostics := duplicates + gaps;
  }

  // ---------- what the numbers mean ----------

  lemma {:induction false} AscendingSize(qs: seq<int>)
    requires Ascending(qs)
    ensures |set q | q in qs| == |qs|
  {
    if qs == [] {
    } else {
      var init, last := qs[..|qs| - 1], qs[|qs| - 1];
      AscendingSize(init);
      assert qs == init + [last];
      assert (set q | q in qs) == (set q | q in init) + {last};
      assert last !in init;
    }
  }

  /** What the gap diagnostics say, in their order. */
  function GapMessages(sightings: seq<Sighting>): seq<Message> {
    if |sightings| < 2 then []
    else
      var n := |sightings| - 1;
      GapMessages(sightings[..n])
      + (if IsGap(sightings[n - 1].sequence, sightings[n].sequence)
         then [GapMessage(sightings[n - 1], sightings[n])] else [])
  }

  /** The sum of the missing counts that messages state. */
  function StatedMissing(messages: seq<Message>): int {
    if messages == [] then 0
    else
      var last := messages[|messages| - 1];
      StatedMissing(messages[..|messages| - 1]) + (if last.Gap? && last.missing.Some? then last.missing.value else 0)
  }

  lemma NothingStated()
    ensures StatedMissing([]) == 0
  {
  }

  lemma StatedAppend(messages: seq<Message>, m: Message)
    ensures StatedMissing(messages + [m]) ==
      StatedMissing(messages) + (if m.Gap? && m.missing.Some? then m.missing.value else 0)
  {
    assert (messages + [m])[..|messages|] == messages;
  }

  /** There is one gap diagnostic for each gap counted, and it says what `GapMessages` lists. */
  lemma {:induction false} GapsAreStated(w: Wording, sightings: seq<Sighting>)
    ensures var ds, ms := GapDiagnostics(w, sightings), GapMessages(sightings);
      && |ds| == |ms| == GapCount(Numbers(sightings))
      && (forall k :: 0 <= k < |ds| ==> ds[k].code == TelemetrySequenceGap && ds[k].message == w(ms[k]))
  {
    hide IsGap, MissingBetween, Expected;
    if |sightings| < 2 {
    } else {
      var n := |sightings| - 1;
      GapsAreStated(w, sightings[..n]);
      assert Numbers(sightings)[..n] == Numbers(sightings[..n]);
    }
  }

  /** The missing counts that the gap diagnostics state add up to the total. */
  lemma {:induction false} MissingIsStated(sightings: seq<Sighting>)
    ensures StatedMissing(GapMessages(sightings)) == MissingTotal(Numbers(sightings))
  {
    hide IsGap, MissingBetween, Expected, StatedMissing;
    if |sightings| < 2 {
      assert GapMessages(sightings) == [];
      NothingStated();
    } else {
      var n := |sightings| - 1;
      MissingIsStated(sightings[..n]);
      assert Numbers(sightings)[..n] == Numbers(sightings[..n]);
      var ms := GapMessages(sightings[..n]);
      StatedAppend(ms, GapMessage(sightings[n - 1], sightings[n]));
      assert ms + [] == ms;
    }
  }

  /** `duplicate_count` is the number of decoded rows less the number of distinct sequences. */
  lemma DistinctCount(sightings: seq<Sighting>)
    ensures |DistinctSequences(sightings)| == |set q | q in Numbers(sightings)|
  {
    DistinctAreAll(sightings);
    AscendingSize(DistinctSequences(sightings));
    assert (set q | q in DistinctSequences(sightings)) == (set q | q in Numbers(sightings));
  }

  /** The scan for an alarm's sequence finds the rows that the duplicate index lists. */
  lemma {:induction false} ScanAgreesWithIndex(sightings: seq<Sighting>, q: int)
    ensures var xs := Occurrences(Numbers(sightings), q);
      && |xs| == |IndicesWith(sightings, q)|
      && forall k :: 0 <= k < |xs| ==> xs[k] < |sightings| && sightings[xs[k]].index == IndicesWith(sightings, q)[k]
  {
    if sightings == [] {
    } else {
      var init := sightings[..|sightings| - 1];
      ScanAgreesWithIndex(init, q);
      assert Numbers(sightings)[..|init|] == Numbers(init);
    }
  }

  /** A duplicate diagnostic is emitted for exactly the sequences that occur more than once. */
  lemma {:induction false} DuplicateListed(w: Wording, sightings: seq<Sighting>, qs: seq<int>, d: Diagnostic)
    ensures d in DuplicatesAmong(w, sightings, qs) <==>
      exists q :: q in qs && |IndicesWith(sightings, q)| >= 2 && d == DuplicateFor(w, sightings, q)
  {
    if qs == [] {
    } else {
      var init, last := qs[..|qs| - 1], qs[|qs| - 1];
      DuplicateListed(w, sightings, init, d);
      assert qs == init + [last];
      if d in DuplicatesAmong(w, sightings, qs) && d !in DuplicatesAmong(w, sightings, init) {
        assert last in qs && d == DuplicateFor(w, sightings, last);
      }
    }
  }
}
