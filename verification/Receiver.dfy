/** The ground-station receiver: record first, then decode, evaluate and log. */
module Receiver {
  import opened Wrappers
  import opened Impairments
  import opened Codec
  import opened Alarms
  import opened AlarmEvents
  import opened TelemetryRecording

  /** A datagram and when it arrived. */
  datatype Received = Received(raw: Bytes, receivedAt: Timestamp)

  function Rows(received: seq<Received>): (rows: seq<RecordedTelemetryRecord>)
    ensures |rows| == |received| && Numbered(rows)
    ensures forall k :: 0 <= k < |rows| ==>
      rows[k].packet == received[k].raw && rows[k].receivedAt == received[k].receivedAt
  {
    seq(|received|, k requires 0 <= k < |received| =>
      RecordedTelemetryRecord(k, received[k].receivedAt, received[k].raw))
  }

  /** What the alarm recorder is given for a stream of packets. */
  function EntriesOf(policy: AlarmPolicy, packets: seq<TelemetryPacket>): seq<Entry>
    requires forall k :: 0 <= k < |packets| ==> Unsigned32(packets[k].sequence)
  {
    if packets == [] then []
    else
      var init, last := packets[..|packets| - 1], packets[|packets| - 1];
      assert Unsigned32(packets[|packets| - 1].sequence);
      EntriesOf(policy, init) + EntriesFor(last.sequence, Transitions(policy, StateAfter(policy, init), last))
  }

  /** The packets that a run of the receiver decodes. */
  function PacketsOfRun(received: seq<Received>): seq<TelemetryPacket> {
    Packets(DecodedRecords(Rows(received)))
  }

  /** The entries that a run of the receiver causes. */
  function EntriesOfRun(policy: AlarmPolicy, received: seq<Received>): seq<Entry> {
    DecodedInRange(Rows(received));
    EntriesOf(policy, PacketsOfRun(received))
  }

  lemma RowsAppend(received: seq<Received>, r: Received)
    ensures Rows(received + [r]) ==
      Rows(received) + [RecordedTelemetryRecord(|received|, r.receivedAt, r.raw)]
  {
  }

  lemma SequenceInRange(data: Bytes)
    requires DecodePacket(data).Success?
    ensures Unsigned32(DecodePacket(data).value.sequence)
  {
    DecodedPacketInRange(data);
  }

  lemma DecodedAppend(rows: seq<RecordedTelemetryRecord>, row: RecordedTelemetryRecord)
    ensures DecodedRecords(rows + [row]) ==
      if DecodePacket(row.packet).Failure? then DecodedRecords(rows)
      else DecodedRecords(rows) + [Decoded(row.recordIndex, DecodePacket(row.packet).value)]
  {
    assert (rows + [row])[..|rows|] == rows;
  }

  /** One more datagram: nothing if it does not decode, else its transitions under its sequence. */
  lemma OneMoreDatagram(policy: AlarmPolicy, received: seq<Received>, r: Received)
    ensures DecodePacket(r.raw).Failure? ==>
      && EntriesOfRun(policy, received + [r]) == EntriesOfRun(policy, received)
      && PacketsOfRun(received + [r]) == PacketsOfRun(received)
    ensures DecodePacket(r.raw).Success? ==>
      var p, ps := DecodePacket(r.raw).value, PacketsOfRun(received);
      && Unsigned32(p.sequence)
      && PacketsOfRun(received + [r]) == ps + [p]
      && EntriesOfRun(policy, received + [r]) ==
           EntriesOfRun(policy, received) + EntriesFor(p.sequence, Transitions(policy, StateAfter(policy, ps), p))
      && StateAfter(policy, ps + [p]) == NextState(policy, StateAfter(policy, ps), p)
  {
    hide DecodePacket, Transitions, NextState;
    var rows := Rows(received);
    RowsAppend(received, r);
    DecodedAppend(rows, RecordedTelemetryRecord(|received|, r.receivedAt, r.raw));
    var ps, qs := PacketsOfRun(received), PacketsOfRun(received + [r]);
    if DecodePacket(r.raw).Success? {
      SequenceInRange(r.raw);
      assert qs == ps + [DecodePacket(r.raw).value];
      assert qs[..|ps|] == ps;
    }
  }

  /** Decode, evaluate and, when there is an alarm log, write the transitions to it. */
  method ProcessPacket(raw: Bytes, engine: AlarmEngine, log: AlarmEventRecorder?)
    returns (r: Result<(), ProtocolError>)
    requires log != null ==> log.Valid() && !log.closed
    modifies engine, log
    ensures log != null ==> log.Valid() && !log.closed
    ensures DecodePacket(raw).Failure? ==>
      && r == Failure(DecodePacket(raw).error) && engine.State() == old(engine.State())
      && (log != null ==> log.entries == old(log.entries))
    ensures DecodePacket(raw).Success? ==>
      var p := DecodePacket(raw).value;
      && r == Success(()) && Unsigned32(p.sequence)
      && engine.State() == NextState(engine.policy, old(engine.State()), p)
      && (log != null ==>
           log.entries ==
           old(log.entries) + EntriesFor(p.sequence, Transitions(engine.policy, old(engine.State()), p)))
  {
    hide DecodePacket, Transitions, NextState;
    var decoded := DecodePacket(raw);
    if decoded.Failure? {
      return Failure(decoded.error);
    }
    var packet := decoded.value;
    SequenceInRange(raw);
    var transitions := engine.Evaluate(packet);
    if log != null {
      var written := log.WriteTransitions(packet.sequence, transitions);
    }
    return Success(());
  }

  class GroundStation {
    const engine: AlarmEngine
    const recorder: SessionRecorder?
    const log: AlarmEventRecorder?

    ghost predicate Parts()
      reads recorder, log
    {
      && (recorder != null ==> recorder.Valid())
      && (log != null ==> log.Valid())
    }

    /** Everything is as after receiving `received`. */
    ghost predicate After(received: seq<Received>)
      reads engine, recorder, log
    {
      && Parts()
      && engine.State() == StateAfter(engine.policy, PacketsOfRun(received))
      && (recorder != null ==> recorder.rows == Rows(received))
      && (log != null ==> !log.closed && log.entries == EntriesOfRun(engine.policy, received))
    }

    /** The optional outputs are opened before the first datagram. */
    constructor (policy: AlarmPolicy, recording: bool, alarmLog: Option<Recording>)
      requires policy.Valid() && (alarmLog.Some? ==> alarmLog.value.Valid())
      ensures After([]) && engine.policy == policy && (recorder != null <==> recording)
      ensures alarmLog.Some? <==> log != null
      ensures log != null ==> log.recording == alarmLog.value && fresh(log)
      ensures fresh(engine) && (recorder != null ==> fresh(recorder))
    {
      engine := new AlarmEngine(policy);
      var rows: SessionRecorder? := null;
      if recording {
        rows := new SessionRecorder();
      }
      recorder := rows;
      var lines: AlarmEventRecorder? := null;
      if alarmLog.Some? {
        lines := new AlarmEventRecorder(alarmLog.value);
      }
      log := lines;
    }

    /** One turn of the loop; a datagram that is refused has been recorded all the same. */
    method Receive(r: Received, ghost before: seq<Received>) returns (refused: Option<ProtocolError>)
      requires After(before)
      modifies engine, recorder, log
      ensures After(before + [r])
      ensures refused.Some? <==> DecodePacket(r.raw).Failure?
      ensures refused.Some? ==> refused.value == DecodePacket(r.raw).error
    {
      hide DecodePacket, Transitions, NextState, StateAfter, EntriesOfRun;
      RowsAppend(before, r);
      OneMoreDatagram(engine.policy, before, r);
      if recorder != null {
        recorder.Write(r.raw, r.receivedAt);
      }
      var processed := ProcessPacket(r.raw, engine, log);
      return if processed.Failure? then Some(processed.error) else None;
    }

    /** The loop, until it is interrupted after `received`; leaving it closes the alarm log. */
    method Listen(received: seq<Received>) returns (refused: nat)
      requires After([])
      modifies engine, recorder, log
      ensures engine.State() == StateAfter(engine.policy, PacketsOfRun(received))
      ensures recorder != null ==> recorder.rows == Rows(received)
      ensures log != null ==> log.log == ClosedLog(log.recording, EntriesOfRun(engine.policy, received))
      ensures refused == |received| - |DecodedRecords(Rows(received))|
    {
      hide DecodePacket, StateAfter, EntriesOfRun;
      refused := 0;
      for i := 0 to |received|
        invariant After(received[..i])
        invariant refused == i - |DecodedRecords(Rows(received[..i]))|
      {
        assert received[..i + 1] == received[..i] + [received[i]];
        OneMoreDatagram(engine.policy, received[..i], received[i]);
        var refusal := Receive(received[i], received[..i]);
        if refusal.Some? {
          refused := refused + 1;
        }
      }
      assert received[..|received|] == received;
      if log != null {
        log.Close();
      }
    }
  }

  /** What is logged is what the engine emitted, in order. */
  lemma {:induction false} EntriesAreTransitions(policy: AlarmPolicy, packets: seq<TelemetryPacket>)
    requires forall k :: 0 <= k < |packets| ==> Unsigned32(packets[k].sequence)
    ensures var es, ts := EntriesOf(policy, packets), AllTransitions(policy, packets);
      |es| == |ts| && forall k :: 0 <= k < |es| ==> es[k].transition == ts[k]
  {
    hide Transitions, StateAfter;
    if packets == [] {
    } else {
      EntriesAreTransitions(policy, packets[..|packets| - 1]);
    }
  }

  /** Every logged transition carries the sequence of a packet that was decoded. */
  lemma {:induction false} EntriesNamePackets(policy: AlarmPolicy, packets: seq<TelemetryPacket>)
    requires forall k :: 0 <= k < |packets| ==> Unsigned32(packets[k].sequence)
    ensures forall e :: e in EntriesOf(policy, packets) ==>
      exists k :: 0 <= k < |packets| && packets[k].sequence == e.sequence
  {
    hide Transitions, StateAfter;
    if packets == [] {
    } else {
      var init, n := packets[..|packets| - 1], |packets| - 1;
      EntriesNamePackets(policy, init);
      forall e | e in EntriesOf(policy, packets)
        ensures exists k :: 0 <= k < |packets| && packets[k].sequence == e.sequence
      {
        if e in EntriesOf(policy, init) {
          var k :| 0 <= k < |init| && init[k].sequence == e.sequence;
          assert packets[k].sequence == e.sequence;
        } else {
          assert packets[n].sequence == e.sequence;
        }
      }
    }
  }
}
