/** The telemetry recording: one row for each datagram received, decodable or not. */
module TelemetryRecording {
  import opened Wrappers
  import opened Impairments
  import opened Codec

  /** Seconds since the epoch. */
  type Timestamp = t: real | t >= 0.0

  datatype RecordedTelemetryRecord = RecordedTelemetryRecord(recordIndex: nat, receivedAt: Timestamp, packet: Bytes)

  /** Rows are numbered from zero. */
  ghost predicate Numbered(records: seq<RecordedTelemetryRecord>) {
    forall k :: 0 <= k < |records| ==> records[k].recordIndex == k
  }

  /** A row that decodes, by its index. */
  datatype Decoded = Decoded(index: nat, packet: TelemetryPacket)

  /** The rows that decode, in order. */
  function DecodedRecords(records: seq<RecordedTelemetryRecord>): (ds: seq<Decoded>) {
    if records == [] then []
    else
      var init, last := records[..|records| - 1], records[|records| - 1];
      match DecodePacket(last.packet)
      case Failure(_) => DecodedRecords(init)
      case Success(p) => DecodedRecords(init) + [Decoded(last.recordIndex, p)]
  }

  /** What has been decoded fits the wire format. */
  ghost predicate InRange(ds: seq<Decoded>) {
    forall k {:trigger ds[k]} :: 0 <= k < |ds| ==> ValidatePacket(ds[k].packet) == None
  }

  lemma DecodedPacketInRange(data: Bytes)
    requires DecodePacket(data).Success?
    ensures ValidatePacket(DecodePacket(data).value) == None
  {
    EncodeDecode(data);
  }

  lemma {:induction false} DecodedInRange(records: seq<RecordedTelemetryRecord>)
    ensures InRange(DecodedRecords(records))
  {
    hide DecodePacket, ValidatePacket;
    if records == [] {
    } else {
      var init, last := records[..|records| - 1], records[|records| - 1];
      DecodedInRange(init);
      if DecodePacket(last.packet).Success? { DecodedPacketInRange(last.packet); }
    }
  }

  function Packets(ds: seq<Decoded>): (ps: seq<TelemetryPacket>)
    ensures |ps| == |ds| && forall k :: 0 <= k < |ps| ==> ps[k] == ds[k].packet
  {
    seq(|ds|, k requires 0 <= k < |ds| => ds[k].packet)
  }

  /** `d` is the decoding of the row that it names. */
  predicate Names(records: seq<RecordedTelemetryRecord>, d: Decoded) {
    d.index < |records| && DecodePacket(records[d.index].packet) == Success(d.packet)
  }

  /** Indices ascend, and each names the row that was decoded. */
  lemma {:induction false} DecodedNamesRows(records: seq<RecordedTelemetryRecord>)
    requires Numbered(records)
    ensures forall d :: d in DecodedRecords(records) ==> Names(records, d)
    ensures var ds := DecodedRecords(records);
      && (forall j, k :: 0 <= j < k < |ds| ==> ds[j].index < ds[k].index)
      && (forall i :: 0 <= i < |records| && DecodePacket(records[i].packet).Success? ==>
        exists k :: 0 <= k < |ds| && ds[k].index == i)
  {
    hide DecodePacket;
    if records == [] {
    } else {
      var init, last := records[..|records| - 1], records[|records| - 1];
      DecodedNamesRows(init);
      var es, ds := DecodedRecords(init), DecodedRecords(records);
      forall d | d in ds
        ensures Names(records, d)
      {
        if d in es {
          assert Names(init, d);
          assert init[d.index] == records[d.index];
        }
      }
      forall j, k | 0 <= j < k < |ds|
        ensures ds[j].index < ds[k].index
      {
        assert es[j] in es;
        assert Names(init, es[j]);
      }
      forall i | 0 <= i < |records| && DecodePacket(records[i].packet).Success?
        ensures exists k :: 0 <= k < |ds| && ds[k].index == i
      {
        if i < |init| {
          assert DecodePacket(init[i].packet).Success?;
          var k :| 0 <= k < |es| && es[k].index == i;
          assert ds[k].index == i;
        } else {
          assert ds[|es|].index == i;
        }
      }
    }
  }

  /** The recorder's file. */
  class SessionRecorder {
    var rows: seq<RecordedTelemetryRecord>

    ghost predicate Valid()
      reads this
    {
      Numbered(rows)
    }

    constructor ()
      ensures Valid() && rows == []
    {
      rows := [];
    }

    method Write(raw: Bytes, receivedAt: Timestamp)
      requires Valid()
      modifies this
      ensures Valid() && rows == old(rows) + [RecordedTelemetryRecord(|old(rows)|, receivedAt, raw)]
    {
      rows := rows + [RecordedTelemetryRecord(|rows|, receivedAt, raw)];
    }
  }
}
