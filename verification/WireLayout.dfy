/** The telemetry packet byte by byte: where each field stands, and in what order a receiver finds fault. */
module WireLayout {
  import opened Wrappers
  import opened Codec
  import opened Crc
  import opened Impairments

  // ---------- numbers on the wire, most significant byte first ----------

  function U16At(data: Bytes, i: nat): nat
    requires i + 2 <= |data|
  {
    256 * (data[i] as int) + data[i + 1]
  }

  function U32At(data: Bytes, i: nat): nat
    requires i + 4 <= |data|
  {
    0x1_0000 * U16At(data, i) + U16At(data, i + 2)
  }

  function U64At(data: Bytes, i: nat): nat
    requires i + 8 <= |data|
  {
    0x1_0000_0000 * U32At(data, i) + U32At(data, i + 4)
  }

  /** Two's complement. */
  function I16At(data: Bytes, i: nat): int
    requires i + 2 <= |data|
  {
    if data[i] < 128 then U16At(data, i) else U16At(data, i) - 0x1_0000
  }

  lemma UnpackAppend(bytes: Bytes, b: Byte)
    ensures Unpack(bytes + [b]) == 256 * Unpack(bytes) + b
  {
    assert (bytes + [b])[..|bytes|] == bytes;
  }

  lemma UnpackOne(data: Bytes, i: nat)
    requires i + 1 <= |data|
    ensures Unpack(data[i..i + 1]) == data[i]
  {
    assert data[i..i + 1] == [] + [data[i]];
    UnpackAppend([], data[i]);
  }

  lemma UnpackTwo(data: Bytes, i: nat)
    requires i + 2 <= |data|
    ensures Unpack(data[i..i + 2]) == U16At(data, i)
  {
    UnpackOne(data, i);
    assert data[i..i + 2] == data[i..i + 1] + [data[i + 1]];
    UnpackAppend(data[i..i + 1], data[i + 1]);
  }

  lemma UnpackFour(data: Bytes, i: nat)
    requires i + 4 <= |data|
    ensures Unpack(data[i..i + 4]) == U32At(data, i)
  {
    UnpackTwo(data, i);
    assert data[i..i + 3] == data[i..i + 2] + [data[i + 2]];
    assert data[i..i + 4] == data[i..i + 3] + [data[i + 3]];
    UnpackAppend(data[i..i + 2], data[i + 2]);
    UnpackAppend(data[i..i + 3], data[i + 3]);
  }

  lemma FourBytes(data: Bytes, i: nat)
    requires i + 4 <= |data|
    ensures U32At(data, i) == 256 * (256 * U16At(data, i) + data[i + 2]) + data[i + 3]
  {
  }

  lemma UnpackEight(data: Bytes, i: nat)
    requires i + 8 <= |data|
    ensures Unpack(data[i..i + 8]) == U64At(data, i)
  {
    hide Unpack;
    UnpackFour(data, i);
    assert data[i..i + 5] == data[i..i + 4] + [data[i + 4]];
    assert data[i..i + 6] == data[i..i + 5] + [data[i + 5]];
    assert data[i..i + 7] == data[i..i + 6] + [data[i + 6]];
    assert data[i..i + 8] == data[i..i + 7] + [data[i + 7]];
    UnpackAppend(data[i..i + 4], data[i + 4]);
    UnpackAppend(data[i..i + 5], data[i + 5]);
    UnpackAppend(data[i..i + 6], data[i + 6]);
    UnpackAppend(data[i..i + 7], data[i + 7]);
    FourBytes(data, i + 4);
  }

  // ---------- where the fields stand ----------

  /** Field `i` of a record starts after the widths before it. */
  lemma {:induction false} FieldStands(widths: seq<nat>, data: Bytes, i: nat, at: nat)
    requires |data| == Total(widths) && i < |widths| && at == Total(widths[..i])
    ensures at + widths[i] <= |data|
    ensures FieldsOf(widths, data)[i] == Unpack(data[at..at + widths[i]])
    decreases i
  {
    hide Unpack;
    if i == 0 {
      assert widths[..0] == [];
    } else {
      var rest, tail := widths[1..], data[widths[0]..];
      assert widths[..i][1..] == rest[..i - 1];
      assert at == widths[0] + Total(rest[..i - 1]);
      FieldStands(rest, tail, i - 1, at - widths[0]);
      assert tail[at - widths[0]..at - widths[0] + widths[i]] == data[at..at + widths[i]];
    }
  }

  lemma TotalStep(widths: seq<nat>, i: nat)
    requires i < |widths|
    ensures Total(widths[..i + 1]) == Total(widths[..i]) + widths[i]
  {
    assert widths[..i + 1] == widths[..i] + [widths[i]];
    TotalConcat(widths[..i], [widths[i]]);
    assert [widths[i]] + [] == [widths[i]];
    TotalHead(widths[i], []);
    TotalNone();
  }

  /** Offset of each field, and the width that brings the next one there. */
  const OFFSETS: seq<nat> := [0, 4, 5, 6, 10, 18, 19, 21, 23, 25, 27, 29, 31]

  lemma {:induction false} OffsetOf(i: nat)
    requires i < 13
    ensures Total(PACKET[..i]) == OFFSETS[i]
  {
    hide Total;
    if i == 0 {
      assert PACKET[..0] == [];
      TotalNone();
    } else {
      OffsetOf(i - 1);
      TotalStep(PACKET, i - 1);
    }
  }

  lemma FieldReads(data: Bytes, i: nat)
    requires |data| == 35 && i < 13
    ensures Total(PACKET) == 35 && OFFSETS[i] + PACKET[i] <= 35
    ensures FieldsOf(PACKET, data)[i] == Unpack(data[OFFSETS[i]..OFFSETS[i] + PACKET[i]])
  {
    hide Total, FieldsOf, Unpack;
    PacketTotal();
    OffsetOf(i);
    FieldStands(PACKET, data, i, OFFSETS[i]);
  }

  lemma FirstFields(data: Bytes)
    requires |data| == 35
    ensures Total(PACKET) == 35
    ensures var f := FieldsOf(PACKET, data);
      && f[0] == U32At(data, 0) && f[1] == data[4] && f[2] == data[5] && f[3] == U32At(data, 6)
      && f[4] == U64At(data, 10) && f[5] == data[18]
  {
    hide Unpack, FieldsOf, Total, U64At, U32At;
    FieldReads(data, 0);
    FieldReads(data, 1);
    FieldReads(data, 2);
    FieldReads(data, 3);
    FieldReads(data, 4);
    FieldReads(data, 5);
    UnpackFour(data, 0);
    UnpackOne(data, 4);
    UnpackOne(data, 5);
    UnpackFour(data, 6);
    UnpackEight(data, 10);
    UnpackOne(data, 18);
  }

  lemma LastFields(data: Bytes)
    requires |data| == 35
    ensures Total(PACKET) == 35
    ensures var f := FieldsOf(PACKET, data);
      && f[6] == U16At(data, 19) && f[7] == U16At(data, 21) && f[8] == U16At(data, 23) && f[9] == U16At(data, 25)
      && f[10] == U16At(data, 27) && f[11] == U16At(data, 29) && f[12] == U32At(data, 31)
  {
    hide Unpack, FieldsOf, Total, U16At, U32At;
    FieldReads(data, 6);
    FieldReads(data, 7);
    FieldReads(data, 8);
    FieldReads(data, 9);
    FieldReads(data, 10);
    FieldReads(data, 11);
    FieldReads(data, 12);
    UnpackTwo(data, 19);
    UnpackTwo(data, 21);
    UnpackTwo(data, 23);
    UnpackTwo(data, 25);
    UnpackTwo(data, 27);
    UnpackTwo(data, 29);
    UnpackFour(data, 31);
  }

  lemma MagicIsText(data: Bytes)
    requires |data| == 35
    ensures U32At(data, 0) == MAGIC <==>
      data[0] == 'O' as int && data[1] == 'R' as int && data[2] == 'B' as int && data[3] == 'T' as int
  {
  }

  lemma SignedReads(data: Bytes, i: nat)
    requires i + 2 <= |data|
    ensures FromUnsigned16(U16At(data, i)) == I16At(data, i)
  {
  }

  /** What a receiver makes of 35 bytes: the first fault it finds, or the nine readings. */
  function Reading(data: Bytes): Result<TelemetryPacket, ProtocolError>
    requires |data| == 35
  {
    if !(data[0] == 'O' as int && data[1] == 'R' as int && data[2] == 'B' as int && data[3] == 'T' as int) then
      Failure(InvalidMagic)
    else if data[4] != 1 then Failure(UnsupportedVersion)
    else if data[5] != 0 then Failure(UnsupportedFlags)
    else if U32At(data, 31) != Crc32Of(data[..31]) then Failure(CrcMismatch)
    else if data[18] > 2 then Failure(InvalidMode)
    else Success(TelemetryPacket(
      U32At(data, 6), U64At(data, 10), data[18], U16At(data, 19), U16At(data, 21), I16At(data, 23), I16At(data, 25),
      I16At(data, 27), I16At(data, 29)))
  }

  /** Decoding is this reading of 35 bytes, and refuses any other number of them. */
  lemma DecodeReads(data: Bytes)
    ensures DecodePacket(data) == if |data| == 35 then Reading(data) else Failure(WrongLength)
  {
    hide FieldsOf, Total, U16At, U32At, U64At, I16At, FromUnsigned16, Crc32Of;
    if |data| == 35 {
      FirstFields(data);
      LastFields(data);
      MagicIsText(data);
      SignedReads(data, 23);
      SignedReads(data, 25);
      SignedReads(data, 27);
      SignedReads(data, 29);
    }
  }

  /** Encoding writes the 35 bytes that read back as the packet, and refuses exactly what does not fit. */
  lemma EncodeWrites(p: TelemetryPacket, data: Bytes)
    ensures EncodePacket(p) == Success(data) <==> |data| == 35 && Reading(data) == Success(p)
    ensures EncodePacket(p) == Failure(FieldOutOfRange) <==>
      !(&& 0 <= p.sequence <= 0xFFFF_FFFF && 0 <= p.timestampMs <= 0xFFFF_FFFF_FFFF_FFFF
        && 0 <= p.batteryMv <= 0xFFFF && 0 <= p.busCurrentMa <= 0xFFFF
        && -32_768 <= p.temperatureCentiC <= 32_767 && -32_768 <= p.rollCentiDeg <= 32_767
        && -32_768 <= p.pitchCentiDeg <= 32_767 && -32_768 <= p.yawCentiDeg <= 32_767)
    ensures EncodePacket(p) == Failure(InvalidMode) <==>
      EncodePacket(p) != Failure(FieldOutOfRange) && !(0 <= p.mode <= 2)
    ensures EncodePacket(p).Failure? ==> EncodePacket(p).error in {FieldOutOfRange, InvalidMode}
  {
    hide Reading;
    CodecIsInverse(p, data);
    DecodeReads(data);
  }
}
