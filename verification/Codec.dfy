/** The 35-byte telemetry packet: the ground-station codec, the on-board encoder, and damage. */
module Codec {
  import opened Wrappers
  import opened Bits
  import opened Impairments
  import opened BitRegister
  import opened Crc
  import opened Words

  // ---------- fixed-width big-endian records ----------

  function Pow256(k: nat): (p: nat)
    ensures p > 0
  {
    if k == 0 then 1 else 256 * Pow256(k - 1)
  }

  /** The `k` low bytes of `n`, most significant first. */
  function Pack(n: nat, k: nat): (r: Bytes)
    ensures |r| == k
  {
    if k == 0 then [] else Pack(n / 256, k - 1) + [n % 256]
  }

  function Unpack(bytes: Bytes): nat {
    if bytes == [] then 0 else 256 * Unpack(bytes[..|bytes| - 1]) + bytes[|bytes| - 1]
  }

  lemma {:induction false} UnpackPack(n: nat, k: nat)
    requires n < Pow256(k)
    ensures Unpack(Pack(n, k)) == n
  {
    if k == 0 {
    } else {
      assert Pack(n, k)[..k - 1] == Pack(n / 256, k - 1);
      UnpackPack(n / 256, k - 1);
    }
  }

  lemma {:induction false} PackUnpack(bytes: Bytes)
    ensures Unpack(bytes) < Pow256(|bytes|)
    ensures Pack(Unpack(bytes), |bytes|) == bytes
  {
    if bytes == [] {
    } else {
      PackUnpack(bytes[..|bytes| - 1]);
      assert bytes == bytes[..|bytes| - 1] + [bytes[|bytes| - 1]];
    }
  }

  function Total(widths: seq<nat>): nat {
    if widths == [] then 0 else widths[0] + Total(widths[1..])
  }

  ghost predicate Fits(widths: seq<nat>, values: seq<nat>) {
    |widths| == |values| && forall k :: 0 <= k < |widths| ==> values[k] < Pow256(widths[k])
  }

  /** `struct.pack` for unsigned fields of the given widths. */
  function Layout(widths: seq<nat>, values: seq<nat>): (r: Bytes)
    requires |widths| == |values|
    ensures |r| == Total(widths)
  {
    if widths == [] then [] else Pack(values[0], widths[0]) + Layout(widths[1..], values[1..])
  }

  /** `struct.unpack` for the same fields. */
  function FieldsOf(widths: seq<nat>, data: Bytes): (r: seq<nat>)
    requires |data| == Total(widths)
    ensures |r| == |widths|
  {
    if widths == [] then []
    else [Unpack(data[..widths[0]])] + FieldsOf(widths[1..], data[widths[0]..])
  }

  /** Unpacking inverts packing of values that fit. */
  lemma {:induction false} FieldsOfLayout(widths: seq<nat>, values: seq<nat>)
    requires Fits(widths, values)
    ensures FieldsOf(widths, Layout(widths, values)) == values
    decreases widths
  {
    if widths == [] {
    } else {
      var data := Layout(widths, values);
      assert data[..widths[0]] == Pack(values[0], widths[0]);
      assert data[widths[0]..] == Layout(widths[1..], values[1..]);
      UnpackPack(values[0], widths[0]);
      FieldsOfLayout(widths[1..], values[1..]);
    }
  }

  /** Packing inverts unpacking, and unpacked values fit. */
  lemma {:induction false} LayoutOfFields(widths: seq<nat>, data: Bytes)
    requires |data| == Total(widths)
    ensures Fits(widths, FieldsOf(widths, data))
    ensures Layout(widths, FieldsOf(widths, data)) == data
    decreases widths
  {
    if widths == [] {
    } else {
      var values := FieldsOf(widths, data);
      PackUnpack(data[..widths[0]]);
      LayoutOfFields(widths[1..], data[widths[0]..]);
      assert values[1..] == FieldsOf(widths[1..], data[widths[0]..]);
      assert data == data[..widths[0]] + data[widths[0]..];
      forall k | 0 <= k < |widths|
        ensures values[k] < Pow256(widths[k])
      {
        if k > 0 { assert values[1..][k - 1] < Pow256(widths[1..][k - 1]); }
      }
    }
  }

  lemma {:induction false} LayoutAppend(widths: seq<nat>, values: seq<nat>, k: nat, n: nat)
    requires |widths| == |values|
    ensures Layout(widths + [k], values + [n]) == Layout(widths, values) + Pack(n, k)
    decreases widths
  {
    if widths == [] {
      assert (widths + [k])[1..] == [] && (values + [n])[1..] == [];
    } else {
      assert (widths + [k])[1..] == widths[1..] + [k];
      assert (values + [n])[1..] == values[1..] + [n];
      LayoutAppend(widths[1..], values[1..], k, n);
    }
  }

  // ---------- the ground-station codec ----------

  const MAGIC: nat := 0x4F52_4254  // ASCII "ORBT"
  const VERSION: nat := 1
  const HEADER: seq<nat> := [4, 1, 1, 4, 8, 1, 2, 2, 2, 2, 2, 2]
  const PACKET: seq<nat> := [4, 1, 1, 4, 8, 1, 2, 2, 2, 2, 2, 2, 4]
  const BODY_SIZE: nat := 31
  const PACKET_SIZE: nat := 35

  datatype TelemetryPacket = TelemetryPacket(
    sequence: int,
    timestampMs: int,
    mode: int,
    batteryMv: int,
    busCurrentMa: int,
    temperatureCentiC: int,
    rollCentiDeg: int,
    pitchCentiDeg: int,
    yawCentiDeg: int)

  const BOOT := 0
  const NOMINAL := 1
  const SAFE := 2

  datatype ProtocolError =
    | WrongLength
    | InvalidMagic
    | UnsupportedVersion
    | UnsupportedFlags
    | CrcMismatch
    | InvalidMode
    | FieldOutOfRange

  predicate Unsigned16(v: int) { 0 <= v < 0x1_0000 }
  predicate Unsigned32(v: int) { 0 <= v < WORD_32 }
  predicate Unsigned64(v: int) { 0 <= v < 0x1_0000_0000_0000_0000 }
  predicate Signed16(v: int) { -0x8000 <= v <= 0x7FFF }

  function ValidatePacket(p: TelemetryPacket): Option<ProtocolError> {
    if !(Unsigned32(p.sequence) && Unsigned64(p.timestampMs)
         && Unsigned16(p.batteryMv) && Unsigned16(p.busCurrentMa)
         && Signed16(p.temperatureCentiC) && Signed16(p.rollCentiDeg)
         && Signed16(p.pitchCentiDeg) && Signed16(p.yawCentiDeg)) then Some(FieldOutOfRange)
    else if !(BOOT <= p.mode <= SAFE) then Some(InvalidMode)
    else None
  }

  /** Two's complement in sixteen bits. */
  function ToUnsigned16(v: int): nat { v % 0x1_0000 }

  function FromUnsigned16(u: nat): int { if u >= 0x8000 then u - 0x1_0000 else u }

  lemma Complement16(v: int, u: nat)
    requires Signed16(v) && u < 0x1_0000
    ensures FromUnsigned16(ToUnsigned16(v)) == v
    ensures ToUnsigned16(FromUnsigned16(u)) == u && Signed16(FromUnsigned16(u))
  {
  }

  function HeaderValues(p: TelemetryPacket): (r: seq<nat>)
    requires ValidatePacket(p) == None
    ensures |r| == |HEADER|
  {
    [MAGIC, VERSION, 0, p.sequence, p.timestampMs, p.mode, p.batteryMv, p.busCurrentMa,
     ToUnsigned16(p.temperatureCentiC), ToUnsigned16(p.rollCentiDeg),
     ToUnsigned16(p.pitchCentiDeg), ToUnsigned16(p.yawCentiDeg)]
  }

  function Body(p: TelemetryPacket): Bytes
    requires ValidatePacket(p) == None
  {
    Layout(HEADER, HeaderValues(p))
  }

  function EncodePacket(p: TelemetryPacket): Result<Bytes, ProtocolError> {
    match ValidatePacket(p)
    case Some(error) => Failure(error)
    case None => Success(Body(p) + Pack(Crc32Of(Body(p)), 4))
  }

  lemma TotalNone()
    ensures Total([]) == 0
  {
  }

  lemma TotalHead(a: nat, rest: seq<nat>)
    ensures Total([a] + rest) == a + Total(rest)
  {
    assert ([a] + rest)[1..] == rest;
  }

  lemma TotalOfSix(a: nat, b: nat, c: nat, d: nat, e: nat, f: nat)
    ensures Total([a, b, c, d, e, f]) == a + b + c + d + e + f
  {
    hide Total;
    TotalNone();
    TotalHead(f, []);
    TotalHead(e, [f]);
    TotalHead(d, [e, f]);
    TotalHead(c, [d, e, f]);
    TotalHead(b, [c, d, e, f]);
    TotalHead(a, [b, c, d, e, f]);
    assert [e] + [f] == [e, f] && [f] + [] == [f];
    assert [d] + [e, f] == [d, e, f];
    assert [c] + [d, e, f] == [c, d, e, f];
    assert [b] + [c, d, e, f] == [b, c, d, e, f];
    assert [a] + [b, c, d, e, f] == [a, b, c, d, e, f];
  }

  lemma {:induction false} TotalConcat(x: seq<nat>, y: seq<nat>)
    ensures Total(x + y) == Total(x) + Total(y)
  {
    if x == [] {
      assert x + y == y;
    } else {
      assert (x + y)[1..] == x[1..] + y;
      TotalConcat(x[1..], y);
    }
  }

  lemma HeaderTotal()
    ensures Total(HEADER) == BODY_SIZE
  {
    TotalOfSix(4, 1, 1, 4, 8, 1);
    TotalOfSix(2, 2, 2, 2, 2, 2);
    TotalConcat([4, 1, 1, 4, 8, 1], [2, 2, 2, 2, 2, 2]);
    assert HEADER == [4, 1, 1, 4, 8, 1] + [2, 2, 2, 2, 2, 2];
  }

  lemma PacketTotal()
    ensures PACKET == HEADER + [4] && Total(PACKET) == PACKET_SIZE
  {
    HeaderTotal();
    TotalConcat(HEADER, [4]);
    TotalHead(4, []);
    assert [4] + [] == [4];
    assert PACKET == HEADER + [4];
  }

  lemma Powers()
    ensures Pow256(1) == 0x100 && Pow256(2) == 0x1_0000 && Pow256(4) == WORD_32
    ensures Pow256(8) == 0x1_0000_0000_0000_0000
  {
    assert Pow256(1) == 256 * Pow256(0);
    assert Pow256(2) == 256 * Pow256(1);
    assert Pow256(3) == 256 * Pow256(2);
    assert Pow256(4) == 256 * Pow256(3);
    assert Pow256(5) == 256 * Pow256(4);
    assert Pow256(6) == 256 * Pow256(5);
    assert Pow256(7) == 256 * Pow256(6);
    assert Pow256(8) == 256 * Pow256(7);
  }

  /** The checks on unpacked fields, given the CRC calculated over the body. */
  function DecodeFields(f: seq<nat>, calculated: Word32): Result<TelemetryPacket, ProtocolError>
    requires |f| == 13
  {
    if f[0] != MAGIC then Failure(InvalidMagic)
    else if f[1] != VERSION then Failure(UnsupportedVersion)
    else if f[2] != 0 then Failure(UnsupportedFlags)
    else if f[12] != calculated then Failure(CrcMismatch)
    else if !(BOOT <= f[5] <= SAFE) then Failure(InvalidMode)
    else Success(TelemetryPacket(
      f[3], f[4], f[5], f[6], f[7], FromUnsigned16(f[8]), FromUnsigned16(f[9]),
      FromUnsigned16(f[10]), FromUnsigned16(f[11])))
  }

  function DecodePacket(data: Bytes): Result<TelemetryPacket, ProtocolError> {
    if |data| != PACKET_SIZE then Failure(WrongLength)
    else
      PacketTotal();
      DecodeFields(FieldsOf(PACKET, data), Crc32Of(data[..|data| - 4]))
  }

  // ---------- encode and decode are inverse ----------

  lemma HeaderFits(p: TelemetryPacket)
    requires ValidatePacket(p) == None
    ensures Fits(HEADER, HeaderValues(p))
  {
    Powers();
  }

  lemma BodyLength(p: TelemetryPacket)
    requires ValidatePacket(p) == None
    ensures |Body(p)| == BODY_SIZE
    ensures |EncodePacket(p).value| == PACKET_SIZE
  {
    HeaderTotal();
  }

  lemma EncodedParts(p: TelemetryPacket)
    requires ValidatePacket(p) == None
    ensures var data := EncodePacket(p).value;
      && |data| == PACKET_SIZE
      && data[..BODY_SIZE] == Body(p)
      && data[BODY_SIZE..] == Pack(Crc32Of(Body(p)), 4)
  {
    BodyLength(p);
  }

  lemma FitsAppend(widths: seq<nat>, values: seq<nat>, k: nat, n: nat)
    requires Fits(widths, values) && n < Pow256(k)
    ensures Fits(widths + [k], values + [n])
  {
  }

  /** Any twelve fitting fields and a CRC make one record of the packet's layout. */
  lemma RecordLayout(values: seq<nat>, crc: Word32)
    requires Fits(HEADER, values)
    ensures PACKET == HEADER + [4] && |values + [crc]| == |PACKET|
    ensures Layout(HEADER, values) + Pack(crc, 4) == Layout(PACKET, values + [crc])
    ensures Fits(PACKET, values + [crc])
  {
    hide Layout, Pack;
    PacketTotal();
    LayoutAppend(HEADER, values, 4, crc);
    Powers();
    FitsAppend(HEADER, values, 4, crc);
  }

  lemma EncodedLayout(p: TelemetryPacket, crc: Word32)
    requires ValidatePacket(p) == None
    ensures PACKET == HEADER + [4] && |HeaderValues(p) + [crc]| == |PACKET|
    ensures Body(p) + Pack(crc, 4) == Layout(PACKET, HeaderValues(p) + [crc])
    ensures Fits(PACKET, HeaderValues(p) + [crc])
  {
    HeaderFits(p);
    RecordLayout(HeaderValues(p), crc);
  }

  lemma DecodeHeaderValues(p: TelemetryPacket, crc: Word32)
    requires ValidatePacket(p) == None
    ensures DecodeFields(HeaderValues(p) + [crc], crc) == Success(p)
  {
    Complement16(p.temperatureCentiC, 0);
    Complement16(p.rollCentiDeg, 0);
    Complement16(p.pitchCentiDeg, 0);
    Complement16(p.yawCentiDeg, 0);
  }

  /** Decoding inverts encoding, for every packet in range, negative fields included. */
  lemma DecodeEncode(p: TelemetryPacket)
    requires ValidatePacket(p) == None
    ensures DecodePacket(EncodePacket(p).value) == Success(p)
  {
    hide Layout, FieldsOf, Total;
    var crc := Crc32Of(Body(p));
    EncodedParts(p);
    EncodedLayout(p, crc);
    FieldsOfLayout(PACKET, HeaderValues(p) + [crc]);
    DecodeHeaderValues(p, crc);
  }

  lemma FieldBounds(f: seq<nat>)
    requires |f| == 13 && Fits(PACKET, f)
    ensures f[3] < WORD_32 && f[4] < 0x1_0000_0000_0000_0000
    ensures f[6] < 0x1_0000 && f[7] < 0x1_0000 && f[8] < 0x1_0000
    ensures f[9] < 0x1_0000 && f[10] < 0x1_0000 && f[11] < 0x1_0000
  {
    Powers();
    assert f[3] < Pow256(PACKET[3]) && f[4] < Pow256(PACKET[4]);
    assert f[6] < Pow256(PACKET[6]) && f[7] < Pow256(PACKET[7]) && f[8] < Pow256(PACKET[8]);
    assert f[9] < Pow256(PACKET[9]) && f[10] < Pow256(PACKET[10]) && f[11] < Pow256(PACKET[11]);
  }

  /** Fields that pass the checks are those of the packet they decode to. */
  lemma FieldsAreHeaderValues(f: seq<nat>, crc: Word32)
    requires |f| == 13 && Fits(PACKET, f) && DecodeFields(f, crc).Success?
    ensures var p := DecodeFields(f, crc).value;
      ValidatePacket(p) == None && f == HeaderValues(p) + [crc]
  {
    FieldBounds(f);
    Complement16(0, f[8]);
    Complement16(0, f[9]);
    Complement16(0, f[10]);
    Complement16(0, f[11]);
  }

  lemma SplitsAt(data: Bytes, x: Bytes, y: Bytes)
    requires data == x + y
    ensures data[..|x|] == x && data[|x|..] == y
  {
  }

  /** Bytes are accepted only if re-encoding the result gives exactly those bytes. */
  lemma EncodeDecode(data: Bytes)
    requires DecodePacket(data).Success?
    ensures EncodePacket(DecodePacket(data).value) == Success(data)
  {
    PacketTotal();
    var crc := Crc32Of(data[..BODY_SIZE]);
    var f := FieldsOf(PACKET, data);
    LayoutOfFields(PACKET, data);
    FieldsAreHeaderValues(f, crc);
    var p := DecodePacket(data).value;
    EncodedLayout(p, crc);
    BodyLength(p);
    SplitsAt(data, Body(p), Pack(crc, 4));
  }

  /** Encoding and decoding are inverse relations. */
  lemma CodecIsInverse(p: TelemetryPacket, data: Bytes)
    ensures EncodePacket(p) == Success(data) <==> DecodePacket(data) == Success(p)
  {
    if EncodePacket(p) == Success(data) { DecodeEncode(p); }
    if DecodePacket(data) == Success(p) { EncodeDecode(data); }
  }

  // ---------- damage ----------

  lemma SameParts(x: Bytes, y: Bytes)
    requires |x| == |y| == PACKET_SIZE
    ensures x == y <==> x[..BODY_SIZE] == y[..BODY_SIZE] && x[BODY_SIZE..] == y[BODY_SIZE..]
  {
    assert x == x[..BODY_SIZE] + x[BODY_SIZE..];
    assert y == y[..BODY_SIZE] + y[BODY_SIZE..];
  }

  lemma PackInjective(a: Word32, b: Word32)
    ensures Pack(a, 4) == Pack(b, 4) <==> a == b
  {
    Powers();
    UnpackPack(a, 4);
    UnpackPack(b, 4);
  }

  /** A packet whose stored CRC is not that of its body is rejected, whatever else it holds. */
  lemma CrcFieldDecides(data: Bytes, stored: Word32)
    requires |data| == PACKET_SIZE && data[BODY_SIZE..] == Pack(stored, 4)
    requires stored != Crc32Of(data[..BODY_SIZE])
    ensures DecodePacket(data).Failure?
  {
    if DecodePacket(data).Success? {
      EncodeDecode(data);
      EncodedParts(DecodePacket(data).value);
      PackInjective(stored, Crc32Of(data[..BODY_SIZE]));
    }
  }

  /** Damage inside any 32 consecutive bits of the first 31 bytes is never accepted. */
  lemma DamagedBodyRejected(p: TelemetryPacket, data: Bytes, start: nat)
    requires ValidatePacket(p) == None
    requires |data| == PACKET_SIZE && data != EncodePacket(p).value
    requires data[BODY_SIZE..] == EncodePacket(p).value[BODY_SIZE..]
    requires DifferWithin(BitsOf(data[..BODY_SIZE]), BitsOf(EncodePacket(p).value[..BODY_SIZE]), start, 32)
    ensures DecodePacket(data).Failure?
  {
    EncodedParts(p);
    SameParts(data, EncodePacket(p).value);
    BurstChangesCrc(data[..BODY_SIZE], Body(p), start);
    CrcFieldDecides(data, Crc32Of(Body(p)));
  }

  /** Damage confined to the stored CRC is never accepted. */
  lemma DamagedCrcRejected(p: TelemetryPacket, data: Bytes)
    requires ValidatePacket(p) == None
    requires |data| == PACKET_SIZE && data != EncodePacket(p).value
    requires data[..BODY_SIZE] == EncodePacket(p).value[..BODY_SIZE]
    ensures DecodePacket(data).Failure?
  {
    EncodedParts(p);
    SameParts(data, EncodePacket(p).value);
    PackUnpack(data[BODY_SIZE..]);
    Powers();
    CrcFieldDecides(data, Unpack(data[BODY_SIZE..]));
  }

  /** One flipped bit anywhere in an encoded packet makes it undecodable. */
  lemma FlippedBitRejected(p: TelemetryPacket, bit: nat)
    requires ValidatePacket(p) == None
    requires bit < 8 * |EncodePacket(p).value|
    ensures DecodePacket(Flipped(EncodePacket(p).value, bit)).Failure?
  {
    hide DecodePacket, Crc32Of, BitsOf, Pack, Layout, HeaderValues, Total, Register, DifferWithin;
    var data := EncodePacket(p).value;
    var r := Flipped(data, bit);
    EncodedParts(p);
    FlipIsLocalInvolution(data, bit);
    assert r[bit / 8] != data[bit / 8];
    if bit / 8 < BODY_SIZE {
      assert r[BODY_SIZE..] == data[BODY_SIZE..];
      ByteWindowIsBurst(r[..BODY_SIZE], data[..BODY_SIZE], bit / 8);
      DamagedBodyRejected(p, r, 8 * (bit / 8));
    } else {
      assert r[..BODY_SIZE] == data[..BODY_SIZE];
      DamagedCrcRejected(p, r);
    }
  }

  /**
   * Every delivery the engine makes of an encoded packet decodes exactly when its corrupted bit is
   * absent, and then to the original telemetry.
   */
  lemma DeliveryDecodesIffUncorrupted(config: LinkConfig, index: nat, p: TelemetryPacket, c: nat)
    requires config.Valid() && ValidatePacket(p) == None
    requires c < |OutcomeAt(config, index, EncodePacket(p).value).deliveries|
    ensures var d := OutcomeAt(config, index, EncodePacket(p).value).deliveries[c];
      && (DecodePacket(d.payload).Success? <==> d.corruptedBit == None)
      && (d.corruptedBit == None ==> DecodePacket(d.payload) == Success(p))
  {
    var data := EncodePacket(p).value;
    var s := Samples(config, index);
    var bit := BitFrom(config, s, data);
    assert OutcomeAt(config, index, data) == OutcomeFrom(config, index, s, data);
    DecodeEncode(p);
    if bit.Some? { FlippedBitRejected(p, bit.value); }
  }

  // ---------- the on-board encoder ----------

  type U8 = v: int | 0 <= v < 0x100
  type U16 = v: int | 0 <= v < 0x1_0000
  type U32 = v: int | 0 <= v < WORD_32
  type U64 = v: int | 0 <= v < 0x1_0000_0000_0000_0000
  type I16 = v: int | -0x8000 <= v < 0x8000

  datatype Telemetry = Telemetry(
    sequence: U32,
    timestampMs: U64,
    mode: U8,
    batteryMv: U16,
    busCurrentMa: U16,
    temperatureCentiC: I16,
    rollCentiDeg: I16,
    pitchCentiDeg: I16,
    yawCentiDeg: I16)

  /** The packet that the ground station would build from the same fields. */
  function AsPacket(t: Telemetry): TelemetryPacket {
    TelemetryPacket(t.sequence, t.timestampMs, t.mode, t.batteryMv, t.busCurrentMa,
      t.temperatureCentiC, t.rollCentiDeg, t.pitchCentiDeg, t.yawCentiDeg)
  }

  lemma Div4(n: nat)
    ensures n / 2 / 2 == n / 4 && n / 4 / 4 == n / 16
  {
  }

  lemma ShrNibble(n: nat)
    ensures Shr(n, 4) == n / 16
  {
    assert Shr(n / 2, 1) == n / 2 / 2;
    assert Shr(n / 4 / 2, 1) == n / 4 / 2 / 2;
    ShrShr(n, 2, 2);
    Div4(n);
    Div4(n / 4);
  }

  lemma Div16(n: nat)
    ensures n / 16 / 16 == n / 256
  {
  }

  lemma ShrByte(n: nat)
    ensures Shr(n, 8) == n / 256
  {
    ShrNibble(n);
    ShrNibble(n / 16);
    ShrShr(n, 4, 4);
    Div16(n);
  }

  /** Bytes `value >> shift` for the shifts from `8 * (count - 1)` down to `8 * (count - done)`. */
  lemma {:induction false} ShiftedBytes(n: nat, k: nat, j: nat)
    requires j < k
    ensures Pack(n, k)[j] == Shr(n, 8 * (k - 1 - j)) % 256
    decreases k
  {
    if j == k - 1 {
    } else {
      ShiftedBytes(n / 256, k - 1, j);
      ShrByte(n);
      ShrShr(n, 8, 8 * (k - 2 - j));
    }
  }

  class Encoder {
    var out: Bytes
    /** The fields written so far. */
    ghost var widths: seq<nat>
    ghost var values: seq<nat>

    ghost predicate Valid()
      reads this
    {
      |widths| == |values| && out == Layout(widths, values)
    }

    constructor ()
      ensures Valid() && widths == [] && values == []
    {
      out := [];
      widths, values := [], [];
    }

    /** The descending shift loop of the wider append functions. */
    method AppendShifted(value: nat, count: nat)
      requires Valid()
      modifies this
      ensures Valid() && widths == old(widths) + [count] && values == old(values) + [value]
    {
      var shift := 8 * count - 8;
      ghost var done := 0;
      while shift >= 0
        invariant 0 <= done <= count && shift == 8 * (count - done) - 8
        invariant out == old(out) + Pack(value, count)[..done]
        invariant widths == old(widths) && values == old(values)
        decreases shift + 8
      {
        ShiftedBytes(value, count, done);
        out := out + [Shr(value, shift) % 256];
        shift := shift - 8;
        done := done + 1;
      }
      LayoutAppend(widths, values, count, value);
      widths, values := widths + [count], values + [value];
    }

    method AppendU16(value: U16)
      requires Valid()
      modifies this
      ensures Valid() && widths == old(widths) + [2] && values == old(values) + [value]
    {
      ShiftedBytes(value, 2, 0);
      ShiftedBytes(value, 2, 1);
      out := out + [Shr(value, 8) % 256];
      out := out + [value % 256];
      assert Pack(value, 2) == [Shr(value, 8) % 256, value % 256];
      LayoutAppend(widths, values, 2, value);
      widths, values := widths + [2], values + [value];
    }

    method AppendI16(value: I16)
      requires Valid()
      modifies this
      ensures Valid() && widths == old(widths) + [2] && values == old(values) + [ToUnsigned16(value)]
    {
      AppendU16(value % 0x1_0000);
    }

    method AppendU8(value: U8)
      requires Valid()
      modifies this
      ensures Valid() && widths == old(widths) + [1] && values == old(values) + [value]
    {
      out := out + [value];
      assert Pack(value, 1) == [value];
      LayoutAppend(widths, values, 1, value);
      widths, values := widths + [1], values + [value];
    }

    method AppendMagic()
      requires Valid()
      modifies this
      ensures Valid() && widths == old(widths) + [4] && values == old(values) + [MAGIC]
    {
      out := out + [0x4F, 0x52, 0x42, 0x54];
      assert Pack(0x4F, 1) == [0x4F];
      assert Pack(0x4F52, 2) == [0x4F, 0x52];
      assert Pack(0x4F_5242, 3) == [0x4F, 0x52, 0x42];
      assert Pack(MAGIC, 4) == [0x4F, 0x52, 0x42, 0x54];
      LayoutAppend(widths, values, 4, MAGIC);
      widths, values := widths + [4], values + [MAGIC];
    }
  }

  method AppendPrefix(e: Encoder, t: Telemetry)
    requires e.Valid() && e.widths == [] && e.values == []
    modifies e
    ensures e.Valid() && e.widths == HEADER[..6]
    ensures e.values == [MAGIC, VERSION, 0, t.sequence, t.timestampMs, t.mode]
  {
    e.AppendMagic();
    e.AppendU8(1);
    e.AppendU8(0);
    e.AppendShifted(t.sequence, 4);
    e.AppendShifted(t.timestampMs, 8);
    e.AppendU8(t.mode);
  }

  method AppendMeasurements(e: Encoder, t: Telemetry)
    requires e.Valid()
    modifies e
    ensures e.Valid() && e.widths == old(e.widths) + [2, 2, 2, 2, 2, 2]
    ensures e.values == old(e.values) + [
      t.batteryMv, t.busCurrentMa, ToUnsigned16(t.temperatureCentiC), ToUnsigned16(t.rollCentiDeg),
      ToUnsigned16(t.pitchCentiDeg), ToUnsigned16(t.yawCentiDeg)]
  {
    e.AppendU16(t.batteryMv);
    e.AppendU16(t.busCurrentMa);
    e.AppendI16(t.temperatureCentiC);
    e.AppendI16(t.rollCentiDeg);
    e.AppendI16(t.pitchCentiDeg);
    e.AppendI16(t.yawCentiDeg);
  }

  /** The values that the on-board encoder writes before the CRC, whatever the mode byte. */
  function WireValues(t: Telemetry): (r: seq<nat>)
    ensures |r| == |HEADER|
  {
    [MAGIC, VERSION, 0, t.sequence, t.timestampMs, t.mode] + [
      t.batteryMv, t.busCurrentMa, ToUnsigned16(t.temperatureCentiC), ToUnsigned16(t.rollCentiDeg),
      ToUnsigned16(t.pitchCentiDeg), ToUnsigned16(t.yawCentiDeg)]
  }

  lemma WireFits(t: Telemetry)
    ensures HEADER == HEADER[..6] + [2, 2, 2, 2, 2, 2]
    ensures Fits(HEADER, WireValues(t))
  {
    Powers();
  }

  /** The packet of a defined mode has these values; one of an undefined mode cannot be built. */
  lemma WireOfPacket(t: Telemetry)
    ensures t.mode <= SAFE ==> ValidatePacket(AsPacket(t)) == None && HeaderValues(AsPacket(t)) == WireValues(t)
    ensures t.mode > SAFE ==> ValidatePacket(AsPacket(t)) == Some(InvalidMode)
  {
  }

  function WireBody(t: Telemetry): Bytes { Layout(HEADER, WireValues(t)) }

  /** What the ground station makes of the on-board bytes. */
  lemma WireMeaning(t: Telemetry)
    ensures var data := WireBody(t) + Pack(Crc32Of(WireBody(t)), 4);
      && |data| == PACKET_SIZE
      && (t.mode <= SAFE ==> EncodePacket(AsPacket(t)) == Success(data))
      && (t.mode > SAFE ==> DecodePacket(data) == Failure(InvalidMode))
  {
    hide ValidatePacket, HeaderValues, AsPacket, Layout, FieldsOf, Total, Pack, Crc32Of;
    var crc := Crc32Of(WireBody(t));
    var data := WireBody(t) + Pack(crc, 4);
    HeaderTotal();
    WireFits(t);
    WireOfPacket(t);
    RecordLayout(WireValues(t), crc);
    FieldsOfLayout(PACKET, WireValues(t) + [crc]);
    assert data[..|data| - 4] == WireBody(t);
  }

  /** The fields before the CRC. */
  method AppendFields(e: Encoder, t: Telemetry)
    requires e.Valid() && e.widths == [] && e.values == []
    modifies e
    ensures e.Valid() && e.widths == HEADER && e.values == WireValues(t)
  {
    hide Layout, ToUnsigned16;
    WireFits(t);
    AppendPrefix(e, t);
    AppendMeasurements(e, t);
  }

  /**
   * On-board encoding: always 35 bytes; for every telemetry value with a defined mode, the ground
   * station's own bytes; and with an undefined mode byte, bytes that it refuses for that mode.
   */
  method Encode(t: Telemetry) returns (data: Bytes)
    ensures |data| == PACKET_SIZE
    ensures t.mode <= SAFE ==> EncodePacket(AsPacket(t)) == Success(data)
    ensures t.mode > SAFE ==> DecodePacket(data) == Failure(InvalidMode)
  {
    hide Layout, DecodePacket, EncodePacket, WireValues;
    var e := new Encoder();
    AppendFields(e, t);
    var crc := Crc32(e.out);
    e.AppendShifted(crc, 4);
    WireFits(t);
    RecordLayout(WireValues(t), crc);
    WireMeaning(t);
    data := e.out;
  }
}
