/** The binary packet format (src/protocol/codec.cpp, include/rollback_lab/protocol/packet.hpp). */
module Codec {
  import opened Core
  import opened Simulation
  import opened Bits
  import opened Records
  import opened Bytes
  import opened Crc32s
  import opened Canonical

  const PACKET_MAGIC: u32 := 0x4B424C52
  const PROTOCOL_VERSION: u16 := 1
  const MAX_REDUNDANT_INPUTS: int := 32
  const MAX_CONFIRMED_HASHES: int := 32
  const HEADER_SIZE: int := 32
  const INPUT_RECORD_SIZE: int := 10
  const HASH_RECORD_SIZE: int := 12
  const HELLO_RECORD_SIZE: int := 16

  const HELLO: u8 := 1
  const INPUT: u8 := 2
  const GOODBYE: u8 := 4

  datatype ConfirmedHash = ConfirmedHash(frame: u32, hash: u64)
  datatype HelloInfo = HelloInfo(simulationVersion: u32, digest: u64, targetFrame: u32)
  datatype Packet = Packet(version: u16, kind: u8, sender: PlayerId, sequence: u32, ack: u32, scenario: u64,
                           confirmedFrame: u32, inputs: seq<InputFrame>, hashes: seq<ConfirmedHash>,
                           hello: Option<HelloInfo>)

  predicate ValidKind(kind: u8) { HELLO <= kind <= GOODBYE }

  predicate OrderedHashes(hashes: seq<ConfirmedHash>) {
    forall i :: 0 < i < |hashes| ==> FrameBefore(hashes[i - 1].frame, hashes[i].frame)
  }

  predicate OwnInputs(inputs: seq<InputFrame>, sender: PlayerId) {
    forall i :: 0 <= i < |inputs| ==> inputs[i].player == sender
  }

  /** Only the five known button bits are set. The decoder checks this; the encoder does not. */
  predicate KnownButtons(inputs: seq<InputFrame>) {
    forall i :: 0 <= i < |inputs| ==> inputs[i].buttons < 32
  }

  function EncodeError(p: Packet): Option<ErrorCode> {
    if p.version != PROTOCOL_VERSION then Some(UnsupportedVersion)
    else if !ValidKind(p.kind) then Some(UnknownPacketType)
    else if |p.inputs| > MAX_REDUNDANT_INPUTS then Some(CapacityExceeded)
    else if |p.hashes| > MAX_CONFIRMED_HASHES then Some(CapacityExceeded)
    else if (p.kind == HELLO) != p.hello.Some? || (p.kind == HELLO && (p.inputs != [] || p.hashes != [])) then
      Some(InvalidArgument)
    else if !OwnInputs(p.inputs, p.sender) then Some(InvalidArgument)
    else if !OrderedHashes(p.hashes) then Some(InvalidArgument)
    else None
  }

  predicate Encodable(p: Packet) { EncodeError(p).None? }

  // ---- Layout ----

  const PREFIX_WIDTHS: seq<nat> := [4, 2, 1, 1, 4, 4, 8, 4, 1, 1]
  const LENGTH_WIDTHS: seq<nat> := [2]
  const HEADER_WIDTHS: seq<nat> := PREFIX_WIDTHS + LENGTH_WIDTHS
  const INPUT_WIDTHS: seq<nat> := [4, 1, 1, 4]
  const HASH_WIDTHS: seq<nat> := [4, 8]
  const HELLO_WIDTHS: seq<nat> := [4, 8, 4]

  lemma LayoutSizes()
    ensures Total(PREFIX_WIDTHS) == 30 && Total(LENGTH_WIDTHS) == 2 && Total(HEADER_WIDTHS) == HEADER_SIZE
    ensures Total(INPUT_WIDTHS) == INPUT_RECORD_SIZE && Total(HASH_WIDTHS) == HASH_RECORD_SIZE
    ensures Total(HELLO_WIDTHS) == HELLO_RECORD_SIZE
  {
    SumWidths(PREFIX_WIDTHS);
    SumWidths(LENGTH_WIDTHS);
    TotalConcat(PREFIX_WIDTHS, LENGTH_WIDTHS);
    SumWidths(INPUT_WIDTHS);
    SumWidths(HASH_WIDTHS);
    SumWidths(HELLO_WIDTHS);
  }

  function PrefixRow(p: Packet): (r: seq<nat>)
    requires |p.inputs| <= MAX_REDUNDANT_INPUTS && |p.hashes| <= MAX_CONFIRMED_HASHES
    ensures |r| == |PREFIX_WIDTHS|
  {
    [PACKET_MAGIC, p.version, p.kind, PlayerCode(p.sender), p.sequence, p.ack, p.scenario, p.confirmedFrame,
     |p.inputs|, |p.hashes|]
  }

  function InputRow(i: InputFrame): (r: seq<nat>)
    ensures |r| == |INPUT_WIDTHS|
  {
    [i.frame, PlayerCode(i.player), i.buttons, i.sequence]
  }

  function HashRow(h: ConfirmedHash): (r: seq<nat>)
    ensures |r| == |HASH_WIDTHS|
  {
    [h.frame, h.hash]
  }

  function HelloRow(h: HelloInfo): (r: seq<nat>)
    ensures |r| == |HELLO_WIDTHS|
  {
    [h.simulationVersion, h.digest, h.targetFrame]
  }

  function InputRows(inputs: seq<InputFrame>): (r: seq<seq<nat>>)
    ensures |r| == |inputs| && forall i :: 0 <= i < |r| ==> r[i] == InputRow(inputs[i])
  {
    seq(|inputs|, i requires 0 <= i < |inputs| => InputRow(inputs[i]))
  }

  function HashRows(hashes: seq<ConfirmedHash>): (r: seq<seq<nat>>)
    ensures |r| == |hashes| && forall i :: 0 <= i < |r| ==> r[i] == HashRow(hashes[i])
  {
    seq(|hashes|, i requires 0 <= i < |hashes| => HashRow(hashes[i]))
  }

  function HelloBytes(hello: Option<HelloInfo>): seq<u8> {
    if hello.None? then [] else Encode(HelloRow(hello.value), HELLO_WIDTHS)
  }

  function Payload(p: Packet): seq<u8> {
    EncodeRows(InputRows(p.inputs), INPUT_WIDTHS) + (EncodeRows(HashRows(p.hashes), HASH_WIDTHS) + HelloBytes(p.hello))
  }

  function Header(p: Packet): seq<u8>
    requires Encodable(p)
  {
    Encode(PrefixRow(p), PREFIX_WIDTHS) + LittleEndian(|Payload(p)|, 2)
  }

  function Body(p: Packet): seq<u8>
    requires Encodable(p)
  {
    Header(p) + Payload(p)
  }

  function Encoded(p: Packet): Result<seq<u8>> {
    if !Encodable(p) then Err(EncodeError(p).value) else Ok(Sealed(Body(p)))
  }

  lemma PayloadSize(p: Packet)
    requires Encodable(p)
    ensures |Payload(p)| == |p.inputs| * INPUT_RECORD_SIZE + |p.hashes| * HASH_RECORD_SIZE
                          + (if p.kind == HELLO then HELLO_RECORD_SIZE else 0)
    ensures |Header(p)| == HEADER_SIZE
  {
    hide InputRow, HashRow, HelloRow, PrefixRow;
    LayoutSizes();
  }

  /** Both size failures of `encode_packet` are unreachable: no encoding is longer than 740 bytes. */
  lemma EncodingIsSmall(p: Packet)
    requires Encodable(p)
    ensures |Payload(p)| <= 704 < U16 && Encoded(p).Ok?
    ensures HEADER_SIZE + CHECKSUM_SIZE <= |Encoded(p).value| <= 740 < MAX_PACKET_BYTES
  {
    hide Payload, Header;
    PayloadSize(p);
  }

  method WriteBody(writer: ByteWriter, p: Packet)
    requires Encodable(p) && writer.bytes == []
    modifies writer
    ensures writer.bytes == Body(p)
  {
    hide InputRow, HashRow, HelloRow, PrefixRow, LittleEndian, Payload, Encode, Total;
    LayoutSizes();
    PayloadSize(p);
    writer.AppendRecord(PrefixRow(p), PREFIX_WIDTHS);
    writer.AppendLittleEndian(0, 2);
    var payloadStart := |writer.bytes|;
    ghost var prefix := writer.bytes;
    WritePayload(writer, p);
    var payloadSize := |writer.bytes| - payloadStart;
    EncodingIsSmall(p);
    if payloadSize >= U16 {
      assert false;
    }
    assert writer.bytes[32..] == Payload(p) && writer.bytes[..30] == Encode(PrefixRow(p), PREFIX_WIDTHS);
    writer.PatchU16(30, payloadSize);
  }

  method WritePayload(writer: ByteWriter, p: Packet)
    requires Encodable(p)
    modifies writer
    ensures writer.bytes == old(writer.bytes) + Payload(p)
  {
    hide InputRow, HashRow, HelloRow, EncodeError, EncodeRows, Encode;
    writer.AppendTable(InputRows(p.inputs), INPUT_WIDTHS);
    writer.AppendTable(HashRows(p.hashes), HASH_WIDTHS);
    if p.hello.Some? {
      writer.AppendRecord(HelloRow(p.hello.value), HELLO_WIDTHS);
    }
  }

  method EncodePacket(p: Packet) returns (r: Result<seq<u8>>)
    ensures r == Encoded(p)
  {
    hide Body, LittleEndian, Crc32, Payload;
    var error := EncodeError(p);
    if error.Some? {
      return Err(error.value);
    }
    var writer := new ByteWriter();
    WriteBody(writer, p);
    EncodingIsSmall(p);
    var checksum := ComputeCrc32(writer.bytes);
    writer.AppendLittleEndian(checksum, CHECKSUM_SIZE);
    if |writer.bytes| > MAX_PACKET_BYTES {
      assert false;
    }
    r := Ok(writer.bytes);
  }

  // ---- Decoding ----

  function PlayerOf(code: nat): PlayerId { if code == 0 then A else B }

  function InputOf(row: seq<nat>): InputFrame
    requires Fits(row, INPUT_WIDTHS)
  {
    WidthValues();
    InputFrame(row[0], PlayerOf(row[1]), row[3], row[2])
  }

  function HashOfRow(row: seq<nat>): ConfirmedHash
    requires Fits(row, HASH_WIDTHS)
  {
    WidthValues();
    ConfirmedHash(row[0], row[1])
  }

  function HelloOf(row: seq<nat>): HelloInfo
    requires Fits(row, HELLO_WIDTHS)
  {
    WidthValues();
    HelloInfo(row[0], row[1], row[2])
  }

  /** An input record is refused when its player is not the sender or an unknown button is set. */
  predicate InputAccepted(row: seq<nat>, senderCode: nat)
    requires |row| == |INPUT_WIDTHS|
  {
    row[1] == senderCode && row[2] < 32
  }

  predicate InputsAccepted(rows: seq<seq<nat>>, senderCode: nat)
    requires forall i :: 0 <= i < |rows| ==> |rows[i]| == |INPUT_WIDTHS|
  {
    forall i :: 0 <= i < |rows| ==> InputAccepted(rows[i], senderCode)
  }

  function InputsOf(rows: seq<seq<nat>>): (r: seq<InputFrame>)
    requires Rectangular(rows, INPUT_WIDTHS)
    ensures |r| == |rows| && forall i :: 0 <= i < |r| ==> r[i] == InputOf(rows[i])
  {
    seq(|rows|, i requires 0 <= i < |rows| => InputOf(rows[i]))
  }

  function HashesOf(rows: seq<seq<nat>>): (r: seq<ConfirmedHash>)
    requires Rectangular(rows, HASH_WIDTHS)
    ensures |r| == |rows| && forall i :: 0 <= i < |r| ==> r[i] == HashOfRow(rows[i])
  {
    seq(|rows|, i requires 0 <= i < |rows| => HashOfRow(rows[i]))
  }

  /** Everything `decode_packet` checks before it reads the payload; `header` is the 32-byte header record. */
  function HeaderError(header: seq<nat>, size: nat): Option<ErrorCode>
    requires |header| == |HEADER_WIDTHS|
  {
    var kind, count, hashCount := header[2], header[8], header[9];
    var expected := count * INPUT_RECORD_SIZE + hashCount * HASH_RECORD_SIZE
                    + if kind == HELLO then HELLO_RECORD_SIZE else 0;
    if header[0] != PACKET_MAGIC then Some(InvalidMagic)
    else if header[1] != PROTOCOL_VERSION then Some(UnsupportedVersion)
    else if !(HELLO <= kind <= GOODBYE) then Some(UnknownPacketType)
    else if header[3] > 1 then Some(InvalidArgument)
    else if count > MAX_REDUNDANT_INPUTS then Some(CapacityExceeded)
    else if hashCount > MAX_CONFIRMED_HASHES then Some(CapacityExceeded)
    else if header[10] != expected || HEADER_SIZE + expected + CHECKSUM_SIZE != size then Some(InvalidLength)
    else None
  }

  function HelloFrom(kind: nat, bytes: seq<u8>): Option<HelloInfo>
    requires |bytes| == if kind == HELLO then HELLO_RECORD_SIZE else 0
  {
    if kind != HELLO then
      None
    else
      LayoutSizes();
      EncodeDecode(bytes, HELLO_WIDTHS);
      Some(HelloOf(Decode(bytes, HELLO_WIDTHS)))
  }

  /** The payload of an accepted header, as records. */
  function DecodedPayload(header: seq<nat>, payload: seq<u8>): Result<Packet>
    requires Fits(header, HEADER_WIDTHS) && HeaderError(header, |payload| + HEADER_SIZE + CHECKSUM_SIZE).None?
  {
    WidthValues();
    LayoutSizes();
    var a, b := header[8] * INPUT_RECORD_SIZE, header[8] * INPUT_RECORD_SIZE + header[9] * HASH_RECORD_SIZE;
    var inputRows := DecodeRows(payload[..a], INPUT_WIDTHS, header[8]);
    var hashRows := DecodeRows(payload[a..b], HASH_WIDTHS, header[9]);
    EncodeDecodeRows(payload[..a], INPUT_WIDTHS, header[8]);
    EncodeDecodeRows(payload[a..b], HASH_WIDTHS, header[9]);
    if !InputsAccepted(inputRows, header[3]) then Err(InvalidArgument)
    else if !OrderedHashes(HashesOf(hashRows)) then Err(InvalidArgument)
    else if header[2] == HELLO && (header[8] != 0 || header[9] != 0) then Err(InvalidArgument)
    else
      Ok(Packet(header[1], header[2], PlayerOf(header[3]), header[4], header[5], header[6], header[7],
                InputsOf(inputRows), HashesOf(hashRows), HelloFrom(header[2], payload[b..])))
  }

  function Decoded(bytes: seq<u8>): Result<Packet> {
    if |bytes| < HEADER_SIZE + CHECKSUM_SIZE then Err(TruncatedData)
    else if |bytes| > MAX_PACKET_BYTES then Err(InvalidLength)
    else if !Intact(bytes) then Err(IntegrityMismatch)
    else
      LayoutSizes();
      var n := |bytes| - CHECKSUM_SIZE;
      EncodeDecode(bytes[..HEADER_SIZE], HEADER_WIDTHS);
      var header := Decode(bytes[..HEADER_SIZE], HEADER_WIDTHS);
      if HeaderError(header, |bytes|).Some? then Err(HeaderError(header, |bytes|).value)
      else DecodedPayload(header, bytes[HEADER_SIZE..n])
  }

  method ReadInputs(reader: ByteReader, count: nat, senderCode: nat, ghost end: nat, ghost rows: seq<seq<nat>>)
    returns (r: Result<seq<InputFrame>>)
    requires reader.offset <= end <= |reader.bytes| && end - reader.offset == count * Total(INPUT_WIDTHS)
    requires rows == DecodeRows(reader.bytes[reader.offset..end], INPUT_WIDTHS, count)
      && Rectangular(rows, INPUT_WIDTHS)
    modifies reader
    ensures r == if InputsAccepted(rows, senderCode) then Ok(InputsOf(rows)) else Err(InvalidArgument)
    ensures r.Ok? ==> reader.offset == end
  {
    hide InputOf, DecodeRows, Total, Rectangular, Fits, InputAccepted;
    ghost var left := count;
    ghost var all := InputsOf(rows);
    var inputs: seq<InputFrame> := [];
    for index := 0 to count
      invariant left == count - index && reader.offset <= end && end - reader.offset == left * Total(INPUT_WIDTHS)
      invariant DecodeRows(reader.bytes[reader.offset..end], INPUT_WIDTHS, left) == rows[index..]
      invariant forall i :: 0 <= i < index ==> InputAccepted(rows[i], senderCode)
      invariant inputs == all[..index]
    {
      var row := reader.ReadRow(INPUT_WIDTHS, end, left);
      left := left - 1;
      assert rows[index] == rows[index..][0] == row && rows[index..][1..] == rows[index + 1..];
      if !InputAccepted(row, senderCode) {
        assert !InputAccepted(rows[index], senderCode);
        return Err(InvalidArgument);
      }
      inputs := inputs + [InputOf(row)];
    }
    assert left == 0 && end - reader.offset == 0 * Total(INPUT_WIDTHS) == 0;
    assert all[..count] == all;
    r := Ok(inputs);
  }

  method ReadHashes(reader: ByteReader, count: nat, ghost end: nat, ghost rows: seq<seq<nat>>)
    returns (r: Result<seq<ConfirmedHash>>)
    requires reader.offset <= end <= |reader.bytes| && end - reader.offset == count * Total(HASH_WIDTHS)
    requires rows == DecodeRows(reader.bytes[reader.offset..end], HASH_WIDTHS, count) && Rectangular(rows, HASH_WIDTHS)
    modifies reader
    ensures r == if OrderedHashes(HashesOf(rows)) then Ok(HashesOf(rows)) else Err(InvalidArgument)
    ensures r.Ok? ==> reader.offset == end
  {
    hide HashOfRow, DecodeRows, Total, FrameBefore, Rectangular, Fits;
    ghost var left := count;
    ghost var all := HashesOf(rows);
    var hashes: seq<ConfirmedHash> := [];
    var previous: u32 := 0;
    for index := 0 to count
      invariant left == count - index && reader.offset <= end && end - reader.offset == left * Total(HASH_WIDTHS)
      invariant DecodeRows(reader.bytes[reader.offset..end], HASH_WIDTHS, left) == rows[index..]
      invariant hashes == all[..index] && OrderedHashes(hashes)
      invariant index > 0 ==> previous == hashes[index - 1].frame
    {
      var row := reader.ReadRow(HASH_WIDTHS, end, left);
      left := left - 1;
      assert rows[index] == rows[index..][0] == row && rows[index..][1..] == rows[index + 1..];
      var hash := HashOfRow(row);
      if index != 0 && !FrameBefore(previous, hash.frame) {
        assert !FrameBefore(all[index - 1].frame, all[index].frame);
        return Err(InvalidArgument);
      }
      previous := hash.frame;
      hashes := hashes + [hash];
    }
    assert left == 0 && end - reader.offset == 0 * Total(HASH_WIDTHS) == 0;
    assert all[..count] == all;
    r := Ok(hashes);
  }

  method ReadHello(reader: ByteReader, kind: nat) returns (hello: Option<HelloInfo>)
    requires reader.Valid() && |reader.bytes| - reader.offset == if kind == HELLO then HELLO_RECORD_SIZE else 0
    modifies reader
    ensures hello == HelloFrom(kind, reader.bytes[old(reader.offset)..]) && reader.offset == |reader.bytes|
  {
    hide Decode, Total, HelloOf;
    if kind != HELLO {
      return None;
    }
    LayoutSizes();
    ghost var rest := reader.bytes[reader.offset..];
    assert rest == reader.bytes[reader.offset..reader.offset + HELLO_RECORD_SIZE];
    EncodeDecode(rest, HELLO_WIDTHS);
    var row := reader.ReadRecord(HELLO_WIDTHS);
    if row.Err? {
      assert false;
    }
    hello := Some(HelloOf(row.value));
  }

  method DecodePayload(reader: ByteReader, header: seq<nat>) returns (r: Result<Packet>)
    requires reader.Valid() && reader.offset == HEADER_SIZE
    requires Fits(header, HEADER_WIDTHS) && HeaderError(header, |reader.bytes| + CHECKSUM_SIZE).None?
    modifies reader
    ensures r == DecodedPayload(header, reader.bytes[HEADER_SIZE..])
  {
    hide InputsAccepted, OrderedHashes, InputsOf, HashesOf, DecodeRows, Total, HelloFrom, Pow256, Rectangular;
    WidthValues();
    LayoutSizes();
    ghost var payload := reader.bytes[HEADER_SIZE..];
    ghost var a, b := header[8] * INPUT_RECORD_SIZE, header[8] * INPUT_RECORD_SIZE + header[9] * HASH_RECORD_SIZE;
    ghost var inputRows := DecodeRows(payload[..a], INPUT_WIDTHS, header[8]);
    ghost var hashRows := DecodeRows(payload[a..b], HASH_WIDTHS, header[9]);
    EncodeDecodeRows(payload[..a], INPUT_WIDTHS, header[8]);
    EncodeDecodeRows(payload[a..b], HASH_WIDTHS, header[9]);
    SliceOfSlice(reader.bytes, HEADER_SIZE, 0, a);
    var inputs := ReadInputs(reader, header[8], header[3], HEADER_SIZE + a, inputRows);
    if inputs.Err? {
      return Err(inputs.error);
    }
    SliceOfSlice(reader.bytes, HEADER_SIZE, a, b);
    var hashes := ReadHashes(reader, header[9], HEADER_SIZE + b, hashRows);
    if hashes.Err? {
      return Err(hashes.error);
    }
    if header[2] == HELLO && (header[8] != 0 || header[9] != 0) {
      return Err(InvalidArgument);
    }
    assert payload[b..] == reader.bytes[HEADER_SIZE + b..];
    var hello := ReadHello(reader, header[2]);
    if |reader.bytes| - reader.offset != 0 {
      assert false;
    }
    r := Ok(Packet(header[1], header[2], PlayerOf(header[3]), header[4], header[5], header[6], header[7],
                   inputs.value, hashes.value, hello));
  }

  method DecodePacket(bytes: seq<u8>) returns (r: Result<Packet>)
    ensures r == Decoded(bytes)
  {
    hide DecodedPayload, HeaderError, Crc32, Number, Decode, Total, Fits, Encode;
    if |bytes| < HEADER_SIZE + CHECKSUM_SIZE {
      return Err(TruncatedData);
    }
    if |bytes| > MAX_PACKET_BYTES {
      return Err(InvalidLength);
    }
    var n := |bytes| - CHECKSUM_SIZE;
    var stored := ReadChecksum(bytes);
    var computed := ComputeCrc32(bytes[..n]);
    if stored != computed {
      return Err(IntegrityMismatch);
    }
    var reader := new ByteReader(bytes[..n]);
    LayoutSizes();
    EncodeDecode(bytes[..HEADER_SIZE], HEADER_WIDTHS);
    assert reader.bytes[0..HEADER_SIZE] == bytes[..HEADER_SIZE];
    var header := reader.ReadRecord(HEADER_WIDTHS);
    if header.Err? {
      assert false;
    }
    var error := HeaderError(header.value, |bytes|);
    if error.Some? {
      return Err(error.value);
    }
    assert reader.bytes[HEADER_SIZE..] == bytes[HEADER_SIZE..n];
    r := DecodePayload(reader, header.value);
  }

  // ---- The codec is a bijection ----

  function HeaderRow(p: Packet): (r: seq<nat>)
    requires Encodable(p)
    ensures |r| == |HEADER_WIDTHS|
  {
    PrefixRow(p) + [|Payload(p)|]
  }

  lemma HeaderRowFits(p: Packet)
    requires Encodable(p)
    ensures Fits(HeaderRow(p), HEADER_WIDTHS)
  {
    hide Payload, Encoded, Pow256, PrefixRow;
    WidthValues();
    EncodingIsSmall(p);
    PrefixFits(p);
    var row := HeaderRow(p);
    forall i | 0 <= i < |row| ensures row[i] < Pow256(HEADER_WIDTHS[i]) {
      if i < |PREFIX_WIDTHS| {
        assert row[i] == PrefixRow(p)[i] && HEADER_WIDTHS[i] == PREFIX_WIDTHS[i];
      }
    }
  }

  lemma PrefixFits(p: Packet)
    requires Encodable(p)
    ensures Fits(PrefixRow(p), PREFIX_WIDTHS)
  {
    hide Pow256, OwnInputs, OrderedHashes;
    WidthValues();
  }

  lemma HeaderIsAccepted(p: Packet)
    requires Encodable(p)
    ensures HeaderError(HeaderRow(p), |Body(p)| + CHECKSUM_SIZE).None?
  {
    hide Payload, Header;
    PayloadSize(p);
  }

  lemma HeaderIsARecord(p: Packet)
    requires Encodable(p)
    ensures Header(p) == Encode(HeaderRow(p), HEADER_WIDTHS) && Fits(HeaderRow(p), HEADER_WIDTHS)
    ensures HeaderError(HeaderRow(p), |Body(p)| + CHECKSUM_SIZE).None?
  {
    hide Payload, PrefixRow, HeaderError, Encode, Fits, Body;
    HeaderRowFits(p);
    HeaderIsAccepted(p);
    EncodeConcat(PrefixRow(p), PREFIX_WIDTHS, [|Payload(p)|], LENGTH_WIDTHS);
    EncodeOne(|Payload(p)|, 2);
  }

  lemma RowsFit(p: Packet)
    ensures Rectangular(InputRows(p.inputs), INPUT_WIDTHS) && Rectangular(HashRows(p.hashes), HASH_WIDTHS)
    ensures p.hello.Some? ==> Fits(HelloRow(p.hello.value), HELLO_WIDTHS)
  {
    hide Pow256;
    WidthValues();
  }

  lemma RowsIdentify(p: Packet)
    ensures Rectangular(InputRows(p.inputs), INPUT_WIDTHS) && Rectangular(HashRows(p.hashes), HASH_WIDTHS)
    ensures InputsOf(InputRows(p.inputs)) == p.inputs && HashesOf(HashRows(p.hashes)) == p.hashes
    ensures p.hello.Some? ==>
        Fits(HelloRow(p.hello.value), HELLO_WIDTHS) && HelloOf(HelloRow(p.hello.value)) == p.hello.value
    ensures OwnInputs(p.inputs, p.sender) ==>
        (InputsAccepted(InputRows(p.inputs), PlayerCode(p.sender)) <==> KnownButtons(p.inputs))
  {
    RowsFit(p);
  }

  lemma PayloadDecodes(p: Packet)
    requires Encodable(p) && Fits(HeaderRow(p), HEADER_WIDTHS)
    requires HeaderError(HeaderRow(p), |Payload(p)| + HEADER_SIZE + CHECKSUM_SIZE).None?
    ensures DecodedPayload(HeaderRow(p), Payload(p)) == if KnownButtons(p.inputs) then Ok(p) else Err(InvalidArgument)
  {
    hide InputRow, HashRow, HelloRow, InputOf, HashOfRow, HelloOf, InputsAccepted, KnownButtons, OrderedHashes, Encode,
         Decode, EncodeRows, DecodeRows, Total, HeaderError;
    LayoutSizes();
    PayloadSize(p);
    RowsIdentify(p);
    var a := |p.inputs| * INPUT_RECORD_SIZE;
    var b := a + |p.hashes| * HASH_RECORD_SIZE;
    var payload := Payload(p);
    assert payload[..a] == EncodeRows(InputRows(p.inputs), INPUT_WIDTHS);
    assert payload[a..b] == EncodeRows(HashRows(p.hashes), HASH_WIDTHS);
    assert payload[b..] == HelloBytes(p.hello);
    DecodeEncodeRows(InputRows(p.inputs), INPUT_WIDTHS);
    DecodeEncodeRows(HashRows(p.hashes), HASH_WIDTHS);
    if p.hello.Some? {
      DecodeEncode(HelloRow(p.hello.value), HELLO_WIDTHS);
    }
  }

  /** Decoding an encoded packet gives it back exactly when its inputs set known buttons only. */
  lemma DecodeOfEncode(p: Packet)
    requires Encodable(p)
    ensures Decoded(Encoded(p).value) == if KnownButtons(p.inputs) then Ok(p) else Err(InvalidArgument)
  {
    hide Payload, Header, HeaderRow, HeaderError, DecodedPayload, Intact, KnownButtons, EncodeError, Sealed, Total,
         Fits, Encode;
    var body := Body(p);
    EncodingIsSmall(p);
    PayloadSize(p);
    SealIsIntact(body);
    HeaderIsARecord(p);
    LayoutSizes();
    assert Sealed(body)[..HEADER_SIZE] == body[..HEADER_SIZE] == Header(p);
    assert Sealed(body)[HEADER_SIZE..|body|] == body[HEADER_SIZE..] == Payload(p);
    DecodeEncode(HeaderRow(p), HEADER_WIDTHS);
    PayloadDecodes(p);
  }

  lemma DecodedRowsIdentify(rows: seq<seq<nat>>, hashRows: seq<seq<nat>>, code: nat)
    requires Rectangular(rows, INPUT_WIDTHS) && Rectangular(hashRows, HASH_WIDTHS) && InputsAccepted(rows, code)
      && code <= 1
    ensures InputRows(InputsOf(rows)) == rows && HashRows(HashesOf(hashRows)) == hashRows
    ensures KnownButtons(InputsOf(rows)) && OwnInputs(InputsOf(rows), PlayerOf(code))
  {
    forall i | 0 <= i < |rows| ensures InputRow(InputOf(rows[i])) == rows[i]
      && InputOf(rows[i]).player == PlayerOf(code) {
      assert InputAccepted(rows[i], code);
    }
    forall i | 0 <= i < |hashRows| ensures HashRow(HashOfRow(hashRows[i])) == hashRows[i] {
    }
  }

  lemma HelloIdentifies(kind: nat, bytes: seq<u8>)
    requires |bytes| == if kind == HELLO then HELLO_RECORD_SIZE else 0
    ensures HelloBytes(HelloFrom(kind, bytes)) == bytes && (HelloFrom(kind, bytes).Some? <==> kind == HELLO)
  {
    LayoutSizes();
    if kind == HELLO {
      EncodeDecode(bytes, HELLO_WIDTHS);
      var row := Decode(bytes, HELLO_WIDTHS);
      assert HelloRow(HelloOf(row)) == row;
    }
  }

  lemma PayloadReencodes(header: seq<nat>, payload: seq<u8>, p: Packet)
    requires Fits(header, HEADER_WIDTHS) && HeaderError(header, |payload| + HEADER_SIZE + CHECKSUM_SIZE).None?
    requires DecodedPayload(header, payload) == Ok(p)
    ensures Encodable(p) && KnownButtons(p.inputs) && Payload(p) == payload && HeaderRow(p) == header
  {
    hide InputRow, HashRow, HelloRow, InputOf, HashOfRow, HelloOf, InputsAccepted, KnownButtons, OrderedHashes,
         OwnInputs, Encode, Decode, EncodeRows, DecodeRows, Total, HelloBytes, HelloFrom;
    LayoutSizes();
    var a, b := header[8] * INPUT_RECORD_SIZE, header[8] * INPUT_RECORD_SIZE + header[9] * HASH_RECORD_SIZE;
    var inputRows := DecodeRows(payload[..a], INPUT_WIDTHS, header[8]);
    var hashRows := DecodeRows(payload[a..b], HASH_WIDTHS, header[9]);
    EncodeDecodeRows(payload[..a], INPUT_WIDTHS, header[8]);
    EncodeDecodeRows(payload[a..b], HASH_WIDTHS, header[9]);
    DecodedRowsIdentify(inputRows, hashRows, header[3]);
    HelloIdentifies(header[2], payload[b..]);
    assert payload == payload[..a] + (payload[a..b] + payload[b..]);
    assert HeaderRow(p) == header;
  }

  /** Every accepted byte string is the encoding of what it decodes to, so the accepted strings are canonical. */
  lemma EncodeOfDecode(bytes: seq<u8>)
    requires Decoded(bytes).Ok?
    ensures var p := Decoded(bytes).value;
      Encodable(p) && KnownButtons(p.inputs) && Encoded(p) == Ok(bytes)
  {
    hide Payload, Header, HeaderRow, HeaderError, DecodedPayload, KnownButtons, EncodeError, Crc32, Number;
    LayoutSizes();
    var n := |bytes| - CHECKSUM_SIZE;
    EncodeDecode(bytes[..HEADER_SIZE], HEADER_WIDTHS);
    var header := Decode(bytes[..HEADER_SIZE], HEADER_WIDTHS);
    var p := Decoded(bytes).value;
    PayloadReencodes(header, bytes[HEADER_SIZE..n], p);
    HeaderIsARecord(p);
    assert Body(p) == bytes[..n];
    LittleEndianOfNumber(bytes[n..]);
    assert bytes == bytes[..n] + bytes[n..];
  }

  /** A packet with exactly one byte changed, anywhere, fails with an integrity error. */
  lemma OneByteCorruptionIsCaught(bytes: seq<u8>, i: nat, byte: u8)
    requires Decoded(bytes).Ok? && i < |bytes| && byte != bytes[i]
    ensures Decoded(bytes[i := byte]) == Err(IntegrityMismatch)
  {
    hide DecodedPayload, HeaderError, Intact;
    OneByteIsCaught(bytes, i, byte);
  }
}
