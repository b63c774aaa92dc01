/** Replay files: their binary format and their verification (src/replay/replay.cpp). */
module Replays {
  import opened Core
  import opened Simulation
  import opened Bits
  import opened Records
  import opened Bytes
  import opened Crc32s
  import opened Canonical

  const REPLAY_MAGIC: u32 := 0x50524C52
  const VERSION: u16 := 1
  const MAX_REPLAY_FRAMES: int := 1_000_000
  const MAX_REPLAY_CHECKPOINTS: int := 100_000
  const HEADER_SIZE: int := 48
  const PAIR_SIZE: int := 14
  const CHECKPOINT_SIZE: int := 12

  datatype Checkpoint = Checkpoint(frame: u32, hash: u64)

  /** `variant` is the raw byte: 0 canonical, 1 damage bias. */
  datatype Replay = Replay(replayVersion: u16, simulationVersion: u16, protocolVersion: u16, variant: u8,
                           scenarioSeed: u64, transportSeed: u64, finalFrame: u32,
                           inputs: seq<InputPair>, checkpoints: seq<Checkpoint>, expectedHash: u64)

  predicate Supported(r: Replay) {
    r.replayVersion == VERSION && r.simulationVersion == VERSION && r.protocolVersion == VERSION
  }

  predicate PairIsAligned(p: InputPair) { p.a.player.A? && p.b.player.B? && p.a.frame == p.b.frame }

  function EncodeError(r: Replay): Option<ErrorCode> {
    if !Supported(r) then Some(UnsupportedVersion)
    else if r.variant > 1 then Some(InvalidArgument)
    else if |r.inputs| > MAX_REPLAY_FRAMES || |r.checkpoints| > MAX_REPLAY_CHECKPOINTS
      || |r.inputs| != r.finalFrame then
      Some(CapacityExceeded)
    else if exists i :: 0 <= i < |r.inputs| && !PairIsAligned(r.inputs[i]) then Some(InvalidArgument)
    else None
  }

  predicate Encodable(r: Replay) { EncodeError(r).None? }

  // ---- Layout ----

  const HEADER_WIDTHS: seq<nat> := [4, 2, 2, 2, 1, 1, 8, 8, 4, 4, 4, 8]
  const PAIR_WIDTHS: seq<nat> := [4, 1, 4, 1, 4]
  const CHECKPOINT_WIDTHS: seq<nat> := [4, 8]

  lemma LayoutSizes()
    ensures Total(HEADER_WIDTHS) == HEADER_SIZE && Total(PAIR_WIDTHS) == PAIR_SIZE
    ensures Total(CHECKPOINT_WIDTHS) == CHECKPOINT_SIZE
  {
    SumWidths(HEADER_WIDTHS);
    SumWidths(PAIR_WIDTHS);
    SumWidths(CHECKPOINT_WIDTHS);
  }

  function HeaderRow(r: Replay): (row: seq<nat>)
    ensures |row| == |HEADER_WIDTHS|
  {
    [REPLAY_MAGIC, r.replayVersion, r.simulationVersion, r.protocolVersion, r.variant, 0, r.scenarioSeed,
      r.transportSeed,
     r.finalFrame, |r.inputs|, |r.checkpoints|, r.expectedHash]
  }

  function PairRow(p: InputPair): (row: seq<nat>)
    ensures |row| == |PAIR_WIDTHS|
  {
    [p.a.frame, p.a.buttons, p.a.sequence, p.b.buttons, p.b.sequence]
  }

  function CheckpointRow(c: Checkpoint): (row: seq<nat>)
    ensures |row| == |CHECKPOINT_WIDTHS|
  {
    [c.frame, c.hash]
  }

  function PairRows(inputs: seq<InputPair>): (rows: seq<seq<nat>>)
    ensures |rows| == |inputs| && forall i :: 0 <= i < |rows| ==> rows[i] == PairRow(inputs[i])
  {
    seq(|inputs|, i requires 0 <= i < |inputs| => PairRow(inputs[i]))
  }

  function CheckpointRows(checkpoints: seq<Checkpoint>): (rows: seq<seq<nat>>)
    ensures |rows| == |checkpoints| && forall i :: 0 <= i < |rows| ==> rows[i] == CheckpointRow(checkpoints[i])
  {
    seq(|checkpoints|, i requires 0 <= i < |checkpoints| => CheckpointRow(checkpoints[i]))
  }

  function Payload(r: Replay): seq<u8> {
    EncodeRows(PairRows(r.inputs), PAIR_WIDTHS) + EncodeRows(CheckpointRows(r.checkpoints), CHECKPOINT_WIDTHS)
  }

  function Body(r: Replay): seq<u8> { Encode(HeaderRow(r), HEADER_WIDTHS) + Payload(r) }

  function Encoded(r: Replay): Result<seq<u8>> {
    if !Encodable(r) then Err(EncodeError(r).value) else Ok(Sealed(Body(r)))
  }

  /** The input loop stops at the first pair of mismatched frames or swapped players. */
  method WritePairs(writer: ByteWriter, inputs: seq<InputPair>) returns (aligned: bool)
    modifies writer
    ensures aligned <==> forall i :: 0 <= i < |inputs| ==> PairIsAligned(inputs[i])
    ensures aligned ==> writer.bytes == old(writer.bytes) + EncodeRows(PairRows(inputs), PAIR_WIDTHS)
  {
    hide PairRow, PairIsAligned, EncodeRows, Encode;
    ghost var rows := PairRows(inputs);
    EmptyTable(PAIR_WIDTHS);
    for i := 0 to |inputs|
      invariant forall k :: 0 <= k < i ==> PairIsAligned(inputs[k])
      invariant writer.bytes == old(writer.bytes) + EncodeRows(rows[..i], PAIR_WIDTHS)
    {
      if !PairIsAligned(inputs[i]) {
        return false;
      }
      EncodeRowsSnoc(rows[..i], rows[i], PAIR_WIDTHS);
      assert rows[..i + 1] == rows[..i] + [rows[i]];
      writer.AppendRecord(PairRow(inputs[i]), PAIR_WIDTHS);
    }
    assert rows[..|inputs|] == rows;
    aligned := true;
  }

  lemma EmptyTable(widths: seq<nat>)
    ensures EncodeRows([], widths) == []
  {
  }

  method WriteBody(writer: ByteWriter, r: Replay) returns (aligned: bool)
    requires writer.bytes == []
    modifies writer
    ensures aligned <==> forall i :: 0 <= i < |r.inputs| ==> PairIsAligned(r.inputs[i])
    ensures aligned ==> writer.bytes == Body(r)
  {
    hide HeaderRow, PairRow, CheckpointRow, PairIsAligned, EncodeRows, Encode, Body;
    BodyInOrder(r);
    writer.AppendRecord(HeaderRow(r), HEADER_WIDTHS);
    aligned := WritePairs(writer, r.inputs);
    if aligned {
      writer.AppendTable(CheckpointRows(r.checkpoints), CHECKPOINT_WIDTHS);
    }
  }

  lemma BodyInOrder(r: Replay)
    ensures Body(r) == [] + Encode(HeaderRow(r), HEADER_WIDTHS) + EncodeRows(PairRows(r.inputs), PAIR_WIDTHS)
                       + EncodeRows(CheckpointRows(r.checkpoints), CHECKPOINT_WIDTHS)
  {
    hide HeaderRow, PairRow, CheckpointRow, EncodeRows, Encode;
  }

  method EncodeReplay(r: Replay) returns (result: Result<seq<u8>>)
    ensures result == Encoded(r)
  {
    hide Body, LittleEndian, Crc32, PairIsAligned;
    if !Supported(r) {
      return Err(UnsupportedVersion);
    }
    if r.variant > 1 {
      return Err(InvalidArgument);
    }
    if |r.inputs| > MAX_REPLAY_FRAMES || |r.checkpoints| > MAX_REPLAY_CHECKPOINTS || |r.inputs| != r.finalFrame {
      return Err(CapacityExceeded);
    }
    var writer := new ByteWriter();
    var aligned := WriteBody(writer, r);
    if !aligned {
      return Err(InvalidArgument);
    }
    var checksum := ComputeCrc32(writer.bytes);
    writer.AppendLittleEndian(checksum, CHECKSUM_SIZE);
    result := Ok(writer.bytes);
  }

  // ---- Decoding ----

  function HeaderError(header: seq<nat>, size: nat): Option<ErrorCode>
    requires |header| == |HEADER_WIDTHS|
  {
    if header[0] != REPLAY_MAGIC then Some(InvalidMagic)
    else if header[1] != VERSION || header[2] != VERSION || header[3] != VERSION then Some(UnsupportedVersion)
    else if header[4] > 1 || header[5] != 0 then Some(InvalidArgument)
    else if header[9] > MAX_REPLAY_FRAMES || header[10] > MAX_REPLAY_CHECKPOINTS || header[9] != header[8] then
      Some(CapacityExceeded)
    else if size != HEADER_SIZE + header[9] * PAIR_SIZE + header[10] * CHECKPOINT_SIZE + CHECKSUM_SIZE then
      Some(InvalidLength)
    else None
  }

  predicate PairAccepted(row: seq<nat>, index: nat)
    requires |row| == |PAIR_WIDTHS|
  {
    row[0] == index && row[1] < 32 && row[3] < 32
  }

  predicate PairsAccepted(rows: seq<seq<nat>>)
    requires forall i :: 0 <= i < |rows| ==> |rows[i]| == |PAIR_WIDTHS|
  {
    forall i :: 0 <= i < |rows| ==> PairAccepted(rows[i], i)
  }

  function PairOf(row: seq<nat>): InputPair
    requires Fits(row, PAIR_WIDTHS)
  {
    WidthValues();
    InputPair(InputFrame(row[0], A, row[2], row[1]), InputFrame(row[0], B, row[4], row[3]))
  }

  function CheckpointOf(row: seq<nat>): Checkpoint
    requires Fits(row, CHECKPOINT_WIDTHS)
  {
    WidthValues();
    Checkpoint(row[0], row[1])
  }

  function PairsOf(rows: seq<seq<nat>>): (r: seq<InputPair>)
    requires Rectangular(rows, PAIR_WIDTHS)
    ensures |r| == |rows| && forall i :: 0 <= i < |r| ==> r[i] == PairOf(rows[i])
  {
    seq(|rows|, i requires 0 <= i < |rows| => PairOf(rows[i]))
  }

  function CheckpointsOf(rows: seq<seq<nat>>): (r: seq<Checkpoint>)
    requires Rectangular(rows, CHECKPOINT_WIDTHS)
    ensures |r| == |rows| && forall i :: 0 <= i < |r| ==> r[i] == CheckpointOf(rows[i])
  {
    seq(|rows|, i requires 0 <= i < |rows| => CheckpointOf(rows[i]))
  }

  predicate CheckpointsOrdered(checkpoints: seq<Checkpoint>, finalFrame: nat) {
    && (forall i :: 0 <= i < |checkpoints| ==> checkpoints[i].frame <= finalFrame)
    && (forall i :: 0 < i < |checkpoints| ==> FrameBefore(checkpoints[i - 1].frame, checkpoints[i].frame))
  }

  lemma AcceptedSizes(header: seq<nat>, payload: seq<u8>)
    requires |header| == |HEADER_WIDTHS| && HeaderError(header, HEADER_SIZE + |payload| + CHECKSUM_SIZE).None?
    ensures 0 <= header[9] * PAIR_SIZE <= |payload| && |payload| - header[9] * PAIR_SIZE == header[10] * CHECKPOINT_SIZE
    ensures header[1] == header[2] == header[3] == VERSION && header[4] <= 1
      && header[9] == header[8] <= MAX_REPLAY_FRAMES
    ensures header[0] == REPLAY_MAGIC && header[5] == 0 && header[10] <= MAX_REPLAY_CHECKPOINTS
  {
  }

  lemma AcceptedFields(header: seq<nat>)
    requires Fits(header, HEADER_WIDTHS)
    ensures header[6] < U64 && header[7] < U64 && header[11] < U64
  {
    hide Pow256;
    WidthValues();
  }

  function DecodedPayload(header: seq<nat>, payload: seq<u8>): Result<Replay>
    requires Fits(header, HEADER_WIDTHS) && HeaderError(header, HEADER_SIZE + |payload| + CHECKSUM_SIZE).None?
  {
    AcceptedSizes(header, payload);
    AcceptedFields(header);
    LayoutSizes();
    var a := header[9] * PAIR_SIZE;
    var pairRows := DecodeRows(payload[..a], PAIR_WIDTHS, header[9]);
    var checkpointRows := DecodeRows(payload[a..], CHECKPOINT_WIDTHS, header[10]);
    EncodeDecodeRows(payload[..a], PAIR_WIDTHS, header[9]);
    EncodeDecodeRows(payload[a..], CHECKPOINT_WIDTHS, header[10]);
    if !PairsAccepted(pairRows) then Err(InvalidArgument)
    else if !CheckpointsOrdered(CheckpointsOf(checkpointRows), header[8]) then Err(InvalidArgument)
    else Ok(Replay(header[1], header[2], header[3], header[4], header[6], header[7], header[8],
                   PairsOf(pairRows), CheckpointsOf(checkpointRows), header[11]))
  }

  function Decoded(bytes: seq<u8>): Result<Replay> {
    if |bytes| < HEADER_SIZE + CHECKSUM_SIZE then Err(TruncatedData)
    else if !Intact(bytes) then Err(IntegrityMismatch)
    else
      LayoutSizes();
      EncodeDecode(bytes[..HEADER_SIZE], HEADER_WIDTHS);
      var header := Decode(bytes[..HEADER_SIZE], HEADER_WIDTHS);
      if HeaderError(header, |bytes|).Some? then Err(HeaderError(header, |bytes|).value)
      else DecodedPayload(header, bytes[HEADER_SIZE..|bytes| - CHECKSUM_SIZE])
  }

  method ReadPairs(reader: ByteReader, count: nat, ghost end: nat,
      ghost rows: seq<seq<nat>>) returns (r: Result<seq<InputPair>>)
    requires reader.offset <= end <= |reader.bytes| && end - reader.offset == count * Total(PAIR_WIDTHS)
    requires rows == DecodeRows(reader.bytes[reader.offset..end], PAIR_WIDTHS, count) && Rectangular(rows, PAIR_WIDTHS)
    modifies reader
    ensures r == if PairsAccepted(rows) then Ok(PairsOf(rows)) else Err(InvalidArgument)
    ensures r.Ok? ==> reader.offset == end
  {
    hide PairOf, DecodeRows, Total, Rectangular, Fits, PairAccepted;
    ghost var left := count;
    ghost var all := PairsOf(rows);
    var pairs: seq<InputPair> := [];
    for index := 0 to count
      invariant left == count - index && reader.offset <= end && end - reader.offset == left * Total(PAIR_WIDTHS)
      invariant DecodeRows(reader.bytes[reader.offset..end], PAIR_WIDTHS, left) == rows[index..]
      invariant forall i :: 0 <= i < index ==> PairAccepted(rows[i], i)
      invariant pairs == all[..index]
    {
      var row := reader.ReadRow(PAIR_WIDTHS, end, left);
      left := left - 1;
      assert rows[index] == rows[index..][0] == row && rows[index..][1..] == rows[index + 1..];
      if !PairAccepted(row, index) {
        assert !PairAccepted(rows[index], index);
        return Err(InvalidArgument);
      }
      pairs := pairs + [PairOf(row)];
    }
    assert left == 0 && end - reader.offset == 0 * Total(PAIR_WIDTHS) == 0;
    assert all[..count] == all;
    r := Ok(pairs);
  }

  method ReadCheckpoints(reader: ByteReader, count: nat, finalFrame: nat, ghost end: nat, ghost rows: seq<seq<nat>>)
    returns (r: Result<seq<Checkpoint>>)
    requires reader.offset <= end <= |reader.bytes| && end - reader.offset == count * Total(CHECKPOINT_WIDTHS)
    requires rows == DecodeRows(reader.bytes[reader.offset..end], CHECKPOINT_WIDTHS, count)
      && Rectangular(rows, CHECKPOINT_WIDTHS)
    modifies reader
    ensures r == if CheckpointsOrdered(CheckpointsOf(rows),
      finalFrame) then Ok(CheckpointsOf(rows)) else Err(InvalidArgument)
  {
    hide CheckpointOf, DecodeRows, Total, FrameBefore, Rectangular, Fits;
    ghost var left := count;
    ghost var all := CheckpointsOf(rows);
    var checkpoints: seq<Checkpoint> := [];
    var previous: u32 := 0;
    var first := true;
    for index := 0 to count
      invariant left == count - index && reader.offset <= end && end - reader.offset == left * Total(CHECKPOINT_WIDTHS)
      invariant DecodeRows(reader.bytes[reader.offset..end], CHECKPOINT_WIDTHS, left) == rows[index..]
      invariant checkpoints == all[..index] && CheckpointsOrdered(checkpoints, finalFrame)
      invariant first == (index == 0) && (index > 0 ==> previous == checkpoints[index - 1].frame)
    {
      var row := reader.ReadRow(CHECKPOINT_WIDTHS, end, left);
      left := left - 1;
      assert rows[index] == rows[index..][0] == row && rows[index..][1..] == rows[index + 1..];
      var checkpoint := CheckpointOf(row);
      assert all[index] == checkpoint;
      if checkpoint.frame > finalFrame || (!first && !FrameBefore(previous, checkpoint.frame)) {
        assert all[index].frame > finalFrame || !FrameBefore(all[index - 1].frame, all[index].frame);
        return Err(InvalidArgument);
      }
      first := false;
      previous := checkpoint.frame;
      checkpoints := checkpoints + [checkpoint];
    }
    assert all[..count] == all;
    r := Ok(checkpoints);
  }

  method DecodePayload(reader: ByteReader, header: seq<nat>) returns (r: Result<Replay>)
    requires reader.offset == HEADER_SIZE <= |reader.bytes|
    requires Fits(header, HEADER_WIDTHS) && HeaderError(header, |reader.bytes| + CHECKSUM_SIZE).None?
    modifies reader
    ensures r == DecodedPayload(header, reader.bytes[HEADER_SIZE..])
  {
    hide PairsAccepted, CheckpointsOrdered, PairsOf, CheckpointsOf, DecodeRows, Total, Pow256, Rectangular;
    WidthValues();
    LayoutSizes();
    ghost var payload := reader.bytes[HEADER_SIZE..];
    ghost var a := header[9] * PAIR_SIZE;
    ghost var pairRows := DecodeRows(payload[..a], PAIR_WIDTHS, header[9]);
    ghost var checkpointRows := DecodeRows(payload[a..], CHECKPOINT_WIDTHS, header[10]);
    EncodeDecodeRows(payload[..a], PAIR_WIDTHS, header[9]);
    EncodeDecodeRows(payload[a..], CHECKPOINT_WIDTHS, header[10]);
    assert payload[..a] == reader.bytes[HEADER_SIZE..HEADER_SIZE + a];
    var pairs := ReadPairs(reader, header[9], HEADER_SIZE + a, pairRows);
    if pairs.Err? {
      return Err(pairs.error);
    }
    assert payload[a..] == reader.bytes[HEADER_SIZE + a..|reader.bytes|];
    var checkpoints := ReadCheckpoints(reader, header[10], header[8], |reader.bytes|, checkpointRows);
    if checkpoints.Err? {
      return Err(checkpoints.error);
    }
    r := Ok(Replay(header[1], header[2], header[3], header[4], header[6], header[7], header[8],
                   pairs.value, checkpoints.value, header[11]));
  }

  method DecodeReplay(bytes: seq<u8>) returns (r: Result<Replay>)
    ensures r == Decoded(bytes)
  {
    hide DecodedPayload, HeaderError, Crc32, Number, Decode, Total, Fits, Encode;
    if |bytes| < HEADER_SIZE + CHECKSUM_SIZE {
      return Err(TruncatedData);
    }
    var n := |bytes| - CHECKSUM_SIZE;
    var stored := ReadChecksum(bytes);
    var computed := ComputeCrc32(bytes[..n]);
    if stored != computed {
      return Err(IntegrityMismatch);
    }
    var reader := new ByteReader(bytes[..n]);
    LayoutSizes();
    EncodeDecode(bytes[..HEADER_SIZE], HEADER_WIDTHS);
    assert reader.bytes[0..HEADER_SIZE] == bytes[..HEADER_SIZE];
    var header := reader.ReadRecord(HEADER_WIDTHS);
    if header.Err? {
      assert false;
    }
    var error := HeaderError(header.value, |bytes|);
    if error.Some? {
      return Err(error.value);
    }
    assert reader.bytes[HEADER_SIZE..] == bytes[HEADER_SIZE..n];
    r := DecodePayload(reader, header.value);
  }

  // ---- The format is a bijection on well-formed replays ----

  /** What the decoder insists on and the encoder does not check. */
  predicate WellFormed(r: Replay) {
    && (forall i :: 0 <= i < |r.inputs| ==>
          r.inputs[i].a.frame == i && r.inputs[i].a.buttons < 32 && r.inputs[i].b.buttons < 32)
    && CheckpointsOrdered(r.checkpoints, r.finalFrame)
  }

  lemma RowsIdentify(r: Replay)
    requires forall i :: 0 <= i < |r.inputs| ==> PairIsAligned(r.inputs[i])
    ensures Rectangular(PairRows(r.inputs), PAIR_WIDTHS)
      && Rectangular(CheckpointRows(r.checkpoints), CHECKPOINT_WIDTHS)
    ensures PairsOf(PairRows(r.inputs)) == r.inputs && CheckpointsOf(CheckpointRows(r.checkpoints)) == r.checkpoints
    ensures PairsAccepted(PairRows(r.inputs)) <==>
        forall i :: 0 <= i < |r.inputs| ==>
            r.inputs[i].a.frame == i && r.inputs[i].a.buttons < 32 && r.inputs[i].b.buttons < 32
  {
    hide Pow256;
    WidthValues();
    forall i | 0 <= i < |r.inputs| ensures Fits(PairRow(r.inputs[i]), PAIR_WIDTHS)
      && PairOf(PairRow(r.inputs[i])) == r.inputs[i] {
      assert PairIsAligned(r.inputs[i]);
    }
    var rows := PairRows(r.inputs);
    assert forall i :: 0 <= i < |r.inputs| ==> (PairAccepted(rows[i], i) <==>
        r.inputs[i].a.frame == i && r.inputs[i].a.buttons < 32 && r.inputs[i].b.buttons < 32);
  }

  lemma PayloadDecodes(r: Replay)
    requires Encodable(r) && Fits(HeaderRow(r), HEADER_WIDTHS)
    requires HeaderError(HeaderRow(r), HEADER_SIZE + |Payload(r)| + CHECKSUM_SIZE).None?
    ensures DecodedPayload(HeaderRow(r), Payload(r)) == if WellFormed(r) then Ok(r) else Err(InvalidArgument)
  {
    hide PairRow, CheckpointRow, PairOf, CheckpointOf, PairsAccepted, CheckpointsOrdered, Encode, Decode, EncodeRows,
         DecodeRows, Total, HeaderError;
    LayoutSizes();
    RowsIdentify(r);
    var a := |r.inputs| * PAIR_SIZE;
    assert Payload(r)[..a] == EncodeRows(PairRows(r.inputs), PAIR_WIDTHS);
    assert Payload(r)[a..] == EncodeRows(CheckpointRows(r.checkpoints), CHECKPOINT_WIDTHS);
    DecodeEncodeRows(PairRows(r.inputs), PAIR_WIDTHS);
    DecodeEncodeRows(CheckpointRows(r.checkpoints), CHECKPOINT_WIDTHS);
  }

  lemma PayloadSize(r: Replay)
    ensures |Payload(r)| == |r.inputs| * PAIR_SIZE + |r.checkpoints| * CHECKPOINT_SIZE
    ensures |Encode(HeaderRow(r), HEADER_WIDTHS)| == HEADER_SIZE
  {
    hide PairRow, CheckpointRow, HeaderRow;
    LayoutSizes();
  }

  lemma HeaderRowFits(r: Replay)
    requires Encodable(r)
    ensures Fits(HeaderRow(r), HEADER_WIDTHS)
  {
    hide Pow256, PairIsAligned;
    WidthValues();
  }

  lemma HeaderIsAccepted(r: Replay)
    requires Encodable(r)
    ensures Fits(HeaderRow(r), HEADER_WIDTHS)
    ensures HeaderError(HeaderRow(r), HEADER_SIZE + |Payload(r)| + CHECKSUM_SIZE).None?
    ensures |Encode(HeaderRow(r), HEADER_WIDTHS)| == HEADER_SIZE
  {
    hide Fits, Payload, HeaderRow, HeaderError, Encodable, Encode;
    PayloadSize(r);
    HeaderRowFits(r);
    HeaderIsCorrect(r, |Payload(r)|);
  }

  lemma HeaderIsCorrect(r: Replay, size: nat)
    requires Encodable(r) && size == |r.inputs| * PAIR_SIZE + |r.checkpoints| * CHECKPOINT_SIZE
    ensures HeaderError(HeaderRow(r), HEADER_SIZE + size + CHECKSUM_SIZE).None?
  {
    hide PairIsAligned;
  }

  /** Decoding an encoded replay gives it back exactly when the replay is well formed. */
  lemma DecodeOfEncode(r: Replay)
    requires Encodable(r)
    ensures Decoded(Encoded(r).value) == if WellFormed(r) then Ok(r) else Err(InvalidArgument)
  {
    hide Payload, HeaderRow, HeaderError, DecodedPayload, Intact, WellFormed, EncodeError, Sealed;
    var body := Body(r);
    SealIsIntact(body);
    HeaderIsAccepted(r);
    LayoutSizes();
    assert Sealed(body)[..HEADER_SIZE] == body[..HEADER_SIZE] == Encode(HeaderRow(r), HEADER_WIDTHS);
    assert Sealed(body)[HEADER_SIZE..|body|] == body[HEADER_SIZE..] == Payload(r);
    DecodeEncode(HeaderRow(r), HEADER_WIDTHS);
    PayloadDecodes(r);
  }

  lemma DecodedRowsIdentify(rows: seq<seq<nat>>, checkpointRows: seq<seq<nat>>)
    requires Rectangular(rows, PAIR_WIDTHS) && Rectangular(checkpointRows, CHECKPOINT_WIDTHS) && PairsAccepted(rows)
    ensures PairRows(PairsOf(rows)) == rows && CheckpointRows(CheckpointsOf(checkpointRows)) == checkpointRows
    ensures forall i :: 0 <= i < |rows| ==>
        PairIsAligned(PairsOf(rows)[i]) && PairsOf(rows)[i].a.frame == i
        && PairsOf(rows)[i].a.buttons < 32 && PairsOf(rows)[i].b.buttons < 32
  {
    forall i | 0 <= i < |rows| ensures PairRow(PairOf(rows[i])) == rows[i] && PairAccepted(rows[i], i) {
    }
    forall i | 0 <= i < |checkpointRows| ensures CheckpointRow(CheckpointOf(checkpointRows[i])) == checkpointRows[i] {
    }
  }

  lemma PayloadReencodes(header: seq<nat>, payload: seq<u8>, r: Replay)
    requires Fits(header, HEADER_WIDTHS) && HeaderError(header, HEADER_SIZE + |payload| + CHECKSUM_SIZE).None?
    requires DecodedPayload(header, payload) == Ok(r)
    ensures Encodable(r) && WellFormed(r) && Payload(r) == payload && HeaderRow(r) == header
  {
    hide PairRow, CheckpointRow, PairOf, CheckpointOf, PairsAccepted, CheckpointsOrdered, Encode, Decode, EncodeRows,
         DecodeRows, Total, PairIsAligned;
    LayoutSizes();
    var a := header[9] * PAIR_SIZE;
    var pairRows := DecodeRows(payload[..a], PAIR_WIDTHS, header[9]);
    var checkpointRows := DecodeRows(payload[a..], CHECKPOINT_WIDTHS, header[10]);
    EncodeDecodeRows(payload[..a], PAIR_WIDTHS, header[9]);
    EncodeDecodeRows(payload[a..], CHECKPOINT_WIDTHS, header[10]);
    DecodedRowsIdentify(pairRows, checkpointRows);
    assert payload == payload[..a] + payload[a..];
    assert HeaderRow(r) == header;
  }

  /** Every accepted file is the encoding of the well-formed replay it decodes to. */
  lemma EncodeOfDecode(bytes: seq<u8>)
    requires Decoded(bytes).Ok?
    ensures var r := Decoded(bytes).value; Encodable(r) && WellFormed(r) && Encoded(r) == Ok(bytes)
  {
    hide Payload, HeaderRow, HeaderError, DecodedPayload, WellFormed, EncodeError, Crc32, Number, LittleEndian, Encode,
         Decode, Total, Fits;
    LayoutSizes();
    var n := |bytes| - CHECKSUM_SIZE;
    EncodeDecode(bytes[..HEADER_SIZE], HEADER_WIDTHS);
    var header := Decode(bytes[..HEADER_SIZE], HEADER_WIDTHS);
    PayloadReencodes(header, bytes[HEADER_SIZE..n], Decoded(bytes).value);
    assert Body(Decoded(bytes).value) == bytes[..n];
    LittleEndianOfNumber(bytes[n..]);
    assert bytes == bytes[..n] + bytes[n..];
  }

  /** A replay file with exactly one byte changed, anywhere, fails with an integrity error. */
  lemma OneByteCorruptionIsCaught(bytes: seq<u8>, i: nat, byte: u8)
    requires Decoded(bytes).Ok? && i < |bytes| && byte != bytes[i]
    ensures Decoded(bytes[i := byte]) == Err(IntegrityMismatch)
  {
    hide DecodedPayload, HeaderError, Intact;
    OneByteIsCaught(bytes, i, byte);
  }

  // ---- Verification ----

  datatype Verification = Verification(success: bool, finalFrame: u32, finalHash: u64)

  function VariantOf(code: u8): Variant { if code == 1 then DamageBias else Canonical }

  /** The fold of the simulation over the first `n` input pairs. */
  function ReplayFold(r: Replay, n: nat): (w: Result<World>)
    requires n <= |r.inputs|
  {
    if n == 0 then Ok(InitialWorld())
    else
      var before :- ReplayFold(r, n - 1);
      Simulated(before, (n - 1) % U32, r.inputs[n - 1], VariantOf(r.variant))
  }

  predicate CheckpointHolds(r: Replay, c: Checkpoint) {
    && 1 <= c.frame <= |r.inputs|
    && ReplayFold(r, c.frame).Ok?
    && c.hash == HashCanonical(ReplayFold(r, c.frame).value)
  }

  predicate Increasing(checkpoints: seq<Checkpoint>) {
    forall i, j :: 0 <= i < j < |checkpoints| ==> checkpoints[i].frame < checkpoints[j].frame
  }

  /** What a replay claims: a run of the simulation with these inputs, checkpoint hashes and final hash. */
  predicate Holds(r: Replay) {
    && Supported(r) && |r.inputs| == r.finalFrame
    && (forall i :: 0 <= i < |r.inputs| ==> r.inputs[i].a.frame == i && r.inputs[i].b.frame == i)
    && ReplayFold(r, |r.inputs|).Ok?
    && Increasing(r.checkpoints)
    && (forall i :: 0 <= i < |r.checkpoints| ==> CheckpointHolds(r, r.checkpoints[i]))
    && r.expectedHash == HashCanonical(ReplayFold(r, |r.inputs|).value)
  }

  lemma {:induction false} FoldKeepsFrame(r: Replay, n: nat)
    requires n <= |r.inputs| && n < U32 && ReplayFold(r, n).Ok?
    ensures ReplayFold(r, n).value.frame == n
  {
    hide Step;
    if n > 0 {
      StepFrame(ReplayFold(r, n - 1).value, r.inputs[n - 1].a.buttons, r.inputs[n - 1].b.buttons, VariantOf(r.variant));
      FoldKeepsFrame(r, n - 1);
    }
  }

  lemma StepFrame(w: World, a: u8, b: u8, variant: Variant)
    requires Step(w, a, b, variant).Ok?
    ensures Step(w, a, b, variant).value.frame == NextFrame(w.frame)
  {
    hide AllSteered, AllSpawned, Passed, PassOrder;
  }

  lemma {:induction false} FailuresPersist(r: Replay, n: nat, m: nat)
    requires n <= m <= |r.inputs| && ReplayFold(r, n).Err?
    ensures ReplayFold(r, m).Err?
  {
    hide Simulated;
    if n < m {
      FailuresPersist(r, n, m - 1);
    }
  }

  predicate FromOne(checkpoints: seq<Checkpoint>) {
    forall i :: 0 <= i < |checkpoints| ==> checkpoints[i].frame >= 1
  }

  /** The first `index` checkpoints hold by boundary `frame`; the next one, in a well-ordered replay, lies beyond. */
  predicate Checked(r: Replay, frame: nat, index: nat) {
    && index <= |r.checkpoints| && Increasing(r.checkpoints[..index])
    && (forall i :: 0 <= i < index ==> r.checkpoints[i].frame <= frame && CheckpointHolds(r, r.checkpoints[i]))
    && (Increasing(r.checkpoints) && FromOne(r.checkpoints) && index < |r.checkpoints| ==>
         r.checkpoints[index].frame > frame)
  }

  lemma CheckNext(r: Replay, frame: nat, index: nat)
    requires Checked(r, frame, index)
    ensures index < |r.checkpoints| && r.checkpoints[index].frame == frame + 1 &&
            CheckpointHolds(r, r.checkpoints[index]) ==>
        Checked(r, frame + 1, index + 1)
    ensures !(index < |r.checkpoints| && r.checkpoints[index].frame == frame + 1) ==> Checked(r, frame + 1, index)
  {
    hide CheckpointHolds;
  }

  lemma CheckedAll(r: Replay, index: nat)
    requires Checked(r, |r.inputs|, index)
    ensures index == |r.checkpoints| ==>
        Increasing(r.checkpoints) && forall i :: 0 <= i < |r.checkpoints| ==> CheckpointHolds(r, r.checkpoints[i])
    ensures index < |r.checkpoints| ==> !Holds(r)
  {
    hide ReplayFold, HashCanonical;
    if index == |r.checkpoints| {
      assert r.checkpoints[..index] == r.checkpoints;
    } else if Increasing(r.checkpoints) {
      if FromOne(r.checkpoints) {
        assert !CheckpointHolds(r, r.checkpoints[index]);
      } else {
        var i :| 0 <= i < |r.checkpoints| && r.checkpoints[i].frame < 1;
        assert !CheckpointHolds(r, r.checkpoints[i]);
      }
    }
  }

  /** Frame `n` is where a replay stops verifying, with everything labelled and simulated up to there, and why. */
  ghost predicate FailsAt(r: Replay, n: nat, error: ErrorCode) {
    hide Simulated, InitialWorld, HashCanonical;
    && n <= |r.inputs| && ReplayFold(r, n).Ok?
    && (forall i :: 0 <= i < n ==> r.inputs[i].a.frame == i && r.inputs[i].b.frame == i)
    && if n < |r.inputs| && (r.inputs[n].a.frame != n || r.inputs[n].b.frame != n) then error == FrameMismatch
       else if n < |r.inputs| && ReplayFold(r, n + 1).Err? then error == ReplayFold(r, n + 1).error
       else error == ReplayMismatch && (n < |r.inputs| ==> Misses(r, n + 1))
  }

  /** A checkpoint of boundary `n` has another hash than the fold. */
  ghost predicate Misses(r: Replay, n: nat)
    requires n <= |r.inputs| && ReplayFold(r, n).Ok?
  {
    hide Simulated, InitialWorld, HashCanonical;
    exists i ::
      && 0 <= i < |r.checkpoints| && r.checkpoints[i].frame == n
      && r.checkpoints[i].hash != HashCanonical(ReplayFold(r, n).value)
  }

  /** `verify_replay` succeeds exactly on the replays that hold, and otherwise says what fails where it stops. */
  method VerifyReplay(r: Replay) returns (result: Result<Verification>)
    ensures result.Ok? <==> Holds(r)
    ensures result.Ok? ==> result.value == Verification(true, r.finalFrame, r.expectedHash)
    ensures if Supported(r) && |r.inputs| == r.finalFrame then
              result.Err? ==> exists n :: FailsAt(r, n, result.error)
            else
              result == Err(UnsupportedVersion)
  {
    hide Simulated, HashCanonical, InitialWorld, Increasing, FromOne, Checked;
    if !Supported(r) || |r.inputs| != r.finalFrame {
      return Err(UnsupportedVersion);
    }
    var state := InitialWorld();
    var index := 0;
    NothingChecked(r);
    for frame := 0 to |r.inputs|
      invariant ReplayFold(r, frame) == Ok(state)
      invariant forall i :: 0 <= i < frame ==> r.inputs[i].a.frame == i && r.inputs[i].b.frame == i
      invariant index <= |r.checkpoints| && Checked(r, frame, index)
    {
      var inputs := r.inputs[frame];
      if inputs.a.frame != frame || inputs.b.frame != frame {
        assert FailsAt(r, frame, FrameMismatch);
        return Err(FrameMismatch);
      }
      var next := SimulateFrame(state, frame, inputs, VariantOf(r.variant));
      assert ReplayFold(r, frame + 1) == next;
      if next.Err? {
        FailuresPersist(r, frame + 1, |r.inputs|);
        assert FailsAt(r, frame, next.error);
        return Err(next.error);
      }
      state := next.value;
      FoldKeepsFrame(r, frame + 1);
      CheckNext(r, frame, index);
      if index < |r.checkpoints| && r.checkpoints[index].frame == state.frame {
        var actual := HashOf(state);
        if actual != r.checkpoints[index].hash {
          assert !CheckpointHolds(r, r.checkpoints[index]);
          assert FailsAt(r, frame, ReplayMismatch);
          return Err(ReplayMismatch);
        }
        index := index + 1;
      }
    }
    var finalHash := HashOf(state);
    CheckedAll(r, index);
    if index != |r.checkpoints| || finalHash != r.expectedHash {
      assert FailsAt(r, |r.inputs|, ReplayMismatch);
      return Err(ReplayMismatch);
    }
    return Ok(Verification(true, r.finalFrame, finalHash));
  }

  lemma NothingChecked(r: Replay)
    ensures Checked(r, 0, 0)
  {
  }
}
