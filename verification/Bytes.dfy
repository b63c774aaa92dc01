/** The byte cursors of include/rollback_lab/protocol/bytes.hpp. */
module Bytes {
  import opened Core
  import opened Bits
  import opened Records

  class ByteWriter {
    var bytes: seq<u8>

    constructor ()
      ensures bytes == []
    {
      bytes := [];
    }

    method AppendLittleEndian(value: nat, width: nat)
      modifies this
      ensures bytes == old(bytes) + LittleEndian(value, width)
    {
      for index := 0 to width
        invariant bytes == old(bytes) + LittleEndian(value, index)
      {
        NextByte(value, index);
        bytes := bytes + [value / Pow256(index) % 256];
      }
    }

    method AppendRecord(values: seq<nat>, widths: seq<nat>)
      requires |values| == |widths|
      modifies this
      ensures bytes == old(bytes) + Encode(values, widths)
    {
      hide Encode, Total, LittleEndian;
      EncodeNothing();
      for i := 0 to |values|
        invariant bytes == old(bytes) + Encode(values[..i], widths[..i])
      {
        EncodeConcat(values[..i], widths[..i], [values[i]], [widths[i]]);
        EncodeOne(values[i], widths[i]);
        assert values[..i + 1] == values[..i] + [values[i]] && widths[..i + 1] == widths[..i] + [widths[i]];
        AppendLittleEndian(values[i], widths[i]);
      }
      assert values[..|values|] == values && widths[..|widths|] == widths;
    }

    method AppendTable(rows: seq<seq<nat>>, widths: seq<nat>)
      requires forall i :: 0 <= i < |rows| ==> |rows[i]| == |widths|
      modifies this
      ensures bytes == old(bytes) + EncodeRows(rows, widths)
    {
      for i := 0 to |rows|
        invariant bytes == old(bytes) + EncodeRows(rows[..i], widths)
      {
        EncodeRowsSnoc(rows[..i], rows[i], widths);
        assert rows[..i + 1] == rows[..i] + [rows[i]];
        AppendRecord(rows[i], widths);
      }
      assert rows[..|rows|] == rows;
    }

    method PatchU16(offset: nat, value: u16)
      requires offset + 2 <= |bytes|
      modifies this
      ensures bytes == old(bytes)[..offset] + LittleEndian(value, 2) + old(bytes)[offset + 2..]
    {
      bytes := bytes[offset := value % 256];
      bytes := bytes[offset + 1 := value / 256 % 256];
      assert LittleEndian(value / 256, 1) == [value / 256 % 256];
    }
  }

  class ByteReader {
    const bytes: seq<u8>
    var offset: nat

    ghost predicate Valid()
      reads this
    {
      offset <= |bytes|
    }

    constructor (source: seq<u8>)
      ensures Valid() && bytes == source && offset == 0
    {
      bytes := source;
      offset := 0;
    }

    method ReadLittleEndian(width: nat) returns (r: Result<nat>)
      requires Valid()
      modifies this
      ensures Valid()
      ensures old(offset) + width <= |bytes| ==>
          r == Ok(Number(bytes[old(offset)..old(offset) + width])) && offset == old(offset) + width
      ensures old(offset) + width > |bytes| ==> r == Err(TruncatedData) && offset == old(offset)
    {
      if |bytes| - offset < width {
        return Err(TruncatedData);
      }
      var bits := 0;
      ghost var field := bytes[offset..offset + width];
      for index := 0 to width
        invariant bits == Number(field[..index]) && offset == old(offset)
      {
        NumberSnoc(field[..index], field[index]);
        assert field[..index + 1] == field[..index] + [field[index]];
        bits := bits + bytes[offset + index] * Pow256(index);
      }
      assert field[..width] == field;
      offset := offset + width;
      return Ok(bits);
    }

    /** Read one record field by field. */
    method ReadRecord(widths: seq<nat>) returns (r: Result<seq<nat>>)
      requires Valid()
      modifies this
      ensures Valid()
      ensures old(offset) + Total(widths) <= |bytes| ==>
          r == Ok(Decode(bytes[old(offset)..old(offset) + Total(widths)], widths))
            && offset == old(offset) + Total(widths)
      ensures old(offset) + Total(widths) > |bytes| ==> r == Err(TruncatedData)
    {
      var values: seq<nat> := [];
      for i := 0 to |widths|
        invariant Valid() && offset == old(offset) + Total(widths[..i])
        invariant values == Decode(bytes[old(offset)..offset], widths[..i])
      {
        assert widths[..i + 1] == widths[..i] + [widths[i]];
        TotalConcat(widths[..i], [widths[i]]);
        TotalConcat(widths[..i + 1], widths[i + 1..]);
        assert widths == widths[..i + 1] + widths[i + 1..];
        ghost var start := offset;
        var field := ReadLittleEndian(widths[i]);
        if field.Err? {
          return Err(TruncatedData);
        }
        DecodeSnoc(bytes[old(offset)..start], bytes[start..offset], widths[..i], widths[i]);
        assert bytes[old(offset)..offset] == bytes[old(offset)..start] + bytes[start..offset];
        values := values + [field.value];
      }
      assert widths[..|widths|] == widths;
      return Ok(values);
    }

    /** Read the first of the `count` records that fill the bytes up to `end`. */
    method ReadRow(widths: seq<nat>, ghost end: nat, ghost count: nat) returns (row: seq<nat>)
      requires offset <= end <= |bytes| && count > 0 && end - offset == count * Total(widths)
      modifies this
      ensures old(offset) <= offset <= end && end - offset == (count - 1) * Total(widths)
      ensures DecodeRows(bytes[old(offset)..end], widths, count) == [row] + DecodeRows(bytes[offset..end], widths,
        count - 1)
      ensures Fits(row, widths)
    {
      hide Decode, DecodeRows, Total, Fits;
      ghost var rest := bytes[offset..end];
      FirstRow(rest, widths, count);
      OneLess(count, Total(widths));
      assert rest[..Total(widths)] == bytes[offset..offset + Total(widths)];
      assert rest[Total(widths)..] == bytes[offset + Total(widths)..end];
      EncodeDecode(rest[..Total(widths)], widths);
      var record := ReadRecord(widths);
      if record.Err? {
        assert false;
      }
      row := record.value;
    }
  }

  method ReadChecksum(bytes: seq<u8>) returns (stored: nat)
    requires |bytes| >= 4
    ensures stored == Number(bytes[|bytes| - 4..])
  {
    var reader := new ByteReader(bytes[|bytes| - 4..]);
    assert reader.bytes[0..4] == reader.bytes;
    var value := reader.ReadLittleEndian(4);
    stored := value.value;
  }

  lemma {:induction false} NextByte(value: nat, index: nat)
    ensures LittleEndian(value, index + 1) == LittleEndian(value, index) + [value / Pow256(index) % 256]
  {
    if index > 0 {
      NextByte(value / 256, index - 1);
      DivideTwice(value, Pow256(index - 1));
    }
  }

  lemma DivideTwice(value: nat, p: nat)
    requires p > 0
    ensures value / 256 / p == value / (256 * p)
  {
    var q, r := value / 256 / p, value / 256 % p;
    assert value / 256 == q * p + r;
    var low := 256 * r + value % 256;
    assert value == q * (256 * p) + low;
    DivisionIsUnique(value, 256 * p, q, low);
  }

  lemma {:induction false} NumberSnoc(bytes: seq<u8>, byte: u8)
    ensures Number(bytes + [byte]) == Number(bytes) + byte * Pow256(|bytes|)
  {
    if bytes == [] {
      assert bytes + [byte] == [byte] && [byte][1..] == [];
    } else {
      NumberSnoc(bytes[1..], byte);
      assert (bytes + [byte])[1..] == bytes[1..] + [byte];
      Reassociate(byte, Pow256(|bytes| - 1));
    }
  }

  lemma Reassociate(a: nat, b: nat)
    ensures 256 * (a * b) == a * (256 * b)
  {
  }

  lemma DecodeOne(field: seq<u8>, width: nat)
    requires |field| == width
    ensures Total([width]) == width && Decode(field, [width]) == [Number(field)]
  {
    assert Total([width][1..]) == 0;
    assert field[..width] == field;
  }

  lemma DecodeFirst(bytes: seq<u8>, widths: seq<nat>)
    requires widths != [] && |bytes| == Total(widths)
    ensures widths[0] <= |bytes| && |bytes[widths[0]..]| == Total(widths[1..])
    ensures Decode(bytes, widths) == [Number(bytes[..widths[0]])] + Decode(bytes[widths[0]..], widths[1..])
  {
  }

  lemma DecodeNothing()
    ensures Total([]) == 0 && Decode([], []) == []
  {
  }

  lemma {:induction false} DecodeSnoc(bytes: seq<u8>, field: seq<u8>, widths: seq<nat>, width: nat)
    requires |bytes| == Total(widths) && |field| == width
    ensures Total(widths + [width]) == |bytes + field|
    ensures Decode(bytes + field, widths + [width]) == Decode(bytes, widths) + [Number(field)]
    decreases |widths|
  {
    hide Decode, Total, Number;
    TotalConcat(widths, [width]);
    DecodeOne(field, width);
    DecodeNothing();
    if widths == [] {
      assert bytes == [] && bytes + field == field && widths + [width] == [width];
    } else {
      var w := widths[0];
      DecodeFirst(bytes, widths);
      DecodeFirst(bytes + field, widths + [width]);
      DecodeSnoc(bytes[w..], field, widths[1..], width);
      assert (widths + [width])[1..] == widths[1..] + [width];
      assert (bytes + field)[w..] == bytes[w..] + field && (bytes + field)[..w] == bytes[..w];
    }
  }
}
