/** Fixed-width little-endian records, the layout shared by canonical states, packets and replays. */
module Records {
  import opened Core
  import opened Bits

  function Total(widths: seq<nat>): nat {
    if widths == [] then 0 else widths[0] + Total(widths[1..])
  }

  predicate Fits(values: seq<nat>, widths: seq<nat>) {
    && |values| == |widths|
    && forall i :: 0 <= i < |values| ==> values[i] < Pow256(widths[i])
  }

  function Encode(values: seq<nat>, widths: seq<nat>): (r: seq<u8>)
    requires |values| == |widths|
    ensures |r| == Total(widths)
  {
    if values == [] then [] else LittleEndian(values[0], widths[0]) + Encode(values[1..], widths[1..])
  }

  function Decode(bytes: seq<u8>, widths: seq<nat>): (r: seq<nat>)
    requires |bytes| == Total(widths)
    ensures |r| == |widths|
  {
    if widths == [] then [] else [Number(bytes[..widths[0]])] + Decode(bytes[widths[0]..], widths[1..])
  }

  lemma {:induction false} DecodeEncode(values: seq<nat>, widths: seq<nat>)
    requires Fits(values, widths)
    ensures Decode(Encode(values, widths), widths) == values
  {
    if values != [] {
      var head, tail := LittleEndian(values[0], widths[0]), Encode(values[1..], widths[1..]);
      var bytes := Encode(values, widths);
      assert bytes[..widths[0]] == head && bytes[widths[0]..] == tail;
      NumberOfLittleEndian(values[0], widths[0]);
      DecodeEncode(values[1..], widths[1..]);
    }
  }

  lemma {:induction false} EncodeDecode(bytes: seq<u8>, widths: seq<nat>)
    requires |bytes| == Total(widths)
    ensures Encode(Decode(bytes, widths), widths) == bytes && Fits(Decode(bytes, widths), widths)
  {
    if widths != [] {
      var head, tail := bytes[..widths[0]], bytes[widths[0]..];
      LittleEndianOfNumber(head);
      EncodeDecode(tail, widths[1..]);
      assert Decode(bytes, widths)[1..] == Decode(tail, widths[1..]);
      assert bytes == head + tail;
    }
  }

  lemma EncodeIsInjective(v: seq<nat>, w: seq<nat>, widths: seq<nat>)
    requires Fits(v, widths) && Fits(w, widths) && Encode(v, widths) == Encode(w, widths)
    ensures v == w
  {
    DecodeEncode(v, widths);
    DecodeEncode(w, widths);
  }

  lemma SplitEqual<T>(a: seq<T>, b: seq<T>, c: seq<T>, d: seq<T>)
    requires |a| == |c| && a + b == c + d
    ensures a == c && b == d
  {
    assert a == (a + b)[..|a|] && b == (a + b)[|a|..];
    assert c == (c + d)[..|c|] && d == (c + d)[|c|..];
  }

  lemma SliceOfSlice<T>(s: seq<T>, n: nat, a: nat, b: nat)
    requires a <= b && n + b <= |s|
    ensures s[n..][a..b] == s[n + a..n + b]
  {
  }

  lemma {:induction false} EncodeConcat(v: seq<nat>, w: seq<nat>, vs: seq<nat>, ws: seq<nat>)
    requires |v| == |w| && |vs| == |ws|
    ensures Encode(v + vs, w + ws) == Encode(v, w) + Encode(vs, ws)
    decreases |v|
  {
    if v == [] {
      assert v + vs == vs && w + ws == ws;
    } else {
      EncodeConcat(v[1..], w[1..], vs, ws);
      assert (v + vs)[1..] == v[1..] + vs && (w + ws)[1..] == w[1..] + ws;
    }
  }

  lemma EncodeOne(value: nat, width: nat)
    ensures Encode([value], [width]) == LittleEndian(value, width)
  {
    assert Encode([value][1..], [width][1..]) == [];
  }

  lemma EncodeNothing()
    ensures Encode([], []) == []
  {
  }

  lemma {:induction false} TotalConcat(v: seq<nat>, w: seq<nat>)
    ensures Total(v + w) == Total(v) + Total(w)
  {
    if v == [] {
      assert v + w == w;
    } else {
      TotalConcat(v[1..], w);
      assert (v + w)[1..] == v[1..] + w;
    }
  }

  // ---- Tables: records of one shape in a row ----

  predicate Rectangular(rows: seq<seq<nat>>, widths: seq<nat>) {
    forall i :: 0 <= i < |rows| ==> Fits(rows[i], widths)
  }

  function EncodeRows(rows: seq<seq<nat>>, widths: seq<nat>): (r: seq<u8>)
    requires forall i :: 0 <= i < |rows| ==> |rows[i]| == |widths|
    ensures |r| == |rows| * Total(widths)
  {
    if rows == [] then [] else Encode(rows[0], widths) + EncodeRows(rows[1..], widths)
  }

  function DecodeRows(bytes: seq<u8>, widths: seq<nat>, count: nat): (r: seq<seq<nat>>)
    requires |bytes| == count * Total(widths)
    ensures |r| == count && forall i :: 0 <= i < count ==> |r[i]| == |widths|
  {
    if count == 0 then []
    else
      OneLess(count, Total(widths));
      [Decode(bytes[..Total(widths)], widths)] + DecodeRows(bytes[Total(widths)..], widths, count - 1)
  }

  lemma OneLess(count: nat, size: nat)
    requires count > 0
    ensures count * size == size + (count - 1) * size && (count - 1) * size >= 0
  {
  }

  lemma {:induction false} DecodeEncodeRows(rows: seq<seq<nat>>, widths: seq<nat>)
    requires Rectangular(rows, widths)
    ensures DecodeRows(EncodeRows(rows, widths), widths, |rows|) == rows
  {
    if rows != [] {
      var head, tail := Encode(rows[0], widths), EncodeRows(rows[1..], widths);
      assert (head + tail)[..Total(widths)] == head && (head + tail)[Total(widths)..] == tail;
      DecodeEncode(rows[0], widths);
      DecodeEncodeRows(rows[1..], widths);
    }
  }

  lemma {:induction false} EncodeDecodeRows(bytes: seq<u8>, widths: seq<nat>, count: nat)
    requires |bytes| == count * Total(widths)
    ensures Rectangular(DecodeRows(bytes, widths, count), widths)
    ensures EncodeRows(DecodeRows(bytes, widths, count), widths) == bytes
  {
    if count > 0 {
      hide Encode, Decode, Total, Fits, DecodeRows, EncodeRows, Rectangular;
      FirstRow(bytes, widths, count);
      var head, tail := bytes[..Total(widths)], bytes[Total(widths)..];
      EncodeDecode(head, widths);
      EncodeDecodeRows(tail, widths, count - 1);
      EncodeRowsCons(Decode(head, widths), DecodeRows(tail, widths, count - 1), widths);
      assert bytes == head + tail;
    }
  }

  lemma EncodeRowsCons(row: seq<nat>, rows: seq<seq<nat>>, widths: seq<nat>)
    requires |row| == |widths| && forall i :: 0 <= i < |rows| ==> |rows[i]| == |widths|
    ensures EncodeRows([row] + rows, widths) == Encode(row, widths) + EncodeRows(rows, widths)
    ensures Fits(row, widths) && Rectangular(rows, widths) ==> Rectangular([row] + rows, widths)
  {
    hide Encode, Total, Fits;
    assert ([row] + rows)[1..] == rows;
  }

  lemma {:induction false} EncodeRowsSnoc(rows: seq<seq<nat>>, row: seq<nat>, widths: seq<nat>)
    requires |row| == |widths| && forall i :: 0 <= i < |rows| ==> |rows[i]| == |widths|
    ensures EncodeRows(rows + [row], widths) == EncodeRows(rows, widths) + Encode(row, widths)
  {
    if rows == [] {
      assert rows + [row] == [row] && [row][1..] == [];
    } else {
      EncodeRowsSnoc(rows[1..], row, widths);
      assert (rows + [row])[1..] == rows[1..] + [row];
    }
  }

  lemma FirstRow(bytes: seq<u8>, widths: seq<nat>, count: nat)
    requires count > 0 && |bytes| == count * Total(widths)
    ensures Total(widths) <= |bytes| && |bytes[Total(widths)..]| == (count - 1) * Total(widths)
    ensures DecodeRows(bytes, widths, count)
         == [Decode(bytes[..Total(widths)], widths)] + DecodeRows(bytes[Total(widths)..], widths, count - 1)
  {
    OneLess(count, Total(widths));
  }
}
