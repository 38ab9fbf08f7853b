/** Boot logos in colour: run-length coding of cropped RGB565 rows (LEB128 run length, then the
    colour, low byte first). */
module Rle565 {
  import opened Wrappers
  import opened Bytes

  datatype EncodeError = UnexpectedLength | IndexError

  datatype Crop = Crop(left: nat, top: nat, width: nat, height: nat)

  type Color = c: int | 0 <= c < 0x1_0000

  function Pixels(data: seq<byte>): (r: seq<Color>)
    ensures |r| == |data| / 2
    decreases |data|
  {
    if |data| < 2 then [] else [data[0] + 256 * (data[1] as int)] + Pixels(data[2..])
  }

  /** The part of a row inside the crop; a Python slice ends with the data. */
  function Row(pixels: seq<Color>, width: nat, crop: Crop, y: nat): seq<Color> {
    var from := y * width + crop.left;
    var hi := from + crop.width;
    var end := if hi < |pixels| then hi else |pixels|;
    if from < end then pixels[from..end] else []
  }

  // ----- The encoder -----

  /** How many pixels from the start have the colour of the first one. */
  function RunLength(row: seq<Color>): (n: nat)
    requires row != []
    ensures 1 <= n <= |row|
    ensures forall i :: 0 <= i < n ==> row[i] == row[0]
    ensures n < |row| ==> row[n] != row[0]
  {
    if |row| == 1 || row[1] != row[0] then 1 else
      var n := RunLength(row[1..]);
      assert forall i :: 0 <= i < n ==> row[i + 1] == row[1..][i];
      1 + n
  }

  function Leb128(n: nat): (r: seq<byte>)
    ensures r != []
  {
    if n < 128 then [n] else [n % 128 + 128] + Leb128(n / 128)
  }

  datatype Run = Run(length: nat, color: Color)

  function Runs(row: seq<Color>): seq<Run>
    decreases |row|
  {
    if row == [] then [] else
      var n := RunLength(row);
      [Run(n, row[0])] + Runs(row[n..])
  }

  function EncodeRun(r: Run): seq<byte> {
    Leb128(r.length) + [r.color % 256, r.color / 256]
  }

  function EncodeRuns(runs: seq<Run>): seq<byte> {
    if runs == [] then [] else EncodeRun(runs[0]) + EncodeRuns(runs[1..])
  }

  /** The rows from `y` on, or an index error at the first row that is shorter than the crop. */
  function EncodeRows(pixels: seq<Color>, width: nat, crop: Crop, y: nat): Result<seq<byte>, EncodeError>
    requires y <= crop.height
    decreases crop.height - y
  {
    if y == crop.height then Ok([]) else
      var row := Row(pixels, width, crop, crop.top + y);
      if |row| < crop.width then Err(IndexError) else
        var rest :- EncodeRows(pixels, width, crop, y + 1);
        Ok(EncodeRuns(Runs(row)) + rest)
  }

  function Encode(data: seq<byte>, width: nat, height: nat, crop: Crop): Result<seq<byte>, EncodeError> {
    if |data| != width * height * 2 then Err(UnexpectedLength) else EncodeRows(Pixels(data), width, crop, 0)
  }

  method AppendLeb128(start: seq<byte>, n: nat) returns (encoded: seq<byte>)
    ensures encoded == start + Leb128(n)
  {
    encoded := start;
    var value := n;
    while value >= 128
      invariant encoded + Leb128(value) == start + Leb128(n)
    {
      ghost var before := encoded;
      encoded := encoded + [value % 128 + 128];
      assert before + ([value % 128 + 128] + Leb128(value / 128)) == encoded + Leb128(value / 128);
      value := value / 128;
    }
    encoded := encoded + [value];
  }

  method AppendRun(start: seq<byte>, run: nat, color: Color) returns (encoded: seq<byte>)
    ensures encoded == start + EncodeRun(Run(run, color))
  {
    hide Leb128;
    encoded := AppendLeb128(start, run);
    encoded := encoded + [color % 256, color / 256];
    assert encoded == start + (Leb128(run) + [color % 256, color / 256]);
  }

  /** The end of the run that begins at `x`. */
  method FindEnd(row: seq<Color>, x: nat) returns (end: nat)
    requires x < |row|
    ensures x < end <= |row| && end - x == RunLength(row[x..])
  {
    var color := row[x];
    end := x + 1;
    while end < |row| && row[end] == color
      invariant x < end <= |row| && forall i :: x <= i < end ==> row[i] == color
    {
      end := end + 1;
    }
    RunLengthIs(row[x..], end - x);
  }

  method AppendRow(start: seq<byte>, row: seq<Color>) returns (encoded: seq<byte>)
    ensures encoded == start + EncodeRuns(Runs(row))
  {
    hide EncodeRun, EncodeRuns, Runs, RunLength;
    encoded := start;
    var x: nat := 0;
    assert row[0..] == row;
    while x < |row|
      invariant x <= |row|
      invariant encoded + EncodeRuns(Runs(row[x..])) == start + EncodeRuns(Runs(row))
    {
      var end := FindEnd(row, x);
      ghost var before, run, more := encoded, EncodeRun(Run(end - x, row[x])), EncodeRuns(Runs(row[end..]));
      RunsHead(row[x..]);
      assert row[x..][end - x..] == row[end..];
      encoded := AppendRun(encoded, end - x, row[x]);
      assert before + (run + more) == before + run + more;
      x := end;
    }
    assert row[|row|..] == [];
    NoRuns();
    assert encoded + [] == encoded;
  }

  lemma NoRuns()
    ensures EncodeRuns(Runs([])) == []
  {
  }

  lemma RunLengthIs(row: seq<Color>, n: nat)
    requires row != [] && 1 <= n <= |row| && forall i :: 0 <= i < n ==> row[i] == row[0]
    requires n < |row| ==> row[n] != row[0]
    ensures RunLength(row) == n
  {
    hide RunLength;
    assert RunLength(row) < |row| ==> RunLength(row) >= n;
  }

  lemma RunsHead(row: seq<Color>)
    requires row != []
    ensures var n := RunLength(row);
      && Runs(row) == [Run(n, row[0])] + Runs(row[n..])
      && EncodeRuns(Runs(row)) == EncodeRun(Run(n, row[0])) + EncodeRuns(Runs(row[n..]))
  {
    hide EncodeRun, RunLength;
    assert Runs(row)[1..] == Runs(row[RunLength(row)..]);
  }

  method EncodeRle565Rows(data: seq<byte>, width: nat, height: nat, crop: Crop)
    returns (r: Result<seq<byte>, EncodeError>)
    ensures r == Encode(data, width, height, crop)
  {
    hide Pixels, Runs, EncodeRuns, Row;
    if |data| != width * height * 2 { return Err(UnexpectedLength); }
    var pixels := Pixels(data);
    var encoded := [];
    ghost var goal := EncodeRows(pixels, width, crop, 0);
    assert goal.Ok? ==> [] + goal.value == goal.value;
    for y := 0 to crop.height
      invariant var rest := EncodeRows(pixels, width, crop, y);
        goal == if rest.Err? then rest else Ok(encoded + rest.value)
    {
      var row := Row(pixels, width, crop, crop.top + y);
      if |row| < crop.width { return Err(IndexError); }
      ghost var before, rest := encoded, EncodeRows(pixels, width, crop, y + 1);
      encoded := AppendRow(encoded, row);
      assert rest.Ok? ==> before + (EncodeRuns(Runs(row)) + rest.value) == encoded + rest.value;
    }
    assert encoded + [] == encoded;
    r := Ok(encoded);
  }

  // ----- The decoder -----

  function DecodeLeb128(b: seq<byte>): (r: Option<(nat, nat)>)
    ensures r.Some? ==> 1 <= r.value.1 <= |b|
  {
    if b == [] then None
    else if b[0] < 128 then Some((b[0], 1))
    else
      match DecodeLeb128(b[1..])
      case None => None
      case Some((high, size)) => Some((b[0] - 128 + 128 * high, size + 1))
  }

  function Repeat(c: Color, n: nat): (r: seq<Color>)
    ensures |r| == n && forall i :: 0 <= i < n ==> r[i] == c
  {
    seq(n, _ => c)
  }

  function Decode(b: seq<byte>): Option<seq<Color>>
    decreases |b|
  {
    if b == [] then Some([]) else
      match DecodeLeb128(b)
      case None => None
      case Some((n, size)) =>
        if size + 2 > |b| then None else
          match Decode(b[size + 2..])
          case None => None
          case Some(rest) => Some(Repeat(b[size] + 256 * (b[size + 1] as int), n) + rest)
  }

  lemma {:induction false} Leb128IsReadBack(n: nat, rest: seq<byte>)
    ensures DecodeLeb128(Leb128(n) + rest) == Some((n, |Leb128(n)|))
  {
    var b := Leb128(n) + rest;
    if n >= 128 {
      Leb128IsReadBack(n / 128, rest);
      assert b[1..] == Leb128(n / 128) + rest;
    }
  }

  function Expand(runs: seq<Run>): seq<Color> {
    if runs == [] then [] else Repeat(runs[0].color, runs[0].length) + Expand(runs[1..])
  }

  lemma RunIsReadBack(r: Run, more: seq<byte>)
    requires Decode(more).Some?
    ensures Decode(EncodeRun(r) + more) == Some(Repeat(r.color, r.length) + Decode(more).value)
  {
    hide Leb128, DecodeLeb128, Repeat;
    var size, tail := |Leb128(r.length)|, [r.color % 256, r.color / 256] + more;
    var b := EncodeRun(r) + more;
    assert b == Leb128(r.length) + tail;
    Leb128IsReadBack(r.length, tail);
    assert b[size] == r.color % 256 && b[size + 1] == r.color / 256 && b[size + 2..] == more;
  }

  lemma {:induction false} RunsAreReadBack(runs: seq<Run>, rest: seq<byte>)
    requires Decode(rest).Some?
    ensures Decode(EncodeRuns(runs) + rest) == Some(Expand(runs) + Decode(rest).value)
    decreases |runs|
  {
    hide EncodeRun, Decode, Repeat;
    if runs == [] {
      assert [] + rest == rest && [] + Decode(rest).value == Decode(rest).value;
    } else {
      var r, more := runs[0], EncodeRuns(runs[1..]) + rest;
      RunsAreReadBack(runs[1..], rest);
      assert EncodeRuns(runs) + rest == EncodeRun(r) + more;
      RunIsReadBack(r, more);
      var pixels := Repeat(r.color, r.length);
      assert pixels + (Expand(runs[1..]) + Decode(rest).value) == pixels + Expand(runs[1..]) + Decode(rest).value;
    }
  }

  /** The runs of a row spell the row, and are as long as they can be. */
  lemma {:induction false} RunsAreMaximal(row: seq<Color>)
    ensures Expand(Runs(row)) == row
    ensures forall i :: 0 <= i < |Runs(row)| ==> Runs(row)[i].length >= 1
    ensures forall i :: 0 <= i < |Runs(row)| - 1 ==> Runs(row)[i].color != Runs(row)[i + 1].color
    ensures row != [] ==> Runs(row) != [] && Runs(row)[0].color == row[0]
    decreases |row|
  {
    hide RunLength, Runs;
    if row != [] {
      var n := RunLength(row);
      var rest := Runs(row[n..]);
      RunsAreMaximal(row[n..]);
      RunsHead(row);
      var runs := Runs(row);
      assert runs[1..] == rest && runs[0] == Run(n, row[0]);
      assert Repeat(row[0], n) == row[..n] && row == row[..n] + row[n..];
      assert forall i :: 0 < i < |runs| ==> runs[i] == rest[i - 1];
      assert n < |row| ==> row[n..][0] == row[n];
    } else {
      assert Runs(row) == [] by { NoRunsOfEmpty(row); }
    }
  }

  lemma NoRunsOfEmpty(row: seq<Color>)
    requires row == []
    ensures Runs(row) == []
  {
  }

  /** The cropped pixels, row by row from `y` on. */
  function Cropped(pixels: seq<Color>, width: nat, crop: Crop, y: nat): seq<Color>
    requires y <= crop.height
    decreases crop.height - y
  {
    if y == crop.height then [] else Row(pixels, width, crop, crop.top + y) + Cropped(pixels, width, crop, y + 1)
  }

  lemma {:induction false} RowsAreReadBack(pixels: seq<Color>, width: nat, crop: Crop, y: nat)
    requires y <= crop.height && EncodeRows(pixels, width, crop, y).Ok?
    ensures Decode(EncodeRows(pixels, width, crop, y).value) == Some(Cropped(pixels, width, crop, y))
    decreases crop.height - y
  {
    hide Row, Runs, EncodeRuns;
    if y < crop.height {
      var row := Row(pixels, width, crop, crop.top + y);
      RowsAreReadBack(pixels, width, crop, y + 1);
      RunsAreReadBack(Runs(row), EncodeRows(pixels, width, crop, y + 1).value);
      RunsAreMaximal(row);
    }
  }

  /** Decoding gives back exactly the cropped pixels, row by row. */
  lemma ImageIsReadBack(data: seq<byte>, width: nat, height: nat, crop: Crop)
    requires Encode(data, width, height, crop).Ok?
    ensures Decode(Encode(data, width, height, crop).value) == Some(Cropped(Pixels(data), width, crop, 0))
  {
    RowsAreReadBack(Pixels(data), width, crop, 0);
  }

  lemma {:induction false} Leb128Bound(n: nat)
    requires n >= 1
    ensures |Leb128(n)| <= n && (n >= 128 ==> |Leb128(n)| < n)
  {
    if n >= 128 { Leb128Bound(n / 128); }
  }

  lemma {:induction false} RunsBound(runs: seq<Run>)
    requires forall i :: 0 <= i < |runs| ==> runs[i].length >= 1
    ensures |EncodeRuns(runs)| <= 3 * |Expand(runs)|
    decreases |runs|
  {
    if runs != [] {
      Leb128Bound(runs[0].length);
      RunsBound(runs[1..]);
    }
  }

  lemma {:induction false} RowsBound(pixels: seq<Color>, width: nat, crop: Crop, y: nat)
    requires y <= crop.height && EncodeRows(pixels, width, crop, y).Ok?
    ensures |EncodeRows(pixels, width, crop, y).value| <= 3 * |Cropped(pixels, width, crop, y)|
    decreases crop.height - y
  {
    hide Row, Runs, EncodeRuns;
    if y < crop.height {
      var row := Row(pixels, width, crop, crop.top + y);
      RowsBound(pixels, width, crop, y + 1);
      RunsAreMaximal(row);
      RunsBound(Runs(row));
    }
  }

  /** A pixel takes at most three bytes. */
  lemma OutputIsBounded(data: seq<byte>, width: nat, height: nat, crop: Crop)
    requires Encode(data, width, height, crop).Ok?
    ensures |Encode(data, width, height, crop).value| <= 3 * |Cropped(Pixels(data), width, crop, 0)|
  {
    RowsBound(Pixels(data), width, crop, 0);
  }

  /** A crop inside the image is encoded, and its rows are the rows of the image. */
  lemma {:induction false} CropsInsideAreEncoded(pixels: seq<Color>, width: nat, height: nat, crop: Crop, y: nat)
    requires |pixels| == width * height && crop.left + crop.width <= width && crop.top + crop.height <= height
    requires y <= crop.height
    ensures EncodeRows(pixels, width, crop, y).Ok?
    ensures |Cropped(pixels, width, crop, y)| == (crop.height - y) * crop.width
    decreases crop.height - y
  {
    hide Row, Runs, EncodeRuns;
    if y < crop.height {
      RowInside(pixels, width, height, crop, crop.top + y);
      CropsInsideAreEncoded(pixels, width, height, crop, y + 1);
      OneMoreRow(crop.height - y - 1, crop.width);
    }
  }

  lemma OneMoreRow(rows: nat, width: nat)
    ensures (rows + 1) * width == rows * width + width
  {
  }

  lemma RowInside(pixels: seq<Color>, width: nat, height: nat, crop: Crop, y: nat)
    requires |pixels| == width * height && crop.left + crop.width <= width && y < height
    ensures |Row(pixels, width, crop, y)| == crop.width
    ensures y * width + crop.left + crop.width <= |pixels|
    ensures var from := y * width + crop.left;
      Row(pixels, width, crop, y) == pixels[from..from + crop.width]
  {
    RowFits(width, height, y);
  }

  lemma RowFits(width: nat, height: nat, y: nat)
    requires y < height
    ensures y * width + width <= width * height
  {
    var k := height - y - 1;
    assert height == y + 1 + k;
    assert width * height == y * width + width + k * width;
  }
}
