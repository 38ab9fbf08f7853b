/** Which crops are encoded, and which bytes of the image a decoded pixel comes from. */
module Rle565Pixels {
  import opened Wrappers
  import opened Bytes
  import opened Rle565

  /** A pixel is two bytes of the image, low byte first. */
  lemma {:induction false} PixelIs(data: seq<byte>, i: nat)
    requires 2 * i + 1 < |data|
    ensures Pixels(data)[i] == data[2 * i] + 256 * (data[2 * i + 1] as int)
    decreases |data|
  {
    if i > 0 { PixelIs(data[2..], i - 1); }
  }

  /** The row is inside the pixels, though it may begin or end in another row of the image. */
  predicate RowIsThere(size: nat, width: nat, crop: Crop, y: nat) {
    crop.width == 0 || y * width + crop.left + crop.width <= size
  }

  lemma RowIs(pixels: seq<Color>, width: nat, crop: Crop, y: nat)
    ensures |Row(pixels, width, crop, y)| <= crop.width
    ensures |Row(pixels, width, crop, y)| == crop.width <==> RowIsThere(|pixels|, width, crop, y)
    ensures |Row(pixels, width, crop, y)| == crop.width ==> forall x: nat {:trigger Row(pixels, width, crop, y)[x]} ::
      x < crop.width ==> Row(pixels, width, crop, y)[x] == pixels[y * width + crop.left + x]
  {
  }

  lemma RowsAreThere(size: nat, width: nat, crop: Crop, y: nat, y2: nat)
    requires RowIsThere(size, width, crop, y2) && y <= y2
    ensures RowIsThere(size, width, crop, y)
  {
    assert y2 * width == y * width + (y2 - y) * width;
  }

  lemma {:induction false} RowsAreEncodedIff(pixels: seq<Color>, width: nat, crop: Crop, y: nat)
    requires y < crop.height
    ensures EncodeRows(pixels, width, crop, y).Ok? <==>
      RowIsThere(|pixels|, width, crop, crop.top + crop.height - 1)
    ensures EncodeRows(pixels, width, crop, y).Err? ==> EncodeRows(pixels, width, crop, y) == Err(IndexError)
    decreases crop.height - y
  {
    hide Row, Runs, EncodeRuns, RowIsThere;
    RowIs(pixels, width, crop, crop.top + y);
    if RowIsThere(|pixels|, width, crop, crop.top + crop.height - 1) {
      RowsAreThere(|pixels|, width, crop, crop.top + y, crop.top + crop.height - 1);
    }
    if y + 1 < crop.height {
      RowsAreEncodedIff(pixels, width, crop, y + 1);
    } else {
      assert EncodeRows(pixels, width, crop, crop.height) == Ok([]);
    }
  }

  /** Every outcome of the encoder: the image must have two bytes a pixel, and the last row of the
      crop must end inside it. */
  lemma EncodedIff(data: seq<byte>, width: nat, height: nat, crop: Crop)
    ensures var r := Encode(data, width, height, crop);
      if |data| != 2 * width * height then r == Err(UnexpectedLength)
      else if crop.width == 0 || crop.height == 0
          || (crop.top + crop.height - 1) * width + crop.left + crop.width <= width * height then r.Ok?
      else r == Err(IndexError)
  {
    hide EncodeRows, Pixels;
    if |data| == width * height * 2 {
      assert |Pixels(data)| == width * height;
      if crop.height > 0 {
        RowsAreEncodedIff(Pixels(data), width, crop, 0);
      } else {
        NoRows(Pixels(data), width, crop);
      }
    }
  }

  lemma NoRows(pixels: seq<Color>, width: nat, crop: Crop)
    requires crop.height == 0
    ensures EncodeRows(pixels, width, crop, 0) == Ok([])
  {
  }

  lemma CroppedRow(pixels: seq<Color>, width: nat, crop: Crop, y: nat)
    requires y < crop.height && EncodeRows(pixels, width, crop, y).Ok?
    ensures EncodeRows(pixels, width, crop, y + 1).Ok?
    ensures var row := Row(pixels, width, crop, crop.top + y);
      && |row| == crop.width && RowIsThere(|pixels|, width, crop, crop.top + y)
      && Cropped(pixels, width, crop, y) == row + Cropped(pixels, width, crop, y + 1)
  {
    hide Row, Runs, EncodeRuns;
    RowIs(pixels, width, crop, crop.top + y);
  }

  lemma {:induction false} CroppedSize(pixels: seq<Color>, width: nat, crop: Crop, y: nat)
    requires y <= crop.height && EncodeRows(pixels, width, crop, y).Ok?
    ensures |Cropped(pixels, width, crop, y)| == (crop.height - y) * crop.width
    decreases crop.height - y
  {
    hide EncodeRows, Row, RowIsThere;
    if y < crop.height {
      CroppedRow(pixels, width, crop, y);
      CroppedSize(pixels, width, crop, y + 1);
      OneMoreRow(crop.height - y - 1, crop.width);
    }
  }

  lemma RowInBounds(size: nat, width: nat, crop: Crop, y: nat, x: nat)
    requires RowIsThere(size, width, crop, y) && x < crop.width
    ensures y * width + crop.left + x < size
  {
  }

  /** Where a pixel of the crop is in the image. */
  function InImage(width: nat, crop: Crop, x: nat, v: nat): nat {
    (crop.top + v) * width + crop.left + x
  }

  /** And where it is behind `v` rows of the crop. */
  function InCrop(crop: Crop, x: nat, v: nat): nat {
    v * crop.width + x
  }

  /** Pixel (x, v) among the cropped rows from `y` on. */
  lemma {:induction false} CroppedIs(pixels: seq<Color>, width: nat, crop: Crop, y: nat, x: nat, v: nat)
    requires y <= v < crop.height && x < crop.width && EncodeRows(pixels, width, crop, y).Ok?
    ensures var shown, at := InCrop(crop, x, v - y), InImage(width, crop, x, v);
      && shown < |Cropped(pixels, width, crop, y)| && at < |pixels|
      && Cropped(pixels, width, crop, y)[shown] == pixels[at]
    decreases crop.height - y
  {
    hide EncodeRows, Row, RowIsThere, Cropped, InCrop, InImage;
    CroppedRow(pixels, width, crop, y);
    if y < v {
      CroppedIs(pixels, width, crop, y + 1, x, v);
      OneRowDown(crop, x, v - y - 1);
    } else {
      RowIsCropped(pixels, width, crop, x, v);
    }
  }

  lemma OneRowDown(crop: Crop, x: nat, v: nat)
    ensures InCrop(crop, x, v + 1) == crop.width + InCrop(crop, x, v)
  {
    OneMoreRow(v, crop.width);
  }

  lemma RowIsCropped(pixels: seq<Color>, width: nat, crop: Crop, x: nat, v: nat)
    requires RowIsThere(|pixels|, width, crop, crop.top + v) && x < crop.width
    ensures var row := Row(pixels, width, crop, crop.top + v);
      && InImage(width, crop, x, v) < |pixels| && InCrop(crop, x, 0) == x
      && x < |row| && row[x] == pixels[InImage(width, crop, x, v)]
  {
    hide Row;
    RowInBounds(|pixels|, width, crop, crop.top + v, x);
    RowIs(pixels, width, crop, crop.top + v);
  }

  /** Pixel (x, v) of the decoded logo is the image's pixel (left + x, top + v). */
  lemma PixelIsShown(data: seq<byte>, width: nat, height: nat, crop: Crop, x: nat, v: nat)
    requires Encode(data, width, height, crop).Ok? && x < crop.width && v < crop.height
    ensures var shown, at := Decode(Encode(data, width, height, crop).value), InImage(width, crop, x, v);
      && shown.Some? && InCrop(crop, x, v) < |shown.value| == crop.height * crop.width
      && 2 * at + 1 < |data|
      && shown.value[InCrop(crop, x, v)] == data[2 * at] + 256 * (data[2 * at + 1] as int)
  {
    hide EncodeRows, Cropped, Decode, Pixels, InCrop, InImage;
    ImageIsReadBack(data, width, height, crop);
    CroppedIs(Pixels(data), width, crop, 0, x, v);
    CroppedSize(Pixels(data), width, crop, 0);
    PixelIs(data, InImage(width, crop, x, v));
  }
}
