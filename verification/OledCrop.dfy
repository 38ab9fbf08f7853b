/** The monochrome boot logo: a rectangle cut out of a bitmap that stores a row most significant
    bit first. */
module OledCrop {
  import opened Wrappers

  const SOURCE_STRIDE: nat := 16
  const SOURCE_ROWS: nat := 64
  const LEFT: nat := 10
  const TOP: nat := 20
  const WIDTH: nat := 108
  const HEIGHT: nat := 23
  const PACKED_STRIDE: nat := 14

  function Mask(i: nat): bv8
    requires i < 8
  {
    0x80 >> i
  }

  predicate HasBit(b: bv8, i: nat)
    requires i < 8
  {
    b & Mask(i) != 0
  }

  function SetBit(b: bv8, i: nat): bv8
    requires i < 8
  {
    b | Mask(i)
  }

  predicate Pixel(data: seq<bv8>, stride: nat, x: nat, y: nat)
    requires x < 8 * stride && y * stride + stride <= |data|
  {
    x / 8 < stride && HasBit(data[y * stride + x / 8], x % 8)
  }

  lemma MasksAreDisjoint(b: bv8, i: nat, j: nat)
    requires i < 8 && j < 8
    ensures HasBit(SetBit(b, i), j) <==> i == j || HasBit(b, j)
  {
    MaskIs(i);
    MaskIs(j);
  }

  lemma MaskIs(i: nat)
    requires i < 8
    ensures Mask(i) ==
      match i
      case 0 => 0x80 case 1 => 0x40 case 2 => 0x20 case 3 => 0x10
      case 4 => 8 case 5 => 4 case 6 => 2 case _ => 1
  {
  }

  /** What one assignment of the loop does to every pixel. */
  lemma OnePixelIsSet(before: seq<bv8>, x: nat, y: nat, u: nat, v: nat)
    requires |before| == PACKED_STRIDE * HEIGHT && x < 8 * PACKED_STRIDE && u < 8 * PACKED_STRIDE && y < HEIGHT
    requires v < HEIGHT
    ensures var at := y * PACKED_STRIDE + x / 8;
      Pixel(before[at := SetBit(before[at], x % 8)], PACKED_STRIDE, u, v) <==>
        (u == x && v == y) || Pixel(before, PACKED_STRIDE, u, v)
  {
    hide HasBit, SetBit;
    MasksAreDisjoint(before[y * PACKED_STRIDE + x / 8], x % 8, u % 8);
  }

  /** The packed bitmap shows what the source shows inside the rectangle, and its padding is blank. */
  ghost predicate IsCrop(source: seq<bv8>, packed: seq<bv8>) {
    && |source| == SOURCE_STRIDE * SOURCE_ROWS && |packed| == PACKED_STRIDE * HEIGHT
    && forall u: nat, v: nat {:trigger Pixel(packed, PACKED_STRIDE, u, v)} :: u < 8 * PACKED_STRIDE && v < HEIGHT ==>
        (Pixel(packed, PACKED_STRIDE, u, v) <==> u < WIDTH && Pixel(source, SOURCE_STRIDE, LEFT + u, TOP + v))
  }

  /** The pixels before (x, y) in reading order have been copied, the others are blank. */
  ghost predicate Copied(source: seq<bv8>, packed: seq<bv8>, x: nat, y: nat) {
    && |source| == SOURCE_STRIDE * SOURCE_ROWS && |packed| == PACKED_STRIDE * HEIGHT
    && forall u: nat, v: nat {:trigger Pixel(packed, PACKED_STRIDE, u, v)} :: u < 8 * PACKED_STRIDE && v < HEIGHT ==>
        (Pixel(packed, PACKED_STRIDE, u, v) <==>
         (v < y || (v == y && u < x)) && u < WIDTH && Pixel(source, SOURCE_STRIDE, LEFT + u, TOP + v))
  }

  lemma OneMorePixel(source: seq<bv8>, before: seq<bv8>, after: seq<bv8>, x: nat, y: nat)
    requires Copied(source, before, x, y) && x < WIDTH && y < HEIGHT
    requires var at := y * PACKED_STRIDE + x / 8;
      after == if Pixel(source, SOURCE_STRIDE, LEFT + x, TOP + y) then before[at := SetBit(before[at], x % 8)]
        else before
    ensures Copied(source, after, x + 1, y)
  {
    hide Pixel, HasBit, SetBit;
    forall u: nat, v: nat | u < 8 * PACKED_STRIDE && v < HEIGHT
      ensures Pixel(after, PACKED_STRIDE, u, v) <==>
        (v < y || (v == y && u < x + 1)) && u < WIDTH && Pixel(source, SOURCE_STRIDE, LEFT + u, TOP + v)
    {
      OnePixelIsSet(before, x, y, u, v);
    }
  }

  lemma OneMoreRow(source: seq<bv8>, packed: seq<bv8>, y: nat)
    requires Copied(source, packed, WIDTH, y)
    ensures Copied(source, packed, 0, y + 1)
  {
    hide Pixel;
  }

  lemma AllCopied(source: seq<bv8>, packed: seq<bv8>)
    requires Copied(source, packed, 0, HEIGHT)
    ensures IsCrop(source, packed)
  {
    hide Pixel;
  }

  /** The body of the inner loop. */
  method CopyPixel(source: array<bv8>, cropped: array<bv8>, x: nat, y: nat)
    requires source != cropped && x < WIDTH && y < HEIGHT
    requires source.Length == SOURCE_STRIDE * SOURCE_ROWS && cropped.Length == PACKED_STRIDE * HEIGHT
    requires Copied(source[..], cropped[..], x, y)
    modifies cropped
    ensures Copied(source[..], cropped[..], x + 1, y)
  {
    hide Pixel, HasBit, SetBit, Copied;
    ghost var before := cropped[..];
    PixelIs(source[..], SOURCE_STRIDE, LEFT + x, TOP + y);
    var sourceByte, at := source[(TOP + y) * SOURCE_STRIDE + (LEFT + x) / 8], y * PACKED_STRIDE + x / 8;
    if HasBit(sourceByte, (LEFT + x) % 8) {
      cropped[at] := SetBit(cropped[at], x % 8);
    }
    OneMorePixel(source[..], before, cropped[..], x, y);
  }

  method CropLogo(source: array<bv8>) returns (r: Option<array<bv8>>)
    ensures r.None? <==> source.Length != SOURCE_STRIDE * SOURCE_ROWS
    ensures r.Some? ==> fresh(r.value) && IsCrop(source[..], r.value[..])
  {
    hide Pixel, Copied, IsCrop;
    if source.Length != SOURCE_STRIDE * SOURCE_ROWS { return None; }
    var cropped := new bv8[PACKED_STRIDE * HEIGHT](_ => 0);
    BlankAtFirst(source[..], cropped[..]);
    for y := 0 to HEIGHT
      invariant Copied(source[..], cropped[..], 0, y)
    {
      for x := 0 to WIDTH
        invariant Copied(source[..], cropped[..], x, y)
      {
        CopyPixel(source, cropped, x, y);
      }
      OneMoreRow(source[..], cropped[..], y);
    }
    AllCopied(source[..], cropped[..]);
    r := Some(cropped);
  }

  lemma PixelIs(data: seq<bv8>, stride: nat, x: nat, y: nat)
    requires x < 8 * stride && y * stride + stride <= |data|
    ensures x / 8 < stride && y * stride + x / 8 < |data|
    ensures Pixel(data, stride, x, y) <==> HasBit(data[y * stride + x / 8], x % 8)
  {
  }

  lemma BlankAtFirst(source: seq<bv8>, packed: seq<bv8>)
    requires |source| == SOURCE_STRIDE * SOURCE_ROWS && |packed| == PACKED_STRIDE * HEIGHT
    requires forall i :: 0 <= i < |packed| ==> packed[i] == 0
    ensures Copied(source, packed, 0, 0)
  {
    hide Mask;
  }

  /** A bitmap has one crop: a change to any bit of the result shows. */
  lemma CropIsUnique(source: seq<bv8>, one: seq<bv8>, two: seq<bv8>)
    requires IsCrop(source, one) && IsCrop(source, two)
    ensures one == two
  {
    forall i | 0 <= i < |one| ensures one[i] == two[i] {
      SameByte(source, one, two, i);
    }
  }

  lemma SameByte(source: seq<bv8>, one: seq<bv8>, two: seq<bv8>, i: nat)
    requires IsCrop(source, one) && IsCrop(source, two) && i < |one| == |two|
    ensures one[i] == two[i]
  {
    hide IsCrop, Pixel, HasBit;
    forall k: nat | k < 8 ensures HasBit(one[i], k) <==> HasBit(two[i], k) {
      SameBit(source, one, two, i, k);
    }
    SameBitsSameByte(one[i], two[i]);
  }

  lemma SameBit(source: seq<bv8>, one: seq<bv8>, two: seq<bv8>, i: nat, k: nat)
    requires IsCrop(source, one) && IsCrop(source, two) && i < |one| == |two| && k < 8
    ensures HasBit(one[i], k) <==> HasBit(two[i], k)
  {
    hide HasBit, Pixel;
    var u, v := i % PACKED_STRIDE * 8 + k, i / PACKED_STRIDE;
    PixelIs(one, PACKED_STRIDE, u, v);
    PixelIs(two, PACKED_STRIDE, u, v);
    assert v * PACKED_STRIDE + u / 8 == i && u % 8 == k;
    assert Pixel(one, PACKED_STRIDE, u, v) <==> Pixel(two, PACKED_STRIDE, u, v);
  }

  lemma SameBitsSameByte(a: bv8, b: bv8)
    requires forall k: nat :: k < 8 ==> (HasBit(a, k) <==> HasBit(b, k))
    ensures a == b
  {
    hide Mask;
    assert HasBit(a, 0) <==> HasBit(b, 0);
    assert HasBit(a, 1) <==> HasBit(b, 1);
    assert HasBit(a, 2) <==> HasBit(b, 2);
    assert HasBit(a, 3) <==> HasBit(b, 3);
    assert HasBit(a, 4) <==> HasBit(b, 4);
    assert HasBit(a, 5) <==> HasBit(b, 5);
    assert HasBit(a, 6) <==> HasBit(b, 6);
    assert HasBit(a, 7) <==> HasBit(b, 7);
    MaskIs(0); MaskIs(1); MaskIs(2); MaskIs(3); MaskIs(4); MaskIs(5); MaskIs(6); MaskIs(7);
  }
}
