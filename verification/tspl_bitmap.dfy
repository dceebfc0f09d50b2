/**
 * Packing a grey image into the one-bit rows of the label printer: eight
 * pixels a byte, the leftmost in the highest bit, and a cleared bit is ink.
 */
module TsplBitmap {
  import opened Arithmetic

  /** One bit, counted from the left. */
  function Mask(k: nat): bv8
    requires k < 8
  {
    match k
    case 0 => 0x80 case 1 => 0x40 case 2 => 0x20 case 3 => 0x10
    case 4 => 0x08 case 5 => 0x04 case 6 => 0x02 case _ => 0x01
  }

  /** As it is written in the loops. */
  lemma {:induction false} MaskIsShift(k: nat)
    requires k < 8
    ensures Mask(k) == 0x80 >> k
  {
  }

  predicate Bit(b: bv8, k: nat)
    requires k < 8
  {
    b & Mask(k) != 0
  }

  /** Clearing one bit leaves the seven others. */
  lemma {:induction false} ClearOneBit(b: bv8, k: nat, j: nat)
    requires k < 8 && j < 8
    ensures Bit(b & !Mask(k), j) <==> j != k && Bit(b, j)
  {
  }

  lemma {:induction false} AllBitsSet(k: nat)
    requires k < 8
    ensures Bit(0xFF, k)
  {
  }

  function BytesFor(width: nat): nat { (width + 7) / 8 }

  /** How a grey value is read: text is bright on dark, a QR code dark on bright. */
  datatype Ink = BrightIsInk | DarkIsInk {
    predicate Inked(value: nat) {
      match this
      case BrightIsInk => value > 127
      case DarkIsInk => value < 128
    }
  }

  /** The pixel at column x of row y, out of range being no ink. */
  predicate InkAt(raw: seq<nat>, width: nat, height: nat, ink: Ink, x: nat, y: nat)
    requires |raw| == width * height
  {
    x < width && y < height && (PixelInRange(width, height, x, y); ink.Inked(raw[y * width + x]))
  }

  lemma {:induction false} PixelInRange(width: nat, height: nat, x: nat, y: nat)
    requires x < width && y < height
    ensures y * width + x < width * height
  {
    TimesMonotone(y + 1, height, width);
    TimesNext(y, width);
  }

  /** The byte of a pixel, and back. */
  lemma {:induction false} ByteOf(bytes: nat, y: nat, b: nat, i: nat)
    requires b < bytes
    ensures i == y * bytes + b <==> i / bytes == y && i % bytes == b
  {
    assert i / bytes * bytes + i % bytes == i;
    if i == y * bytes + b {
      TimesApart(bytes, i / bytes, y);
    }
  }

  lemma {:induction false} TimesApart(n: nat, a: nat, b: nat)
    ensures a < b ==> a * n + n <= b * n
    ensures b < a ==> b * n + n <= a * n
  {
    if a < b { TimesMonotone(a + 1, b, n); TimesNext(a, n); }
    if b < a { TimesMonotone(b + 1, a, n); TimesNext(b, n); }
  }

  /** The column, in bits from the left edge, of bit k of byte i. */
  function Column(bytes: nat, i: nat, k: nat): nat
    requires bytes > 0
  {
    i % bytes * 8 + k
  }

  /** Bit k of byte i is cleared once the pixel it stands for has been visited and found to be ink. */
  predicate Cleared(raw: seq<nat>, width: nat, height: nat, ink: Ink, x: nat, y: nat, i: nat, k: nat)
    requires |raw| == width * height && BytesFor(width) > 0
  {
    var row, column := i / BytesFor(width), Column(BytesFor(width), i, k);
    (row < y || (row == y && column < x)) && InkAt(raw, width, height, ink, column, row)
  }

  ghost predicate PackedUpTo(raw: seq<nat>, width: nat, height: nat, ink: Ink, x: nat, y: nat, out: seq<bv8>)
    requires |raw| == width * height && BytesFor(width) > 0
  {
    forall i, k | 0 <= i < |out| && 0 <= k < 8 :: Bit(out[i], k) <==> !Cleared(raw, width, height, ink, x, y, i, k)
  }

  /** Visiting a pixel decides its own bit and no other. */
  lemma {:induction false} NextPixel(raw: seq<nat>, width: nat, height: nat, ink: Ink, x: nat, y: nat, i: nat, k: nat)
    requires |raw| == width * height && x < width && y < height && k < 8
    ensures BytesFor(width) > 0 && x / 8 < BytesFor(width)
    ensures Cleared(raw, width, height, ink, x + 1, y, i, k)
            <==> Cleared(raw, width, height, ink, x, y, i, k)
                 || (i == y * BytesFor(width) + x / 8 && k == x % 8 && InkAt(raw, width, height, ink, x, y))
  {
    var bytes := BytesFor(width);
    ByteOf(bytes, y, x / 8, i);
    assert Column(bytes, i, k) == x <==> i % bytes == x / 8 && k == x % 8;
  }

  /** A row is done when its last pixel is: past the width there is no ink. */
  lemma {:induction false} RowDone(raw: seq<nat>, width: nat, height: nat, ink: Ink, y: nat, out: seq<bv8>)
    requires |raw| == width * height && BytesFor(width) > 0
    requires PackedUpTo(raw, width, height, ink, width, y, out)
    ensures PackedUpTo(raw, width, height, ink, 0, y + 1, out)
  {
    forall i, k | 0 <= i < |out| && 0 <= k < 8
      ensures Cleared(raw, width, height, ink, width, y, i, k) <==> Cleared(raw, width, height, ink, 0, y + 1, i, k) {
      NextRow(raw, width, height, ink, y, i, k);
    }
  }

  lemma {:induction false} NextRow(raw: seq<nat>, width: nat, height: nat, ink: Ink, y: nat, i: nat, k: nat)
    requires |raw| == width * height && BytesFor(width) > 0
    ensures Cleared(raw, width, height, ink, width, y, i, k) <==> Cleared(raw, width, height, ink, 0, y + 1, i, k)
  {
  }

  lemma {:induction false} NothingCleared(raw: seq<nat>, width: nat, height: nat, ink: Ink, i: nat, k: nat)
    requires |raw| == width * height && BytesFor(width) > 0
    ensures !Cleared(raw, width, height, ink, 0, 0, i, k)
  {
  }

  lemma {:induction false} BlankIsPacked(raw: seq<nat>, width: nat, height: nat, ink: Ink, out: seq<bv8>)
    requires |raw| == width * height && BytesFor(width) > 0 && forall b | b in out :: b == 0xFF
    ensures PackedUpTo(raw, width, height, ink, 0, 0, out)
  {
    forall i, k | 0 <= i < |out| && 0 <= k < 8
      ensures Bit(out[i], k) <==> !Cleared(raw, width, height, ink, 0, 0, i, k) {
      assert out[i] in out;
      AllBitsSet(k);
      NothingCleared(raw, width, height, ink, i, k);
    }
  }

  /** One bit before and after the visit of a pixel. */
  lemma {:induction false} VisitedBit(raw: seq<nat>, width: nat, height: nat, ink: Ink, x: nat, y: nat, i: nat, k: nat,
                                      before: bv8, after: bv8)
    requires |raw| == width * height && x < width && y < height && k < 8 && BytesFor(width) > 0
    requires Bit(before, k) <==> !Cleared(raw, width, height, ink, x, y, i, k)
    requires after == if i == y * BytesFor(width) + x / 8 && InkAt(raw, width, height, ink, x, y)
                      then before & !Mask(x % 8) else before
    ensures Bit(after, k) <==> !Cleared(raw, width, height, ink, x + 1, y, i, k)
  {
    ClearOneBit(before, x % 8, k);
    NextPixel(raw, width, height, ink, x, y, i, k);
  }

  lemma {:induction false} VisitedBits(raw: seq<nat>, width: nat, height: nat, ink: Ink, x: nat, y: nat,
                                       before: seq<bv8>, after: seq<bv8>)
    requires |raw| == width * height && x < width && y < height && BytesFor(width) > 0
    requires PackedUpTo(raw, width, height, ink, x, y, before) && |after| == |before|
    requires forall i | 0 <= i < |before| ::
      after[i] == if i == y * BytesFor(width) + x / 8 && InkAt(raw, width, height, ink, x, y)
                  then before[i] & !Mask(x % 8) else before[i]
    ensures PackedUpTo(raw, width, height, ink, x + 1, y, after)
  {
    forall i, k | 0 <= i < |after| && 0 <= k < 8
      ensures Bit(after[i], k) <==> !Cleared(raw, width, height, ink, x + 1, y, i, k) {
      assert Bit(before[i], k) <==> !Cleared(raw, width, height, ink, x, y, i, k);
      VisitedBit(raw, width, height, ink, x, y, i, k, before[i], after[i]);
    }
  }

  method VisitPixel(raw: seq<nat>, width: nat, height: nat, ink: Ink, x: nat, y: nat, out: array<bv8>)
    requires |raw| == width * height && x < width && y < height
    requires out.Length == BytesFor(width) * height
    requires PackedUpTo(raw, width, height, ink, x, y, out[..])
    modifies out
    ensures PackedUpTo(raw, width, height, ink, x + 1, y, out[..])
  {
    PixelInRange(width, height, x, y);
    PixelInRange(BytesFor(width), height, x / 8, y);
    ghost var before := out[..];
    if ink.Inked(raw[y * width + x]) {
      var byteIndex := y * BytesFor(width) + x / 8;
      out[byteIndex] := out[byteIndex] & !Mask(x % 8);
    }
    VisitedBits(raw, width, height, ink, x, y, before, out[..]);
  }

  /** The packing loops, over rows and over the pixels of a row. */
  method Pack(raw: seq<nat>, width: nat, height: nat, ink: Ink) returns (widthBytes: nat, out: array<bv8>)
    requires |raw| == width * height
    ensures widthBytes == BytesFor(width) && width <= 8 * widthBytes < width + 8
    ensures out.Length == widthBytes * height
    ensures widthBytes > 0 ==> PackedUpTo(raw, width, height, ink, 0, height, out[..])
  {
    widthBytes := BytesFor(width);
    out := new bv8[widthBytes * height](_ => 0xFF);
    if widthBytes == 0 { return; }
    BlankIsPacked(raw, width, height, ink, out[..]);
    for y := 0 to height
      invariant PackedUpTo(raw, width, height, ink, 0, y, out[..])
    {
      for x := 0 to width
        invariant PackedUpTo(raw, width, height, ink, x, y, out[..])
      {
        VisitPixel(raw, width, height, ink, x, y, out);
      }
      RowDone(raw, width, height, ink, y, out[..]);
    }
  }

  /**
   * Main result: in the packed rows, the bit of a position is 0 exactly when
   * that position is an inked pixel; so the padding past the width stays 1.
   */
  lemma {:induction false} BitIsZeroIffInk(raw: seq<nat>, width: nat, height: nat, ink: Ink, out: seq<bv8>,
                                           x: nat, y: nat)
    requires |raw| == width * height && |out| == BytesFor(width) * height
    requires BytesFor(width) > 0 && PackedUpTo(raw, width, height, ink, 0, height, out)
    requires x < 8 * BytesFor(width) && y < height
    ensures y * BytesFor(width) + x / 8 < |out|
    ensures x < width ==> y * width + x < |raw|
    ensures out[y * BytesFor(width) + x / 8] & (0x80 >> (x % 8)) == 0
            <==> x < width && if ink == BrightIsInk then raw[y * width + x] > 127 else raw[y * width + x] < 128
  {
    if x < width { PixelInRange(width, height, x, y); }
    MaskIsShift(x % 8);
    var i := y * BytesFor(width) + x / 8;
    PixelInRange(BytesFor(width), height, x / 8, y);
    ByteOf(BytesFor(width), y, x / 8, i);
    assert Column(BytesFor(width), i, x % 8) == x;
    assert Bit(out[i], x % 8) <==> !Cleared(raw, width, height, ink, 0, height, i, x % 8);
  }

  lemma {:induction false} SameByte(b: bv8, c: bv8)
    requires forall k | 0 <= k < 8 :: Bit(b, k) <==> Bit(c, k)
    ensures b == c
  {
    assert Bit(b, 0) <==> Bit(c, 0);
    assert Bit(b, 1) <==> Bit(c, 1);
    assert Bit(b, 2) <==> Bit(c, 2);
    assert Bit(b, 3) <==> Bit(c, 3);
    assert Bit(b, 4) <==> Bit(c, 4);
    assert Bit(b, 5) <==> Bit(c, 5);
    assert Bit(b, 6) <==> Bit(c, 6);
    assert Bit(b, 7) <==> Bit(c, 7);
  }

  predicate SameInk(raw: seq<nat>, other: seq<nat>, width: nat, height: nat, ink: Ink, x: nat, y: nat)
    requires |raw| == |other| == width * height
  {
    InkAt(raw, width, height, ink, x, y) <==> InkAt(other, width, height, ink, x, y)
  }

  lemma {:induction false} SameInkSameBytes(raw: seq<nat>, other: seq<nat>, width: nat, height: nat, ink: Ink,
                                            out: seq<bv8>, out': seq<bv8>)
    requires |raw| == |other| == width * height && |out| == |out'| && BytesFor(width) > 0
    requires PackedUpTo(raw, width, height, ink, 0, height, out)
    requires PackedUpTo(other, width, height, ink, 0, height, out')
    requires forall x, y :: SameInk(raw, other, width, height, ink, x, y)
    ensures out == out'
  {
    forall i | 0 <= i < |out| ensures out[i] == out'[i] {
      forall k | 0 <= k < 8 ensures Bit(out[i], k) <==> Bit(out'[i], k) {
        SameInkSameBit(raw, other, width, height, ink, i, k);
      }
      SameByte(out[i], out'[i]);
    }
  }

  lemma {:induction false} SameInkSameBit(raw: seq<nat>, other: seq<nat>, width: nat, height: nat, ink: Ink,
                                          i: nat, k: nat)
    requires |raw| == |other| == width * height && BytesFor(width) > 0
    requires forall x, y :: SameInk(raw, other, width, height, ink, x, y)
    ensures Cleared(raw, width, height, ink, 0, height, i, k) <==> Cleared(other, width, height, ink, 0, height, i, k)
  {
    assert SameInk(raw, other, width, height, ink, Column(BytesFor(width), i, k), i / BytesFor(width));
  }

  lemma {:induction false} SameBytesSameInk(raw: seq<nat>, other: seq<nat>, width: nat, height: nat, ink: Ink,
                                            out: seq<bv8>, x: nat, y: nat)
    requires |raw| == |other| == width * height && |out| == BytesFor(width) * height
    requires BytesFor(width) > 0
    requires PackedUpTo(raw, width, height, ink, 0, height, out)
    requires PackedUpTo(other, width, height, ink, 0, height, out)
    ensures SameInk(raw, other, width, height, ink, x, y)
  {
    if x < width && y < height {
      BitIsZeroIffInk(raw, width, height, ink, out, x, y);
      BitIsZeroIffInk(other, width, height, ink, out, x, y);
    }
  }

  /** Two packed images of one size are equal exactly when the same pixels are inked. */
  lemma {:induction false} PackingIsFaithful(raw: seq<nat>, other: seq<nat>, width: nat, height: nat, ink: Ink,
                                             out: seq<bv8>, out': seq<bv8>)
    requires |raw| == |other| == width * height && |out| == |out'| == BytesFor(width) * height
    requires BytesFor(width) > 0
    requires PackedUpTo(raw, width, height, ink, 0, height, out)
    requires PackedUpTo(other, width, height, ink, 0, height, out')
    ensures out == out' <==> forall x, y :: SameInk(raw, other, width, height, ink, x, y)
  {
    if out == out' {
      forall x, y ensures SameInk(raw, other, width, height, ink, x, y) {
        SameBytesSameInk(raw, other, width, height, ink, out, x, y);
      }
    }
    if forall x, y :: SameInk(raw, other, width, height, ink, x, y) {
      SameInkSameBytes(raw, other, width, height, ink, out, out');
    }
  }
}
