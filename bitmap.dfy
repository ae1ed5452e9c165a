/**
 * The bitmap decoder of the `BITMAP` record: each of the glyph's rows is a
 * line of hexadecimal digits, padded to whole bytes, whose most significant
 * bit is the leftmost pixel. `true` is a foreground (black, opaque) pixel,
 * `false` a background (transparent) one.
 */
module Bitmap {
  import Numerals

  /** `sizeof(unsigned long long) * 8`: the widest row the decoder extracts. */
  const WordBits: nat := 64

  /** Bit `k` of `v` (`v >> k & 1`); zero beyond the width of `v`. */
  function Bit(v: nat, k: nat): bool
    decreases k
  {
    if k == 0 then v % 2 == 1 else Bit(v / 2, k - 1)
  }

  function Pow2(k: nat): (p: nat)
    ensures p >= 1
  {
    if k == 0 then 1 else 2 * Pow2(k - 1)
  }

  /** The number of leading pixels of a row that are decoded: `min(64, w)`. */
  function BitsToUse(w: int): int {
    if w < WordBits then w else WordBits
  }

  /** The padding bits that round a row of `w` pixels up to whole bytes. */
  function Padding(w: int): (p: nat)
    ensures p < 8
    ensures p == 0 <==> w % 8 == 0
    ensures (w + p) % 8 == 0
  {
    if w % 8 == 0 then 0 else 8 - w % 8
  }

  /** The size of an image row: `ofImage::allocate` with a non-positive size holds no pixel. */
  function Size(n: int): nat {
    if n > 0 then n else 0
  }

  /** A freshly allocated row: every pixel background. */
  function BlankRow(w: int): seq<bool> {
    seq(Size(w), _ => false)
  }

  /** A freshly allocated `w` by `h` image, as rows. */
  function Allocate(w: int, h: int): seq<seq<bool>> {
    seq(Size(h), _ => BlankRow(w))
  }

  /**
   * The row of `w` pixels decoded from the row value `raw`: pixel `x` is
   * bit `(BitsToUse(w) - 1 - x) + Padding(w)`; pixels at 64 and beyond are
   * never set and stay background.
   */
  function DecodeRow(raw: nat, w: int): seq<bool> {
    seq(Size(w), x => 0 <= x < BitsToUse(w) && Bit(raw, BitsToUse(w) - 1 - x + Padding(w)))
  }

  /** Line `k` of the file, as the row loop's `getline` reads it; past the end the line is empty. */
  function LineAt(lines: seq<string>, k: int): string {
    if 0 <= k < |lines| then lines[k] else ""
  }

  /** The image a `BITMAP` record at `start - 1` decodes: one row per line that follows it. */
  function BitmapOf(lines: seq<string>, start: nat, w: int, h: int): seq<seq<bool>> {
    seq(Size(h), r => DecodeRow(Numerals.ParseHexRow(LineAt(lines, start + r)), w))
  }

  /** The image as the source reads its rows, with `strtoll` (see `Numerals.ParseHexRowAsWritten`). */
  function BitmapAsWritten(lines: seq<string>, start: nat, w: int, h: int): seq<seq<bool>> {
    seq(Size(h), r => DecodeRow(Numerals.ParseHexRowAsWritten(LineAt(lines, start + r)), w))
  }

  /**
   * The image the decoder builds is the one the source builds whenever no
   * row line holds a magnitude above `LLONG_MAX`.
   */
  lemma BitmapOfAgrees(lines: seq<string>, start: nat, w: int, h: int)
    requires forall k :: start <= k < start + Size(h) ==> Numerals.HexMagnitude(LineAt(lines, k)).1 <= Numerals.LongLongMax
    ensures BitmapOf(lines, start, w, h) == BitmapAsWritten(lines, start, w, h)
  {
    forall r | 0 <= r < Size(h)
      ensures BitmapOf(lines, start, w, h)[r] == BitmapAsWritten(lines, start, w, h)[r]
    {
      Numerals.RowReadsAgree(LineAt(lines, start + r));
    }
  }

  /**
   * The `BITMAP` branch: allocate a `width` by `height` image, then for each
   * of the next `height` lines parse the row value and set that row's
   * pixels from its bits. Returns the image and the index of the first line
   * after the rows.
   */
  method ReadBitmap(lines: seq<string>, start: nat, width: int, height: int)
    returns (image: seq<seq<bool>>, next: nat)
    ensures next == start + Size(height)
    ensures image == BitmapOf(lines, start, width, height)
  {
    ghost var target := BitmapOf(lines, start, width, height);
    image := Allocate(width, height);
    var i := 0;
    while i < height
      invariant 0 <= i <= Size(height)
      invariant |image| == |target|
      invariant forall r :: 0 <= r < i ==> image[r] == target[r]
      invariant forall r :: i <= r < |image| ==> image[r] == BlankRow(width)
    {
      var line := LineAt(lines, start + i);
      var rawLine := Numerals.ParseHexRow(line);
      assert target[i] == DecodeRow(rawLine, width);
      image := SetRow(image, i, rawLine, width);
      assert image[i] == target[i];
      i := i + 1;
    }
    next := start + Size(height);
  }

  /**
   * The loop over the bits of one row: bit `j + padding` of `rawLine` gives
   * pixel `bitsToUse - 1 - j` of row `i`.
   */
  method SetRow(image: seq<seq<bool>>, i: nat, rawLine: nat, width: int) returns (result: seq<seq<bool>>)
    requires i < |image| && image[i] == BlankRow(width)
    ensures result == image[i := DecodeRow(rawLine, width)]
  {
    var bitsToUse := WordBits;
    if width < bitsToUse {
      bitsToUse := width;
    }
    var padding := if width % 8 == 0 then 0 else 8 - width % 8;
    var row := image[i];
    var j := 0;
    while j < bitsToUse
      invariant 0 <= j && (bitsToUse >= 0 ==> j <= bitsToUse)
      invariant |row| == Size(width)
      invariant forall x :: 0 <= x < |row| ==>
                  row[x] == (bitsToUse - j <= x < bitsToUse && Bit(rawLine, bitsToUse - 1 - x + padding))
    {
      var x := bitsToUse - 1 - j;
      if x < |row| {
        row := row[x := Bit(rawLine, j + padding)];
      }
      j := j + 1;
    }
    assert row == DecodeRow(rawLine, width) by {
      assert bitsToUse == BitsToUse(width) && padding == Padding(width);
      forall x | 0 <= x < |row|
        ensures row[x] == DecodeRow(rawLine, width)[x]
      {
      }
    }
    result := image[i := row];
  }

  /** For a glyph up to 64 pixels wide, the decoded row has `w` pixels, pixel `x` from bit `(w - 1 - x) + Padding(w)`. */
  lemma DecodeRowPixel(raw: nat, w: int, x: int)
    requires 0 < w <= WordBits && 0 <= x < w
    ensures |DecodeRow(raw, w)| == w
    ensures DecodeRow(raw, w)[x] == Bit(raw, (w - 1 - x) + Padding(w))
  {
    assert BitsToUse(w) == w;
    assert DecodeRow(raw, w)[x] == (0 <= x < BitsToUse(w) && Bit(raw, BitsToUse(w) - 1 - x + Padding(w)));
  }

  /** Width 8, row 0xFF: every pixel is foreground. */
  lemma DecodeFullRow()
    ensures DecodeRow(0xFF, 8) == [true, true, true, true, true, true, true, true]
  {
    assert Bit(0xFF, 0) && Bit(0xFF, 1) && Bit(0xFF, 2) && Bit(0xFF, 3);
    assert Bit(0xFF, 4) && Bit(0xFF, 5) && Bit(0xFF, 6) && Bit(0xFF, 7);
    forall x | 0 <= x < 8
      ensures DecodeRow(0xFF, 8)[x]
    {
      DecodeRowPixel(0xFF, 8, x);
      assert x == 0 || x == 1 || x == 2 || x == 3 || x == 4 || x == 5 || x == 6 || x == 7;
    }
  }

  /** Width 8, row 0x81: only the leftmost and the rightmost pixel are foreground. */
  lemma DecodeFrameRow()
    ensures DecodeRow(0x81, 8) == [true, false, false, false, false, false, false, true]
  {
    assert Bit(0x81, 0) && !Bit(0x81, 1) && !Bit(0x81, 2) && !Bit(0x81, 3);
    assert !Bit(0x81, 4) && !Bit(0x81, 5) && !Bit(0x81, 6) && Bit(0x81, 7);
    forall x | 0 <= x < 8
      ensures DecodeRow(0x81, 8)[x] == (x == 0 || x == 7)
    {
      DecodeRowPixel(0x81, 8, x);
      assert x == 0 || x == 1 || x == 2 || x == 3 || x == 4 || x == 5 || x == 6 || x == 7;
    }
  }

  /** Width 8, row 0: every pixel is background. */
  lemma DecodeEmptyRow()
    ensures DecodeRow(0, 8) == [false, false, false, false, false, false, false, false]
  {
    forall x | 0 <= x < 8
      ensures !DecodeRow(0, 8)[x]
    {
      DecodeRowPixel(0, 8, x);
      BitOfZero(8 - 1 - x + Padding(8));
    }
  }

  /** Zero has no bit set. */
  lemma {:induction false} BitOfZero(k: nat)
    ensures !Bit(0, k)
    decreases k
  {
    if k > 0 {
      BitOfZero(k - 1);
    }
  }

  /** Width 6 carries two padding bits: row 0x84 (100001 then 00) is the two edge pixels. */
  lemma DecodeNarrowRow()
    ensures Padding(6) == 2
    ensures DecodeRow(0x84, 6) == [true, false, false, false, false, true]
  {
    assert Padding(6) == 2;
    assert Bit(0x84, 2) && !Bit(0x84, 3) && !Bit(0x84, 4) && !Bit(0x84, 5) && !Bit(0x84, 6) && Bit(0x84, 7);
    forall x | 0 <= x < 6
      ensures DecodeRow(0x84, 6)[x] == (x == 0 || x == 5)
    {
      DecodeRowPixel(0x84, 6, x);
      assert x == 0 || x == 1 || x == 2 || x == 3 || x == 4 || x == 5;
    }
  }

  // ---- The encoder that `DecodeRow` inverts ----

  /** The bits of a row of pixels, leftmost most significant. */
  function Pack(p: seq<bool>): nat {
    if p == [] then 0 else 2 * Pack(p[..|p| - 1]) + (if p[|p| - 1] then 1 else 0)
  }

  /** `v << k`. */
  function Shift(v: nat, k: nat): nat {
    if k == 0 then v else 2 * Shift(v, k - 1)
  }

  /** The value of the hexadecimal line that stores a row of pixels: its bits, then the padding. */
  function EncodeRow(p: seq<bool>): nat {
    Shift(Pack(p), Padding(|p|))
  }

  lemma {:induction false} BitOfPack(p: seq<bool>, k: nat)
    requires k < |p|
    ensures Bit(Pack(p), k) == p[|p| - 1 - k]
    decreases |p|
  {
    var q := p[..|p| - 1];
    var b := if p[|p| - 1] then 1 else 0;
    assert Pack(p) == 2 * Pack(q) + b;
    if k > 0 {
      assert Pack(p) / 2 == Pack(q);
      BitOfPack(q, k - 1);
    }
  }

  lemma {:induction false} BitOfShift(v: nat, s: nat, k: nat)
    ensures Bit(Shift(v, s), k + s) == Bit(v, k)
    decreases s
  {
    if s > 0 {
      assert Shift(v, s) / 2 == Shift(v, s - 1);
      BitOfShift(v, s - 1, k);
    }
  }

  lemma {:induction false} PackBound(p: seq<bool>)
    ensures Pack(p) < Pow2(|p|)
    decreases |p|
  {
    if p != [] {
      PackBound(p[..|p| - 1]);
    }
  }

  lemma {:induction false} ShiftBound(v: nat, n: nat, s: nat)
    requires v < Pow2(n)
    ensures Shift(v, s) < Pow2(n + s)
    decreases s
  {
    if s > 0 {
      ShiftBound(v, n, s - 1);
    }
  }

  lemma {:induction false} Pow2Monotone(a: nat, b: nat)
    requires a <= b
    ensures Pow2(a) <= Pow2(b)
    decreases b
  {
    if a < b {
      Pow2Monotone(a, b - 1);
    }
  }

  lemma {:induction false} Pow2Add(a: nat, b: nat)
    ensures Pow2(a + b) == Pow2(a) * Pow2(b)
    decreases b
  {
    if b > 0 {
      Pow2Add(a, b - 1);
      assert Pow2(a + b) == 2 * Pow2(a + b - 1);
    }
  }

  lemma Pow2Of64()
    ensures Pow2(64) == Numerals.TwoTo64
    ensures Pow2(63) == Numerals.LongLongMax + 1
  {
    assert Pow2(8) == 0x100;
    Pow2Add(8, 8);
    assert Pow2(16) == 0x1_0000;
    Pow2Add(16, 16);
    assert Pow2(32) == 0x1_0000_0000;
    Pow2Add(32, 32);
    assert Pow2(64) == 2 * Pow2(63);
  }

  /** A set bit `k` makes the value at least 2^k. */
  lemma {:induction false} BitBound(v: nat, k: nat)
    requires Bit(v, k)
    ensures v >= Pow2(k)
    decreases k
  {
    if k > 0 {
      BitBound(v / 2, k - 1);
    }
  }

  /** A row of up to 64 pixels is stored in a value below 2^64. */
  lemma EncodeRowBound(p: seq<bool>)
    requires |p| <= WordBits
    ensures EncodeRow(p) < Numerals.TwoTo64
  {
    PackBound(p);
    ShiftBound(Pack(p), |p|, Padding(|p|));
    Pow2Monotone(|p| + Padding(|p|), 64);
    Pow2Of64();
  }

  /** Decoding the stored value of a row of 1 to 64 pixels gives the row back. */
  lemma DecodeEncodeRow(p: seq<bool>)
    requires 0 < |p| <= WordBits
    ensures DecodeRow(EncodeRow(p), |p|) == p
  {
    var w := |p|;
    var d := DecodeRow(EncodeRow(p), w);
    forall x | 0 <= x < w
      ensures d[x] == p[x]
    {
      DecodeRowPixel(EncodeRow(p), w, x);
      BitOfShift(Pack(p), Padding(w), w - 1 - x);
      BitOfPack(p, w - 1 - x);
    }
  }

  /**
   * The whole row round trip: a row of 1 to 64 pixels, written as the
   * hexadecimal line the format stores, is decoded back to itself.
   */
  lemma RowRoundTrip(p: seq<bool>)
    requires 0 < |p| <= WordBits
    ensures DecodeRow(Numerals.ParseHexRow(Numerals.Format(EncodeRow(p), 16)), |p|) == p
  {
    EncodeRowBound(p);
    Numerals.ParseHexRowOfFormat(EncodeRow(p));
    DecodeEncodeRow(p);
  }

  /**
   * The row as the source reads it (`strtoll`): in a glyph 57 to 64 pixels
   * wide whose leftmost pixel is set, the stored value exceeds the largest
   * `long long`, saturates, and the leftmost pixel comes out background.
   */
  lemma AsWrittenLosesLeftmostPixel(p: seq<bool>)
    requires 56 < |p| <= WordBits && p[0]
    ensures !DecodeRow(Numerals.ParseHexRowAsWritten(Numerals.Format(EncodeRow(p), 16)), |p|)[0]
  {
    var w := |p|;
    var v := EncodeRow(p);
    assert Padding(w) == 64 - w;
    BitOfShift(Pack(p), Padding(w), w - 1);
    BitOfPack(p, w - 1);
    assert Bit(v, 63);
    DecodeRowPixel(Numerals.ParseHexRowAsWritten(Numerals.Format(v, 16)), w, 0);
    BitBound(v, 63);
    Pow2Of64();
    EncodeRowBound(p);
    AsWrittenSaturates(v);
    SaturatedTopBit();
  }

  /** `strtoll` on a formatted value of at least 2^63 yields the largest `long long`. */
  lemma AsWrittenSaturates(v: nat)
    requires Numerals.LongLongMax < v < Numerals.TwoTo64
    ensures Numerals.ParseHexRowAsWritten(Numerals.Format(v, 16)) == Numerals.LongLongMax
  {
    Numerals.HexMagnitudeOfFormat(v);
    Numerals.AsWrittenOfUnsigned(v);
  }

  /** Bit 63 of the largest `long long` is clear. */
  lemma SaturatedTopBit()
    ensures !Bit(Numerals.LongLongMax, 63)
  {
    Pow2Of64();
    if Bit(Numerals.LongLongMax, 63) {
      BitBound(Numerals.LongLongMax, 63);
    }
  }
}
