/** The self-contained computations of the OGLTexture constructor: the
    power-of-two sizing loop and the packing of ARGB pixels into RGBA bytes. */
module TexturePixels {

  predicate IsPowerOfTwo(n: int)
    decreases n
  {
    n == 1 || (n > 1 && n % 2 == 0 && IsPowerOfTwo(n / 2))
  }

  /** `p` is the smallest power of two that is at least 2 and at least `i`. */
  predicate SmallestPowerOfTwoAtLeast(p: int, i: int) {
    IsPowerOfTwo(p) && p >= 2 && p >= i && (p == 2 || p / 2 < i)
  }

  /** Between two different powers of two lies a factor of two. */
  lemma {:induction false} PowersOfTwoApart(a: int, b: int)
    requires IsPowerOfTwo(a) && IsPowerOfTwo(b) && a < b
    ensures 2 * a <= b
    decreases b
  {
    if a > 1 {
      PowersOfTwoApart(a / 2, b / 2);
    }
  }

  /** The characterisation really gives the least such power of two. */
  lemma SmallestPowerOfTwoIsLeast(p: int, i: int, q: int)
    requires SmallestPowerOfTwoAtLeast(p, i)
    requires IsPowerOfTwo(q) && q >= 2 && q >= i
    ensures p <= q
  {
    if p > 2 && q < p {
      assert IsPowerOfTwo(p / 2);
      PowersOfTwoApart(p / 2, q);
    }
  }

  /** There is only one such power of two. */
  lemma SmallestPowerOfTwoUnique(p: int, q: int, i: int)
    requires SmallestPowerOfTwoAtLeast(p, i) && SmallestPowerOfTwoAtLeast(q, i)
    ensures p == q
  {
    SmallestPowerOfTwoIsLeast(p, i, q);
    SmallestPowerOfTwoIsLeast(q, i, p);
  }

  /** A size is left alone exactly when it already is a power of two of at
      least 2. */
  lemma SmallestPowerOfTwoFixed(p: int, i: int)
    requires SmallestPowerOfTwoAtLeast(p, i)
    ensures p == i <==> IsPowerOfTwo(i) && i >= 2
  {
    if IsPowerOfTwo(i) && i >= 2 {
      SmallestPowerOfTwoIsLeast(p, i, i);
    }
  }

  /** `getNextPowerOfTwo`.  In Java the doubling overflows once `counter`
      passes 2^30, so the loop ends only for `i` up to 2^30; below that the
      result stays within the `int` range. */
  method NextPowerOfTwo(i: int) returns (counter: int)
    requires i <= 0x4000_0000
    ensures SmallestPowerOfTwoAtLeast(counter, i)
    ensures counter < 0x8000_0000
  {
    counter := 2;
    while counter < i
      invariant IsPowerOfTwo(counter) && 2 <= counter
      invariant counter == 2 || counter / 2 < i
      decreases i - counter
    {
      counter := counter * 2;
      assert counter / 2 == counter / 2 * 1;
    }
    assert counter % 2 == 0;
  }

  /** A pixel as `BufferedImage.getRGB` delivers it: alpha in the top byte,
      then red, green and blue. */
  function Argb(a: bv8, r: bv8, g: bv8, b: bv8): bv32 {
    (a as bv32 << 24) | (r as bv32 << 16) | (g as bv32 << 8) | b as bv32
  }

  /** The four bytes the pixel loop puts for one pixel: R, G, B, A. */
  function RgbaBytes(pixel: bv32): (r: seq<bv8>)
    ensures |r| == 4
  {
    [((pixel >> 16) & 0xFF) as bv8, ((pixel >> 8) & 0xFF) as bv8, (pixel & 0xFF) as bv8,
     ((pixel >> 24) & 0xFF) as bv8]
  }

  /** Packing moves alpha from the front to the back and keeps the colours. */
  lemma RgbaOfArgb(a: bv8, r: bv8, g: bv8, b: bv8)
    ensures RgbaBytes(Argb(a, r, g, b)) == [r, g, b, a]
  {
  }

  /** No information is lost: the four bytes rebuild the pixel. */
  lemma ArgbOfRgba(pixel: bv32)
    ensures var q := RgbaBytes(pixel); Argb(q[3], q[0], q[1], q[2]) == pixel
  {
  }

  /** The bytes of a row-major pixel sequence, pixel after pixel. */
  function Packed(pixels: seq<bv32>): (r: seq<bv8>)
    ensures |r| == 4 * |pixels|
  {
    if |pixels| == 0 then [] else Packed(pixels[..|pixels| - 1]) + RgbaBytes(pixels[|pixels| - 1])
  }

  /** Byte `4k + c` is channel `c` of pixel `k`. */
  lemma {:induction false} PackedAt(pixels: seq<bv32>, k: int, c: int)
    requires 0 <= k < |pixels| && 0 <= c < 4
    ensures Packed(pixels)[4 * k + c] == RgbaBytes(pixels[k])[c]
  {
    var n := |pixels| - 1;
    if k < n {
      PackedAt(pixels[..n], k, c);
    }
  }

  /** Packing a longer prefix appends the next pixel's bytes. */
  lemma PackedStep(pixels: seq<bv32>, k: int)
    requires 0 <= k < |pixels|
    ensures Packed(pixels[..k + 1]) == Packed(pixels[..k]) + RgbaBytes(pixels[k])
  {
    assert pixels[..k + 1][..k] == pixels[..k];
  }

  /** Four `put` calls: one pixel's bytes at position `pos`. */
  method PutRgba(buffer: array<bv8>, pos: nat, pixel: bv32)
    requires pos + 4 <= buffer.Length
    modifies buffer
    ensures buffer[..pos + 4] == old(buffer[..pos]) + RgbaBytes(pixel)
  {
    var bytes := RgbaBytes(pixel);
    buffer[pos] := bytes[0];
    buffer[pos + 1] := bytes[1];
    buffer[pos + 2] := bytes[2];
    buffer[pos + 3] := bytes[3];
    assert buffer[..pos + 4] == buffer[..pos] + bytes;
  }

  /** The pixel loop of the constructor: rows top to bottom, each row left
      to right, into a buffer of `width * height * 4` bytes. */
  method PackPixels(rgbData: seq<bv32>, width: nat, height: nat) returns (buffer: array<bv8>)
    requires |rgbData| == width * height
    ensures buffer.Length == 4 * |rgbData|
    ensures buffer[..] == Packed(rgbData)
  {
    buffer := new bv8[width * height * 4];
    var k := 0;
    for y := 0 to height
      invariant k == y * width
      invariant buffer[..4 * k] == Packed(rgbData[..k])
    {
      RowFits(y, width, height);
      for x := 0 to width
        invariant k == y * width + x
        invariant buffer[..4 * k] == Packed(rgbData[..k])
      {
        PutRgba(buffer, 4 * k, rgbData[y * width + x]);
        PackedStep(rgbData, k);
        k := k + 1;
      }
      NextRow(y, width);
    }
    assert rgbData[..k] == rgbData;
    assert buffer[..] == buffer[..4 * k];
  }

  lemma RowFits(y: int, width: int, height: int)
    requires 0 <= y < height && 0 <= width
    ensures y * width + width <= width * height
  {
    assert (y + 1) * width <= height * width;
  }

  lemma NextRow(y: int, width: int)
    ensures y * width + width == (y + 1) * width
  {
  }
}
