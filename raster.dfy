/** Row-major RGBA pixel buffers: the byte type and the arithmetic that maps
    a pixel coordinate and a channel to a byte offset and back. */
module Raster {

  /** One byte of a `Uint8ClampedArray`. */
  type Byte = b: int | 0 <= b < 256

  /** Offset of channel `c` of pixel (`x`, `y`) in a buffer `w` pixels wide,
      the `((y*w + x)*4)` arithmetic of the source's write and read indices. */
  function Offset(w: nat, x: nat, y: nat, c: nat): nat
  {
    (y * w + x) * 4 + c
  }

  /** Column of the pixel that byte `i` belongs to. */
  function PixelX(w: nat, i: nat): nat
    requires w > 0
  {
    (i / 4) % w
  }

  /** Row of the pixel that byte `i` belongs to. */
  function PixelY(w: nat, i: nat): nat
    requires w > 0
  {
    (i / 4) / w
  }

  /** Channel (0 red, 1 green, 2 blue, 3 alpha) of byte `i`. */
  function Channel(i: nat): nat
  {
    i % 4
  }

  /** Quotient and remainder are unique: the fact behind both directions below. */
  lemma {:induction false} DivModUnique(n: nat, d: nat, q: nat, r: nat)
    requires d > 0 && r < d && n == q * d + r
    ensures n / d == q && n % d == r
  {
    var q', r' := n / d, n % d;
    assert n == q' * d + r';
    if q' < q {
      MulAtLeast(q - q', d);
      assert false;
    } else if q' > q {
      MulAtLeast(q' - q, d);
      assert false;
    }
  }

  lemma MulAtLeast(k: nat, d: nat)
    requires k >= 1
    ensures k * d >= d
  {
  }

  /** Decoding an offset gives back the coordinate and channel it was built from. */
  lemma {:induction false} OffsetInverse(w: nat, x: nat, y: nat, c: nat)
    requires x < w && c < 4
    ensures PixelX(w, Offset(w, x, y, c)) == x
    ensures PixelY(w, Offset(w, x, y, c)) == y
    ensures Channel(Offset(w, x, y, c)) == c
  {
    var i := Offset(w, x, y, c);
    DivModUnique(i, 4, y * w + x, c);
    DivModUnique(y * w + x, w, y, x);
  }

  /** Every byte offset is the offset of its own coordinate and channel. */
  lemma {:induction false} OffsetOf(w: nat, i: nat)
    requires w > 0
    ensures PixelX(w, i) < w && Channel(i) < 4
    ensures i == Offset(w, PixelX(w, i), PixelY(w, i), Channel(i))
  {
    var p := i / 4;
    assert i == p * 4 + i % 4;
    assert p == (p / w) * w + p % w;
  }

  /** Offsets of pixels inside a `w` by `h` canvas stay inside its `w*h*4` bytes. */
  lemma {:induction false} OffsetBound(w: nat, h: nat, x: nat, y: nat, c: nat)
    requires x < w && y < h && c < 4
    ensures Offset(w, x, y, c) < w * h * 4
  {
    assert y * w + x < (y + 1) * w;
    assert (y + 1) * w <= h * w by { MulMono(y + 1, h, w); }
  }

  lemma MulMono(a: nat, b: nat, d: nat)
    requires a <= b
    ensures a * d <= b * d
  {
  }
}
