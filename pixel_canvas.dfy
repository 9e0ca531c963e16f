/**
 * `Pixel_Canvas` (core.h, core.cpp): a `width` by `height` RGBA image stored
 * row-major with a bottom-left origin, so pixel (x, y) is `canvas[y * width + x]`.
 */
module PixelCanvas {
  import opened Numerics

  /** `RGBA`: four unsigned bytes. */
  datatype RGBA = RGBA(r: bv8, g: bv8, b: bv8, a: bv8)

  /** Bytes per pixel, `sizeof(RGBA)`. */
  const PIXEL_BYTES: nat := 4

  /**
   * Where pixel (x, y) lives in the row-major buffer: every in-range pixel
   * has a slot inside the buffer.
   */
  function PixelIndex(width: nat, height: nat, x: nat, y: nat): (i: nat)
    requires x < width && y < height
    ensures i < width * height
    ensures i / width == y && i % width == x
  {
    RowBound(width, height, y);
    DivModUnique(width, y, x);
    y * width + x
  }

  /** Distinct pixels occupy distinct slots, and every slot is some pixel's: the layout is a bijection. */
  lemma PixelIndexBijective(width: nat, height: nat)
    ensures forall x1: nat, y1: nat, x2: nat, y2: nat ::
              x1 < width && y1 < height && x2 < width && y2 < height &&
              PixelIndex(width, height, x1, y1) == PixelIndex(width, height, x2, y2)
              ==> x1 == x2 && y1 == y2
    ensures forall i :: 0 <= i < width * height ==>
              i / width < height && PixelIndex(width, height, i % width, i / width) == i
  {
    forall i | 0 <= i < width * height
      ensures i / width < height && PixelIndex(width, height, i % width, i / width) == i
    {
      DivBelow(i, width, height);
    }
  }

  class Canvas {
    var width: nat
    var height: nat
    var canvas: array<RGBA>

    ghost predicate Valid()
      reads this
    {
      canvas.Length == width * height
    }

    /** The colour of pixel (x, y). */
    ghost function Pixel(x: nat, y: nat): RGBA
      reads this, canvas
      requires Valid() && x < width && y < height
    {
      canvas[PixelIndex(width, height, x, y)]
    }

    /** `create`: an empty canvas with no buffer. */
    constructor Create()
      ensures Valid() && width == 0 && height == 0
    {
      width, height := 0, 0;
      canvas := new RGBA[0];
    }

    /**
     * `set_resolution`: a new (uninitialised) buffer only when the byte size
     * `width * height * 4` changes; the buffer is kept otherwise.  Width and
     * height are always updated.
     */
    method SetResolution(newWidth: nat, newHeight: nat)
      requires Valid()
      modifies this
      ensures Valid() && width == newWidth && height == newHeight
      ensures if newWidth * newHeight * PIXEL_BYTES != old(width * height) * PIXEL_BYTES
              then fresh(canvas)
              else canvas == old(canvas) && canvas[..] == old(canvas[..])
    {
      var newSize := newWidth * newHeight * PIXEL_BYTES;
      var currentSize := width * height * PIXEL_BYTES;
      if newSize != currentSize {
        canvas := new RGBA[newWidth * newHeight];
      }
      width, height := newWidth, newHeight;
    }

    /** `set_pixel`: writes one pixel and nothing else. */
    method SetPixel(x: nat, y: nat, color: RGBA)
      requires Valid() && x < width && y < height
      modifies canvas
      ensures Valid()
      ensures canvas[..] == old(canvas[..])[PixelIndex(width, height, x, y) := color]
      ensures Pixel(x, y) == color
      ensures forall x': nat, y': nat :: x' < width && y' < height && (x' != x || y' != y) ==> Pixel(x', y') == old(Pixel(x', y'))
    {
      var i := PixelIndex(width, height, x, y);
      canvas[i] := color;
    }

    /** `clear`: every one of the `width * height` pixels takes `color`. */
    method Clear(color: RGBA)
      requires Valid()
      modifies canvas
      ensures Valid()
      ensures forall i :: 0 <= i < canvas.Length ==> canvas[i] == color
    {
      var pixCount := width * height;
      var ipix := 0;
      while ipix != pixCount
        invariant 0 <= ipix <= pixCount
        invariant forall i :: 0 <= i < ipix ==> canvas[i] == color
      {
        canvas[ipix] := color;
        ipix := ipix + 1;
      }
    }
  }
}
