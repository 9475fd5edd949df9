/**
 * Bitmaps and the crop of ScreenCaptureView.crop: a new image exactly the
 * size of the selection, filled by copying the selected region of the
 * reference snapshot at the new image's origin. Row y of an image is the
 * row at height y above the bottom edge, the convention of the overlay's
 * coordinates, so a selection rectangle addresses the snapshot directly.
 */
module Imaging {
  import opened Selection

  datatype Pixel = Pixel(red: bv8, green: bv8, blue: bv8, alpha: bv8)

  /** What a freshly allocated image holds before anything is drawn into it. */
  const Transparent := Pixel(0, 0, 0, 0)

  datatype Bitmap = Bitmap(width: nat, height: nat, rows: seq<seq<Pixel>>)

  predicate WellFormed(b: Bitmap) {
    |b.rows| == b.height && forall y :: 0 <= y < b.height ==> |b.rows[y]| == b.width
  }

  /** A bitmap whose rows all have the stated width. */
  type Image = b: Bitmap | WellFormed(b) witness Bitmap(0, 0, [])

  /** The pixel at column x, row y; outside the image there is nothing to copy, so transparency. */
  function At(img: Image, x: int, y: int): Pixel {
    if 0 <= x < img.width && 0 <= y < img.height then img.rows[y][x] else Transparent
  }

  /** The image the crop produces for rectangle r. */
  function Cropped(src: Image, r: Rect): (out: Image)
    ensures out.width == r.w && out.height == r.h
    ensures forall i, j :: 0 <= i < r.h && 0 <= j < r.w ==> out.rows[i][j] == At(src, r.x + j, r.y + i)
  {
    var rows := seq(r.h, i requires 0 <= i < r.h => seq(r.w, j requires 0 <= j < r.w => At(src, r.x + j, r.y + i)));
    assert forall i :: 0 <= i < r.h ==> |rows[i]| == r.w;
    Bitmap(r.w, r.h, rows)
  }

  /** Every pixel of the crop, read at its own coordinates, is the source pixel under the rectangle. */
  lemma CroppedPixels(src: Image, r: Rect, x: int, y: int)
    requires 0 <= x < r.w && 0 <= y < r.h
    ensures At(Cropped(src, r), x, y) == At(src, r.x + x, r.y + y)
  {
  }

  /** Cropping the whole image gives the image back. */
  lemma {:induction false} CropWholeIsIdentity(src: Image)
    ensures Cropped(src, Rect(0, 0, src.width, src.height)) == src
  {
    var c := Cropped(src, Rect(0, 0, src.width, src.height));
    forall i | 0 <= i < src.height ensures c.rows[i] == src.rows[i] {
      assert |c.rows[i]| == |src.rows[i]|;
    }
    assert c.rows == src.rows;
  }

  /** A crop of a crop is one crop of the source, at the summed offset. */
  lemma {:induction false} CropOfCrop(src: Image, outer: Rect, inner: Rect)
    requires 0 <= inner.x && inner.MaxX() <= outer.w
    requires 0 <= inner.y && inner.MaxY() <= outer.h
    ensures Cropped(Cropped(src, outer), inner) == Cropped(src, Rect(outer.x + inner.x, outer.y + inner.y, inner.w, inner.h))
  {
    var a := Cropped(Cropped(src, outer), inner);
    var b := Cropped(src, Rect(outer.x + inner.x, outer.y + inner.y, inner.w, inner.h));
    forall i | 0 <= i < inner.h ensures a.rows[i] == b.rows[i] {
      forall j | 0 <= j < inner.w ensures a.rows[i][j] == b.rows[i][j] {
        CroppedPixels(src, outer, inner.x + j, inner.y + i);
      }
    }
    assert a.rows == b.rows;
  }

  /**
   * The crop itself: allocate a transparent w x h buffer and copy into it,
   * row by row, the source pixels that the rectangle covers.
   */
  method Crop(src: Image, r: Rect) returns (out: Image)
    ensures out == Cropped(src, r)
  {
    var buf := new Pixel[r.h, r.w]((i, j) => Transparent);
    for i := 0 to r.h
      invariant forall y, x :: 0 <= y < i && 0 <= x < r.w ==> buf[y, x] == At(src, r.x + x, r.y + y)
      invariant forall y, x :: i <= y < r.h && 0 <= x < r.w ==> buf[y, x] == Transparent
    {
      for j := 0 to r.w
        invariant forall y, x :: 0 <= y < i && 0 <= x < r.w ==> buf[y, x] == At(src, r.x + x, r.y + y)
        invariant forall x :: 0 <= x < j ==> buf[i, x] == At(src, r.x + x, r.y + i)
        invariant forall y, x :: i <= y < r.h && 0 <= x < r.w && (y > i || x >= j) ==> buf[y, x] == Transparent
      {
        var sx, sy := r.x + j, r.y + i;
        if 0 <= sx < src.width && 0 <= sy < src.height {
          buf[i, j] := src.rows[sy][sx];
        }
      }
    }
    var rows := seq(r.h, i requires 0 <= i < r.h reads buf => seq(r.w, j requires 0 <= j < r.w reads buf => buf[i, j]));
    ghost var spec := Cropped(src, r);
    forall i | 0 <= i < r.h ensures rows[i] == spec.rows[i] {
      assert |rows[i]| == |spec.rows[i]|;
    }
    out := Bitmap(r.w, r.h, rows);
    assert out.rows == spec.rows;
  }
}
