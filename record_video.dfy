/**
 * Padding of a recorded video frame so that both of its dimensions are
 * multiples of 16, by adding black pixels on the right and at the bottom.
 */
module RecordVideo {
  /** An image of `h` rows of `w` pixels with `c` channel values each. */
  datatype Frame = Frame(h: nat, w: nat, c: nat, px: seq<seq<seq<int>>>)

  /** The pixel array has exactly the shape the frame declares. */
  ghost predicate WellFormed(f: Frame)
  {
    && |f.px| == f.h
    && (forall i :: 0 <= i < f.h ==> |f.px[i]| == f.w)
    && (forall i, j :: 0 <= i < f.h && 0 <= j < f.w ==> |f.px[i][j]| == f.c)
  }

  /** The dimension both sides are padded to a multiple of. */
  const Block: nat := 16

  /** How many rows or columns to add so that `n` becomes a multiple of 16. */
  function PadAmount(n: nat): (p: nat)
    ensures p < Block && (n + p) % Block == 0
    ensures n % Block == 0 <==> p == 0
  {
    (Block - n % Block) % Block
  }

  /** `n` copies of `x`. */
  function Repeat<T>(x: T, n: nat): (r: seq<T>)
    ensures |r| == n
    ensures forall i :: 0 <= i < n ==> r[i] == x
  {
    if n == 0 then [] else [x] + Repeat(x, n - 1)
  }

  /** A black pixel of `c` channels. */
  function Black(c: nat): seq<int>
  {
    Repeat(0, c)
  }

  /** Every row extended by `k` black pixels on the right. */
  function PadRight(rows: seq<seq<seq<int>>>, k: nat, c: nat): (r: seq<seq<seq<int>>>)
    ensures |r| == |rows|
    ensures forall i :: 0 <= i < |rows| ==> r[i] == rows[i] + Repeat(Black(c), k)
  {
    if rows == [] then [] else [rows[0] + Repeat(Black(c), k)] + PadRight(rows[1..], k, c)
  }

  /**
   * The frame padded on the right and at the bottom with black pixels up to
   * the next multiples of 16; a frame already aligned is returned as it is.
   */
  function PadFrameTo16(f: Frame): (r: Frame)
    requires WellFormed(f)
    ensures WellFormed(r) && r.c == f.c
    ensures r.h == f.h + PadAmount(f.h) && r.w == f.w + PadAmount(f.w)
    ensures r.h % Block == 0 && r.w % Block == 0
    // the original pixels stay where they were, everything added is black
    ensures forall i, j :: 0 <= i < f.h && 0 <= j < f.w ==> r.px[i][j] == f.px[i][j]
    ensures forall i, j :: 0 <= i < r.h && 0 <= j < r.w && (f.h <= i || f.w <= j) ==> r.px[i][j] == Black(f.c)
    ensures f.h % Block == 0 && f.w % Block == 0 ==> r == f
  {
    var padH := PadAmount(f.h);
    var padW := PadAmount(f.w);
    if padH == 0 && padW == 0 then f
    else
      var rows := PadRight(f.px, padW, f.c) + Repeat(Repeat(Black(f.c), f.w + padW), padH);
      Frame(f.h + padH, f.w + padW, f.c, rows)
  }

  /** The top-left `h` by `w` corner of a frame. */
  function Crop(f: Frame, h: nat, w: nat): (r: Frame)
    requires WellFormed(f) && h <= f.h && w <= f.w
    ensures WellFormed(r) && r.h == h && r.w == w && r.c == f.c
    ensures forall i, j :: 0 <= i < h && 0 <= j < w ==> r.px[i][j] == f.px[i][j]
  {
    Frame(h, w, f.c, CropRows(f.px[..h], w))
  }

  /** Every row cut to its first `w` pixels. */
  function CropRows(rows: seq<seq<seq<int>>>, w: nat): (r: seq<seq<seq<int>>>)
    requires forall i :: 0 <= i < |rows| ==> w <= |rows[i]|
    ensures |r| == |rows|
    ensures forall i :: 0 <= i < |rows| ==> r[i] == rows[i][..w]
  {
    if rows == [] then [] else [rows[0][..w]] + CropRows(rows[1..], w)
  }

  /** Two well-formed frames of the same shape with the same pixels are equal. */
  lemma FrameExt(f: Frame, g: Frame)
    requires WellFormed(f) && WellFormed(g) && f.h == g.h && f.w == g.w && f.c == g.c
    requires forall i, j :: 0 <= i < f.h && 0 <= j < f.w ==> f.px[i][j] == g.px[i][j]
    ensures f == g
  {
    forall i | 0 <= i < f.h
      ensures f.px[i] == g.px[i]
    {
      assert forall j :: 0 <= j < f.w ==> f.px[i][j] == g.px[i][j];
    }
  }

  /** Cropping the padded frame back to the original size gives the original. */
  lemma CropUndoesPad(f: Frame)
    requires WellFormed(f)
    ensures Crop(PadFrameTo16(f), f.h, f.w) == f
  {
    var r := PadFrameTo16(f);
    FrameExt(Crop(r, f.h, f.w), f);
  }

  /** Padding twice is padding once. */
  lemma PadIdempotent(f: Frame)
    requires WellFormed(f)
    ensures PadFrameTo16(PadFrameTo16(f)) == PadFrameTo16(f)
  {
  }
}
