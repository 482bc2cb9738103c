/**
 * The `image` namespace of the palette sprite extension: the palette-mapped
 * blit `drawPaletteMappedImage`.
 *
 * An image is a two-dimensional array of palette indices indexed [y, x]:
 * `Length0` is its height and `Length1` its width. The pure specification
 * works on the same picture read out as rows, a `Grid` with `g[y][x]`.
 */
module Images {

  /** A picture as rows of palette indices: `g[y][x]` is the pixel at (x, y). */
  type Grid = seq<seq<int>>

  /** The rows of an image array. */
  function Rows(a: array2<int>): (g: Grid)
    reads a
    ensures |g| == a.Length0
    ensures forall y :: 0 <= y < |g| ==> |g[y]| == a.Length1
    ensures forall y, x :: 0 <= y < a.Length0 && 0 <= x < a.Length1 ==> g[y][x] == a[y, x]
  {
    seq(a.Length0, y requires 0 <= y < a.Length0 reads a =>
      seq(a.Length1, x requires 0 <= x < a.Length1 reads a => a[y, x]))
  }

  /**
   * Every pixel of `src` is an index into `table`. A pixel past the end of the
   * table would make the lookup yield `undefined`; callers rule that out.
   */
  predicate IndexesTable(src: Grid, table: seq<int>)
  {
    forall y, x :: 0 <= y < |src| && 0 <= x < |src[y]| ==> 0 <= src[y][x] < |table|
  }

  /**
   * Whether a remapped colour is written. The transparency test looks at the
   * colour AFTER remapping: only a remapped 0 is see-through, and only when
   * `transparent` is set.
   */
  predicate Drawn(color: int, transparent: bool)
  {
    color != 0 || !transparent
  }

  /** What a destination pixel holding `under` holds once source pixel `raw` is composited onto it. */
  function Composite(under: int, raw: int, table: seq<int>, transparent: bool): int
    requires 0 <= raw < |table|
  {
    if Drawn(table[raw], transparent) then table[raw] else under
  }

  /** Whether destination pixel (x, y) lies in the source rectangle moved to (left, top). */
  predicate Covers(src: Grid, left: int, top: int, x: int, y: int)
  {
    0 <= y - top < |src| && 0 <= x - left < |src[y - top]|
  }

  /**
   * The destination after the blit, pixel by pixel: a covered pixel is the
   * composite of what it held and the source pixel that lands on it; every
   * other pixel keeps its value. Source pixels that land outside the
   * destination are dropped.
   */
  function Blit(dst: Grid, src: Grid, table: seq<int>, left: int, top: int, transparent: bool): (r: Grid)
    requires IndexesTable(src, table)
    ensures |r| == |dst|
    ensures forall y :: 0 <= y < |r| ==> |r[y]| == |dst[y]|
  {
    seq(|dst|, y requires 0 <= y < |dst| =>
      seq(|dst[y]|, x requires 0 <= x < |dst[y]| =>
        if Covers(src, left, top, x, y) then Composite(dst[y][x], src[y - top][x - left], table, transparent)
        else dst[y][x]))
  }

  /**
   * Seen from the source: source pixel (x, y) is looked up in the table, and
   * the destination pixel at (x + left, y + top) receives the looked-up colour
   * when it is drawn and keeps its old value otherwise.
   */
  lemma BlitAtSource(dst: Grid, src: Grid, table: seq<int>, left: int, top: int, transparent: bool, x: int, y: int)
    requires IndexesTable(src, table)
    requires 0 <= y < |src| && 0 <= x < |src[y]|
    requires 0 <= y + top < |dst| && 0 <= x + left < |dst[y + top]|
    ensures var color := table[src[y][x]];
      Blit(dst, src, table, left, top, transparent)[y + top][x + left]
      == if Drawn(color, transparent) then color else dst[y + top][x + left]
  {
    assert Covers(src, left, top, x + left, y + top);
  }

  /** No destination pixel outside the moved source rectangle changes. */
  lemma BlitOutsideUnchanged(dst: Grid, src: Grid, table: seq<int>, left: int, top: int, transparent: bool, x: int, y: int)
    requires IndexesTable(src, table)
    requires 0 <= y < |dst| && 0 <= x < |dst[y]|
    requires !Covers(src, left, top, x, y)
    ensures Blit(dst, src, table, left, top, transparent)[y][x] == dst[y][x]
  {
  }

  /**
   * With transparency on, a source pixel whose remapped colour is 0 leaves the
   * destination alone, whatever its raw index; in particular a raw 0 is never
   * drawn while the table keeps slot 0 at 0.
   */
  lemma BlitSkipsTransparent(dst: Grid, src: Grid, table: seq<int>, left: int, top: int, x: int, y: int)
    requires IndexesTable(src, table)
    requires 0 <= y < |src| && 0 <= x < |src[y]|
    requires 0 <= y + top < |dst| && 0 <= x + left < |dst[y + top]|
    requires table[src[y][x]] == 0 || (src[y][x] == 0 && table[0] == 0)
    ensures Blit(dst, src, table, left, top, true)[y + top][x + left] == dst[y + top][x + left]
  {
    BlitAtSource(dst, src, table, left, top, true, x, y);
  }

  /** With transparency off, every covered destination pixel is overwritten by the remapped source. */
  lemma BlitOpaqueOverwrites(dst: Grid, src: Grid, table: seq<int>, left: int, top: int, x: int, y: int)
    requires IndexesTable(src, table)
    requires 0 <= y < |src| && 0 <= x < |src[y]|
    requires 0 <= y + top < |dst| && 0 <= x + left < |dst[y + top]|
    ensures Blit(dst, src, table, left, top, false)[y + top][x + left] == table[src[y][x]]
  {
    BlitAtSource(dst, src, table, left, top, false, x, y);
  }

  /**
   * Only the remap table decides colours: every destination pixel after the
   * blit either kept its value or holds a value of the table.
   */
  lemma BlitWritesOnlyTableColors(dst: Grid, src: Grid, table: seq<int>, left: int, top: int, transparent: bool, x: int, y: int)
    requires IndexesTable(src, table)
    requires 0 <= y < |dst| && 0 <= x < |dst[y]|
    ensures var r := Blit(dst, src, table, left, top, transparent);
      r[y][x] == dst[y][x] || r[y][x] in table
  {
    if Covers(src, left, top, x, y) {
      var raw := src[y - top][x - left];
      assert table[raw] in table;
    }
  }

  /** `Image.setPixel`: a write outside the image is ignored. */
  method SetPixel(img: array2<int>, x: int, y: int, c: int)
    modifies img
    ensures forall j, i :: 0 <= j < img.Length0 && 0 <= i < img.Length1 ==>
      img[j, i] == if j == y && i == x then c else old(img[j, i])
  {
    if 0 <= y < img.Length0 && 0 <= x < img.Length1 {
      img[y, x] := c;
    }
  }

  /**
   * `drawPaletteMappedImage`: walks the source row by row (y outer, x inner),
   * looks every pixel up in `table` and writes the looked-up colour at
   * (x + left, y + top) unless it is 0 and `transparent` is set. The
   * destination ends up as `Blit` of its old contents; the source and the
   * table are not touched.
   */
  method DrawPaletteMappedImage(dst: array2<int>, src: array2<int>, table: seq<int>, left: int, top: int, transparent: bool)
    requires dst != src
    requires forall y, x :: 0 <= y < src.Length0 && 0 <= x < src.Length1 ==> 0 <= src[y, x] < |table|
    modifies dst
    ensures IndexesTable(Rows(src), table)
    ensures Rows(dst) == Blit(old(Rows(dst)), Rows(src), table, left, top, transparent)
  {
    var y := 0;
    while y < src.Length0
      invariant 0 <= y <= src.Length0
      invariant forall j, i :: 0 <= j < dst.Length0 && 0 <= i < dst.Length1 ==>
        dst[j, i] == if 0 <= j - top < y && 0 <= i - left < src.Length1
                     then Composite(old(dst[j, i]), src[j - top, i - left], table, transparent)
                     else old(dst[j, i])
    {
      var x := 0;
      while x < src.Length1
        invariant 0 <= x <= src.Length1
        invariant forall j, i :: 0 <= j < dst.Length0 && 0 <= i < dst.Length1 ==>
          dst[j, i] == if (0 <= j - top < y && 0 <= i - left < src.Length1) || (j - top == y && 0 <= i - left < x)
                       then Composite(old(dst[j, i]), src[j - top, i - left], table, transparent)
                       else old(dst[j, i])
      {
        var color := table[src[y, x]];
        if color != 0 || !transparent {
          SetPixel(dst, x + left, y + top, color);
        }
        x := x + 1;
      }
      y := y + 1;
    }
    ghost var before := old(Rows(dst));
    ghost var after := Blit(before, Rows(src), table, left, top, transparent);
    forall j | 0 <= j < dst.Length0
      ensures Rows(dst)[j] == after[j]
    {
      forall i | 0 <= i < dst.Length1
        ensures Rows(dst)[j][i] == after[j][i]
      {
        assert before[j][i] == old(dst[j, i]);
      }
    }
  }
}
