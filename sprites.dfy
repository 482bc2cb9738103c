/**
 * The `sprites` namespace of the palette sprite extension: `PaletteSprite`,
 * a sprite that keeps a palette remap table and draws its image through it.
 *
 * The source calls the table `map`; `map` is a Dafny keyword, so here it is
 * `table`. The pure functions below give the table each operation leaves
 * behind; the class's methods are proved to produce exactly that table.
 */
module Sprites {
  import Images

  /** The palette slots the sanitiser looks after are 0 .. Slots - 1. */
  const Slots := 16

  /**
   * The shape of every table a sprite holds: at least 16 slots, slot 0
   * (transparency) maps to 0, and slots 0..15 hold no negative value. Slots
   * from 16 on are whatever the caller supplied.
   */
  predicate WellFormed(t: seq<int>)
  {
    |t| >= Slots && t[0] == 0 && forall i :: 0 <= i < Slots ==> t[i] >= 0
  }

  /** The identity mapping of the 16 palette slots. */
  function Identity(): seq<int>
  {
    seq(Slots, i => i)
  }

  /**
   * Step one of `setPaletteMap` after the copy: slot 0 is set to 0, which on
   * an empty array appends that slot.
   */
  function ForceTransparent(s: seq<int>): seq<int>
  {
    if |s| == 0 then [0] else s[0 := 0]
  }

  /**
   * Step two, the first loop: every slot from the current length up to 15 is
   * filled with its identity value; a table already 16 long is left alone.
   */
  function PadIdentity(s: seq<int>): (r: seq<int>)
    ensures |r| == if |s| < Slots then Slots else |s|
    ensures forall i :: 0 <= i < |s| ==> r[i] == s[i]
    ensures forall i :: |s| <= i < Slots ==> r[i] == i
    decreases Slots - |s|
  {
    if |s| >= Slots then s else PadIdentity(s + [|s|])
  }

  /** Step three, the second loop: a negative value in slots 0..15 is reset to the identity value. */
  function ClearNegatives(s: seq<int>): seq<int>
  {
    seq(|s|, i requires 0 <= i < |s| => if i < Slots && s[i] < 0 then i else s[i])
  }

  /**
   * The table `setPaletteMap(m)` installs, slot by slot: it is as long as `m`
   * but at least 16; slot 0 is 0; slot i in 1..15 keeps m[i] when `m` has a
   * non-negative value there and is i otherwise; slots from 16 on are copied
   * from `m` as they are, negative values included.
   */
  function Sanitized(m: seq<int>): (r: seq<int>)
    ensures |r| == if |m| < Slots then Slots else |m|
    ensures r[0] == 0
    ensures forall i :: 1 <= i < Slots ==> r[i] == if i < |m| && m[i] >= 0 then m[i] else i
    ensures forall i :: Slots <= i < |r| ==> r[i] == m[i]
    ensures WellFormed(r)
  {
    ClearNegatives(PadIdentity(ForceTransparent(m)))
  }

  /** The tables `setPaletteMap` leaves unchanged are exactly the well-formed ones. */
  lemma SanitizedFixedPoints(t: seq<int>)
    ensures Sanitized(t) == t <==> WellFormed(t)
  {
    if WellFormed(t) {
      var r := Sanitized(t);
      forall i | 0 <= i < |t|
        ensures r[i] == t[i]
      {
      }
    }
  }

  /** Sanitising is idempotent: feeding a sprite's table back to `setPaletteMap` changes nothing. */
  lemma SanitizedIdempotent(m: seq<int>)
    ensures Sanitized(Sanitized(m)) == Sanitized(m)
  {
    SanitizedFixedPoints(Sanitized(m));
  }

  /** The table of a new sprite, `setPaletteMap([])`, is the identity on 16 slots. */
  lemma EmptySanitizesToIdentity()
    ensures Sanitized([]) == Identity()
  {
    var r := Sanitized([]);
    forall i | 0 <= i < Slots
      ensures r[i] == Identity()[i]
    {
    }
  }

  /** Whether a colour passes the guard of `setPaletteMapColor`. */
  predicate Remappable(c: int)
  {
    1 <= c <= 15
  }

  /** The table `setPaletteMapColor(src, dst)` leaves behind. */
  function MapColor(t: seq<int>, src: int, dst: int): seq<int>
    requires |t| >= Slots
  {
    if Remappable(src) && Remappable(dst) then t[src := dst] else t
  }

  /**
   * Out of range, `setPaletteMapColor` does nothing: a source or destination
   * colour outside 1..15 leaves the table as it was, so slot 0 can never be
   * remapped through it.
   */
  lemma MapColorOutOfRange(t: seq<int>, src: int, dst: int)
    requires |t| >= Slots
    requires !Remappable(src) || !Remappable(dst)
    ensures MapColor(t, src, dst) == t
  {
  }

  /** Slot 0 is never changed by `setPaletteMapColor`, whatever the arguments. */
  lemma MapColorKeepsTransparency(t: seq<int>, src: int, dst: int)
    requires |t| >= Slots
    ensures MapColor(t, src, dst)[0] == t[0]
  {
  }

  /** In range, `setPaletteMapColor(src, dst)` sets slot src to dst and changes no other slot nor the length. */
  lemma MapColorInRange(t: seq<int>, src: int, dst: int)
    requires |t| >= Slots
    requires Remappable(src) && Remappable(dst)
    ensures var r := MapColor(t, src, dst);
      |r| == |t| && r[src] == dst && forall i :: 0 <= i < |t| && i != src ==> r[i] == t[i]
  {
  }

  /** The table changes exactly when both colours pass the guard and slot src did not already hold dst. */
  lemma MapColorChanges(t: seq<int>, src: int, dst: int)
    requires |t| >= Slots
    ensures MapColor(t, src, dst) != t <==> Remappable(src) && Remappable(dst) && t[src] != dst
  {
    if Remappable(src) && Remappable(dst) && t[src] != dst {
      assert MapColor(t, src, dst)[src] != t[src];
    }
  }

  /** `setPaletteMapColor` keeps a table well-formed. */
  lemma MapColorPreservesWellFormed(t: seq<int>, src: int, dst: int)
    requires WellFormed(t)
    ensures WellFormed(MapColor(t, src, dst))
  {
  }

  /**
   * With a well-formed table and transparency on, as the sprite draws, a
   * raw 0 in the sprite's image never changes the screen.
   */
  lemma DrawSkipsTransparentKey(screen: Images.Grid, img: Images.Grid, t: seq<int>, left: int, top: int, x: int, y: int)
    requires WellFormed(t) && Images.IndexesTable(img, t)
    requires 0 <= y < |img| && 0 <= x < |img[y]| && img[y][x] == 0
    requires 0 <= y + top < |screen| && 0 <= x + left < |screen[y + top]|
    ensures Images.Blit(screen, img, t, left, top, true)[y + top][x + left] == screen[y + top][x + left]
  {
    Images.BlitSkipsTransparent(screen, img, t, left, top, x, y);
  }

  /** A 2x2 image with raw colours 0 and 3 on top, 5 and 0 below. */
  function Sample(): Images.Grid
  {
    [[0, 3], [5, 0]]
  }

  /** A 2x2 screen filled with colour 9. */
  function Nines(): Images.Grid
  {
    [[9, 9], [9, 9]]
  }

  /** Drawn through a new sprite's table, raw 0 pixels let the screen show through. */
  lemma ExampleIdentityTransparent()
    ensures Images.IndexesTable(Sample(), Identity())
    ensures Images.Blit(Nines(), Sample(), Identity(), 0, 0, true) == [[9, 3], [5, 9]]
  {
    var r := Images.Blit(Nines(), Sample(), Identity(), 0, 0, true);
    assert r[0] == [9, 3];
    assert r[1] == [5, 9];
  }

  /**
   * A table that sends 5 to 0 (which only `setPaletteMap` can install, since
   * `setPaletteMapColor` refuses 0) makes the raw 5 pixel see-through too.
   */
  lemma ExampleRemapToZero()
    ensures Sanitized([0, 1, 2, 3, 4, 0])[5] == 0
    ensures Images.IndexesTable(Sample(), Sanitized([0, 1, 2, 3, 4, 0]))
    ensures Images.Blit(Nines(), Sample(), Sanitized([0, 1, 2, 3, 4, 0]), 0, 0, true) == [[9, 3], [9, 9]]
  {
    var t := Sanitized([0, 1, 2, 3, 4, 0]);
    var r := Images.Blit(Nines(), Sample(), t, 0, 0, true);
    assert t[3] == 3;
    assert r[0] == [9, 3];
    assert r[1] == [9, 9];
  }

  /** Without transparency the mapped image replaces the screen outright. */
  lemma ExampleOpaque()
    ensures Images.IndexesTable(Sample(), Identity())
    ensures Images.Blit(Nines(), Sample(), Identity(), 0, 0, false) == Sample()
  {
    var r := Images.Blit(Nines(), Sample(), Identity(), 0, 0, false);
    assert r[0] == [0, 3];
    assert r[1] == [5, 0];
  }

  /** The image's (0, 0) pixel lands on the screen at (left, top). */
  lemma ExampleOffset(screen: Images.Grid)
    requires |screen| > 5 && |screen[5]| > 10
    ensures Images.IndexesTable([[7]], Identity())
    ensures Images.Blit(screen, [[7]], Identity(), 10, 5, true)[5][10] == 7
  {
    Images.BlitAtSource(screen, [[7]], Identity(), 10, 5, true, 0, 0);
  }

  /** A sprite whose image is drawn through a remap table. */
  class PaletteSprite {
    /** The sprite's own image, held by the engine's sprite base class. */
    const image: array2<int>
    /** The remap table: colour c of the image is drawn as table[c]. */
    var table: array<int>

    /** The table is always well-formed. */
    ghost predicate Valid()
      reads this, table
    {
      WellFormed(table[..])
    }

    /** A new sprite starts from `setPaletteMap([])`: the identity table. */
    constructor (img: array2<int>)
      ensures image == img && fresh(table)
      ensures table[..] == Identity()
      ensures Valid()
    {
      image := img;
      table := new int[0];
      new;
      var empty := new int[0];
      SetPaletteMap(empty);
      EmptySanitizesToIdentity();
    }

    /**
     * `setPaletteMap(m)`: installs a fresh copy of `m`, with slot 0 forced to
     * 0, slots up to 15 padded with their identity value and negative values
     * in slots 0..15 reset to their identity value. `m` itself is neither
     * changed (it is not in the frame) nor shared.
     */
    method SetPaletteMap(m: array<int>)
      modifies this
      ensures fresh(table) && unchanged(m)
      ensures table[..] == Sanitized(m[..])
      ensures Valid()
    {
      ghost var padded := PadIdentity(ForceTransparent(m[..]));
      var len := m.Length;
      var t := new int[if len < Slots then Slots else len];
      // the copy taken by slice()
      forall i | 0 <= i < len {
        t[i] := m[i];
      }
      t[0] := 0;
      if len == 0 {
        // writing slot 0 of an empty array makes it one long
        len := 1;
      }
      assert t[..len] == ForceTransparent(m[..]);
      var i := len;
      while i < Slots
        invariant len <= i <= t.Length == |padded|
        invariant forall k :: 0 <= k < i ==> t[k] == padded[k]
      {
        t[i] := i;
        i := i + 1;
      }
      i := 0;
      while i < Slots
        invariant 0 <= i <= Slots
        invariant forall k :: 0 <= k < t.Length ==>
          t[k] == if k < i && padded[k] < 0 then k else padded[k]
      {
        if t[i] < 0 {
          t[i] := i;
        }
        i := i + 1;
      }
      assert t[..] == ClearNegatives(padded);
      table := t;
    }

    /**
     * `setPaletteMapColor(src, dst)`: draws colour src as dst from now on;
     * does nothing unless both are in 1..15.
     */
    method SetPaletteMapColor(src: int, dst: int)
      requires Valid()
      modifies table
      ensures table[..] == MapColor(old(table[..]), src, dst)
      ensures Valid()
    {
      if src < 1 || src > 15 || dst < 1 || dst > 15 {
        return;
      }
      table[src] := dst;
      MapColorPreservesWellFormed(old(table[..]), src, dst);
    }

    /**
     * The blit at the end of `__drawCore`: the sprite's image drawn onto the
     * screen at the integer position (left, top), with colour 0 transparent.
     */
    method DrawCore(screen: array2<int>, left: int, top: int)
      requires Valid()
      requires screen != image
      requires forall y, x :: 0 <= y < image.Length0 && 0 <= x < image.Length1 ==> 0 <= image[y, x] < table.Length
      modifies screen
      ensures Images.IndexesTable(Images.Rows(image), table[..])
      ensures Images.Rows(screen) == Images.Blit(old(Images.Rows(screen)), Images.Rows(image), table[..], left, top, true)
    {
      Images.DrawPaletteMappedImage(screen, image, table[..], left, top, true);
    }
  }
}
