# Palette sprites in Dafny

A model of the palette sprite extension for a 2D game engine (`pal-sprite.ts`).
A `PaletteSprite` keeps a remap table: palette index `c` of the sprite's image
is drawn as `table[c]`. So one image can be drawn in several colour variants.
The model covers two parts:

- **Table maintenance** (module `Sprites`, `sprites.dfy`). `PaletteSprite` is a
  class whose `table: array<int>` field is the source's `map` (`map` is a Dafny
  keyword). `SetPaletteMap` installs a sanitised copy of a caller's array:
  slot 0 forced to 0, slots up to 15 padded with the identity value, and
  negative values in slots 0..15 reset to the identity value.
  `SetPaletteMapColor` patches one slot, guarded by 1..15 on both arguments.
  The constructor starts from `SetPaletteMap` of an empty array. The pure
  functions `Sanitized` and `MapColor` give the table each method leaves
  behind. The methods are proved to produce exactly those tables. The
  invariant `WellFormed` (at least 16 slots, slot 0 is 0, slots 0..15 not
  negative) is the class invariant `Valid()`.
- **The palette-mapped blit** (module `Images`, `image.dfy`).
  `DrawPaletteMappedImage` walks the source row by row, y outer and x inner. It
  looks each pixel up in the table and writes the result at
  `(x + left, y + top)`, unless the result is 0 and `transparent` is set. Images
  are `array2<int>` indexed `[y, x]`. The method is proved to leave the
  destination equal to `Blit` of its old contents. `Blit` is a pure function on
  grids (`seq<seq<int>>`), and the lemmas about it state the drawing rules.
  `PaletteSprite.DrawCore` is the call at the end of `__drawCore`: the sprite's
  image drawn onto the screen with transparency on.

Modelling choices:
- `Image.setPixel` belongs to the engine. Here it is `Images.SetPixel`, which
  ignores a write outside the image. So source pixels that land off the
  destination are dropped, and the blit needs no precondition on `left`/`top`.
- A source pixel must index into the table (`0 <= pixel < |table|`). In the
  source, an index past the end reads `undefined`. The model requires this
  rather than modelling `undefined`.
- The table is not cut to 16 slots. A longer input keeps its full length,
  and slots 16 and above are copied unchanged, negative values included
  (pal-sprite.ts:12,17-19). Source pixels only need to index the table; they
  are not limited to 0..15.

## Model

| member | source | states |
|---|---|---|
| Sprites.PadIdentity | pal-sprite.ts:14-16 | the first loop leaves a table of length max(16, n) that keeps the first n slots and holds `i` in each padded slot `i` |
| Sprites.Sanitized | pal-sprite.ts:11-20 | the table `setPaletteMap(m)` installs has length max(16, \|m\|). Slot 0 is 0. Slot i in 1..15 is m[i] when m has a non-negative value there, and i otherwise. Slots 16 and above are copied from m unchanged. The result is well-formed |
| Sprites.SanitizedFixedPoints | pal-sprite.ts:11-20 | sanitising leaves a table unchanged exactly when the table is well-formed (both directions) |
| Sprites.SanitizedIdempotent | pal-sprite.ts:11-20 | re-applying `setPaletteMap` to its own output changes nothing |
| Sprites.EmptySanitizesToIdentity | pal-sprite.ts:8 | a new sprite's table, `setPaletteMap([])`, is the identity on 16 slots |
| Sprites.MapColorOutOfRange | pal-sprite.ts:31 | `setPaletteMapColor` with either argument outside 1..15 leaves the table unchanged |
| Sprites.MapColorKeepsTransparency | pal-sprite.ts:31-32 | slot 0 is never changed by `setPaletteMapColor`, whatever its arguments |
| Sprites.MapColorInRange | pal-sprite.ts:31-32 | with both arguments in 1..15, slot src becomes dst, and every other slot and the length stay as they were |
| Sprites.MapColorChanges | pal-sprite.ts:30-33 | the table changes exactly when both arguments pass the guard and slot src did not already hold dst |
| Sprites.MapColorPreservesWellFormed | pal-sprite.ts:30-33 | `setPaletteMapColor` keeps the invariant: at least 16 slots, slot 0 is 0, slots 0..15 not negative |
| Sprites.DrawSkipsTransparentKey | pal-sprite.ts:44 | drawing a sprite (well-formed table, transparency on) never changes the screen under a raw-0 image pixel |
| Sprites.ExampleIdentityTransparent | pal-sprite.ts:86-96 | a 2x2 image [[0,3],[5,0]] drawn through the identity table onto all-9 gives [[9,3],[5,9]] |
| Sprites.ExampleRemapToZero | pal-sprite.ts:11-20 | the table installed from [0,1,2,3,4,0] maps 5 to 0, and the same blit through it gives [[9,3],[9,9]] |
| Sprites.ExampleOpaque | pal-sprite.ts:86-96 | with transparency off, the mapped image replaces the screen, zeros included |
| Sprites.ExampleOffset | pal-sprite.ts:86-96 | with left 10 and top 5, the image's (0,0) pixel lands at screen (10,5) |
| Sprites.PaletteSprite.constructor | pal-sprite.ts:6-9 | a new sprite holds its image and a fresh identity table of 16 slots |
| Sprites.PaletteSprite.SetPaletteMap | pal-sprite.ts:11-20 | the table becomes a fresh array equal to `Sanitized(m)`. The caller's array is not changed and not shared. The invariant holds afterwards |
| Sprites.PaletteSprite.SetPaletteMapColor | pal-sprite.ts:30-33 | the table is patched in place to `MapColor(old table, src, dst)` and stays well-formed |
| Sprites.PaletteSprite.DrawCore | pal-sprite.ts:44 | the screen becomes `Blit` of its old contents with the sprite's image and table, transparency on |
| Images.SetPixel | pal-sprite.ts:92 | the engine's `setPixel` call: only pixel (x, y) may change, and it takes the written colour; a write outside the image changes nothing |
| Images.BlitAtSource | pal-sprite.ts:88-95 | for each source pixel (x,y), destination (x+left, y+top) gets `table[src(x,y)]` when that is non-zero or transparency is off, and keeps its old value otherwise |
| Images.BlitOutsideUnchanged | pal-sprite.ts:88-95 | no destination pixel outside the source rectangle moved to (left, top) changes |
| Images.BlitSkipsTransparent | pal-sprite.ts:90-92 | with transparency on, a pixel whose remapped value is 0 leaves the destination alone, even if its raw index is non-zero. So does a raw 0 when table[0] is 0 |
| Images.BlitOpaqueOverwrites | pal-sprite.ts:90-92 | with transparency off, every covered destination pixel takes the remapped source value |
| Images.BlitWritesOnlyTableColors | pal-sprite.ts:90-92 | every destination pixel after the blit either kept its value or holds a value from the table |
| Images.DrawPaletteMappedImage | pal-sprite.ts:86-96 | the nested y/x loops leave the destination equal to `Blit` of its old contents. The source and the table are not modified |

## Left out

- `__drawCore`'s camera handling (pal-sprite.ts:36-42): the off-screen test, the camera-relative flag, the draw offset and `Math.floor` on fractional positions. These belong to the engine and involve floating point. `DrawCore` takes the integer `left`/`top` they produce.
- `createPaletteSprite` and `__createPaletteSprite` (pal-sprite.ts:58-82): scene lookup, physics registration and created-handler dispatch are engine glue.
- The `//%` block-editor annotations: editor metadata with no behaviour.
- The `Sprite` base class and the engine's `Image` type are not part of this model. `Image` is a two-dimensional integer array. `setPixel` ignores out-of-range writes, which is the engine's behaviour for out-of-range writes.
- Images.DrawPaletteMappedImage: requires the destination and the source to be different images. With the same image for both, later reads would see earlier writes. The engine draws a sprite's image onto the screen, which is a different image.
- Sprites.PaletteSprite.DrawCore: requires the screen and the sprite's image to be different images, for the same reason as Images.DrawPaletteMappedImage. With the same image for both, later reads would see earlier writes.
- Images.DrawPaletteMappedImage: requires every source pixel to index into the table. A pixel past the end reads `undefined` in the source, and the model does not cover that case.
- JavaScript numbers are doubles. The model uses unbounded integers for colours, table values and coordinates. So it does not cover fractional arguments such as `setPaletteMapColor(1.5, 2)`, or non-integer values in a caller's table.
