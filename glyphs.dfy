/** The glyph record the atlas hands to text layout (gfx.hh). */
module Glyphs {
  import opened Ints

  /** MAXWIDTH: the page side length that bitmap sizes are divided by to
      obtain texture-coordinate extents. */
  const MaxWidth: real := 1024.0

  /** One cached glyph: the texture page holding it, whether it was
      rasterised, its pen advance, bitmap size, bearing and the top-left
      corner of its bitmap within the page in texture coordinates. */
  datatype Glyph = Glyph(
    texture: uint32,
    rendered: bool,
    advanceX: real,
    advanceY: real,
    bitmapW: uint32,
    bitmapH: uint32,
    bitmapLeft: real,
    bitmapTop: real,
    texOffsetX: real,
    texOffsetY: real)
}
