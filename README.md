# livo: text layout and character grid, modelled in Dafny

livo is a prototype terminal-style text renderer. This project models two
parts of it:

- **Text layout / quad generation** (`gfx::render_text`). A NUL-terminated
  byte string is walked one byte at a time, and each byte is a codepoint.
  For each codepoint the glyph atlas is queried. The glyph's screen
  rectangle is computed from the pen, its bearing, its bitmap size and the
  scale. The pen then advances by the scaled advance. Glyphs whose scaled
  width or height is zero are skipped. Any other glyph is drawn as two
  triangles (six vertices), with texture coordinates running from the
  glyph's texture offset over its bitmap size divided by `MAXWIDTH` (1024).
- **The character-cell grid** (`matrix`). It is constructed empty and given
  character sizes. `set_size` allocates `size_cells_y` rows of
  `size_cells_x` cells, each holding `'A'`, after releasing the first
  `size_cells_y` rows of the previous table (see Findings).

Modules, one per source file, plus `Ints` for the fixed-width types:

- `Ints` (`ints.dfy`): `uint8` and `uint32` as subset types of `int`.
- `Glyphs` (`glyphs.dfy`): the `glyph` record and `MAXWIDTH` from gfx.hh.
- `TextLayout` (`text_layout.dfy`): `render_text`. The method `RenderText`
  is a loop over the string whose loop body is `DrawGlyph`. `DrawGlyph`
  fills the six-vertex buffer in `FillQuad`. `RenderText` is proved against
  the reference function `Render`, and lemmas about `Render` give the final
  pen, the number of quads, where each quad sits, and the shape of each quad.
- `CellGrid` (`cell_grid.dfy`): `cell` and the class `Matrix`, with the
  fields matrix.cc assigns. Memory cannot be freed in Dafny, so ghost
  counters record how many row arrays were allocated, released or lost.
  `Accounted()` says every allocated row is released, lost, or still in the
  live table. `Valid()` adds that the table has `size_cells_y` rows of
  `size_cells_x` cells.

External inputs become parameters:

- The atlas lookup `atlas::query` is a parameter `query: uint8 -> Glyph`: any
  total function from codepoint to glyph record.
- The GL draw of each quad becomes appending `Quad(texture, vertices)` to the
  output `draws`. The codepoints passed to `query` are returned in `queried`,
  in call order.
- The final pen is a local in the source. `RenderText` returns it so it can
  be stated.

Details of the code the model keeps:

- `render_text` never reads `glyph::rendered`. A glyph is skipped only when
  its scaled bitmap width or height is zero, and its advance is applied
  whether or not it was rendered.
- Texture coordinates divide by `MAXWIDTH` = 1024 (gfx.hh:29), the only page
  side this code knows.
- matrix.cc uses fields (`size_cells_*`, `size_px_*`, `char_size_*`) and a
  method (`tell_character_sizes`) that matrix.hh at this revision does not
  declare. The model follows matrix.cc.

## Model

| member | source | states |
|---|---|---|
| `TextLayout.FirstNul` | gfx.cc:159 | the loop's stopping index is the first NUL byte: it is in range, holds 0, and no earlier byte is 0 |
| `TextLayout.RenderText` | gfx.cc:154-206 | the bytes queried are exactly the bytes before the first NUL, in order and once each; the quads drawn and the final pen are those of the reference layout `Render` of that string from the start pen |
| `TextLayout.DrawGlyph` | gfx.cc:160-204 | for one glyph the pen moves by (advance_x*sx, advance_y*sy) whether or not anything is drawn; what is drawn is the glyph's quad at the pen before the move if scaled width and height are both nonzero, and nothing otherwise |
| `TextLayout.FillQuad` | gfx.cc:181-199 | the six-vertex buffer is a rectangle (vertex 3 = vertex 1, vertex 4 = vertex 2, axis-aligned edges) with top-left corner (x2, -y2), width w and height h; its texture coordinates start at the glyph's texture offset and span bitmap_w/1024 by bitmap_h/1024; it is drawn with the glyph's texture |
| `TextLayout.GlyphQuad` | gfx.cc:168-199 | a glyph's quad is a rectangle bound to the glyph's texture, with left edge pen.x + bitmap_left*sx, top edge pen.y + bitmap_top*sy (that is, -y2), width bitmap_w*sx, height bitmap_h*sy, texture origin the texture offset and texture extent bitmap size / 1024 |
| `TextLayout.RectangleDetermined` | gfx.cc:188-199 | two six-vertex rectangles with the same texture, corner, size and texture frame are equal, so the buffer filled by the loop is the reference quad |
| `TextLayout.RenderPen` | gfx.cc:173-175 | over a whole string the final pen equals the start pen plus the left-to-right sum of scaled advances of every processed glyph, including glyphs without pixels |
| `TextLayout.RenderCount` | gfx.cc:170-179 | the number of quads equals the number of codepoints whose glyph has nonzero scaled width and height |
| `TextLayout.RenderAppend` | gfx.cc:159-205 | laying out a + b equals laying out a, then b from the pen a ends at, with the quads concatenated in order |
| `TextLayout.RenderOne` | gfx.cc:173-179 | for one codepoint the pen advances by the scaled advance; exactly one quad is emitted, at the pen before the advance, if the glyph has pixels, and none otherwise |
| `TextLayout.RenderQuadAt` | gfx.cc:159-199 | the glyph of the j-th codepoint, if it has pixels, is drawn as quad number k, where k counts the visible codepoints before it; it is placed with the pen at the start plus the advances of the first j codepoints |
| `TextLayout.RenderQuadsRectangles` | gfx.cc:165-202 | every emitted quad is a six-vertex rectangle bound to the texture of a visible glyph of the string |
| `CellGrid.Matrix.constructor` | matrix.cc:3-9 | every cell count, pixel size and character size is 0, and there is no row table |
| `CellGrid.Matrix.DeallocateData` | matrix.cc:16-24 | with no row table it changes nothing; otherwise it releases rows 0 .. size_cells_y-1, using the current field value, then the table, and the rows past size_cells_y are lost |
| `CellGrid.Matrix.Destroy` | matrix.cc:11-14 | from a valid grid the destructor releases every row of the table and loses none |
| `CellGrid.Matrix.TellCharacterSizes` | matrix.cc:26-30 | char_size_x and char_size_y become the arguments and nothing else changes |
| `CellGrid.Matrix.AllocateData` | matrix.cc:41-43 | the new table is fresh and has size_cells_y rows; each row is a fresh, distinct array of size_cells_x default cells holding 'A' |
| `CellGrid.Matrix.SetSize` | matrix.cc:32-46 | afterwards the cell counts are the arguments and the pixel sizes are cell counts times the stored character sizes; the table has size_cells_y fresh, distinct rows of size_cells_x cells holding 'A'. Because deallocate_data runs after size_cells_y is overwritten, it releases only new-count rows of the old table and loses the rest. A new count above the old row count is a precondition, since the source would read past the old table |
| `CellGrid.Matrix.SetSizeCorrected` | matrix.cc:32-46 | the same new state, for any new size, with every old row released and none lost |
| `CellGrid.ShrinkLeaksRow` | matrix.cc:21-22 | on a fresh grid, set_size(1, 2) then set_size(1, 1) allocates 3 rows, releases 1 and loses 1 |
| `CellGrid.ShrinkCorrectedReleasesAll` | matrix.cc:32-46 | the same resizes with the corrected set_size release 2 rows and lose none |

## Findings

| source | as written | input that shows it | evidently intended | confidence | as-written member | corrected member |
|---|---|---|---|---|---|---|
| matrix.cc:35-40 | `set_size` stores the new `size_cells_y` before calling `deallocate_data`, which then loops over the new row count instead of the old table's | `set_size(1, 2)` then `set_size(1, 1)`: row 1 of the first table is never deleted. `set_size(1, 1)` then `set_size(1, 2)`: `data[1]` is read past the end of a one-row table | release every row of the old table, then store the new size and allocate | high (not executed) | `CellGrid.Matrix.SetSize` (with `CellGrid.ShrinkLeaksRow`) | `CellGrid.Matrix.SetSizeCorrected` (with `CellGrid.ShrinkCorrectedReleasesAll`) |

## Left out

- The glyph atlas internals (memoisation, shelf packing, page allocation and growth): gfx.hh only declares `atlas::query`, `render_char` and `add_new_texture`, and their definitions are not part of this model. `query` is a parameter instead.
- Window, GLFW and GLEW setup, GL buffer wrappers, shader loading and program linking, FreeType initialisation, and the `gfx` constructor, destructor and `display` demo: these are library calls and I/O.
- The GL state calls inside `render_text` (enabling the vertex attribute, binding the buffer, uploading the buffer, drawing, disabling): one appended `Quad` stands for them. The texture bind for a skipped glyph has no effect on the output and is not modelled.
- IEEE single-precision rounding and `float`/`unsigned` conversions: coordinates, sizes and scales are `real`. The properties proved are structural and claim nothing about rounding.
- The string as a raw pointer: it is a `seq<uint8>` that must contain a NUL, as a C string must. Reading past the buffer cannot be expressed.
- Pen determinism across atlas states: `query` is a function here, so the layout of a string cannot depend on which glyphs were cached before. The caching itself is not modelled.
- `cell`'s `fg` and `bg` are left uninitialised by its constructor. The model gives them 0, and no contract mentions them.
- `size_px_*` has no declared type in matrix.hh. It is modelled as `real`, the product of an unsigned count and a float.
- Memory freeing in `deallocate_data`: ghost counters record rows allocated, released and lost. After deallocation the dangling pointer stays in `data`, as in the source, and the object is no longer `Valid()`.
- `CellGrid.Matrix.SetSize`: when the new row count exceeds the old table's, the source reads past the table's end (undefined behaviour). The model makes this case a precondition instead of giving it a meaning.
- `main.cc` (exception dispatch, the event loop, printing the grid) and `die` in utils.hh: process scaffolding.
