/** Text layout and quad generation: `gfx::render_text`.

    The string is a NUL-terminated byte string; every byte before the first
    NUL is a codepoint. For each one the atlas is queried for a glyph, the
    glyph's screen rectangle is computed from the pen, the pen advances, and
    a six-vertex quad is emitted unless the glyph has no pixels. The atlas
    query is a parameter (any total function from byte to glyph); the GL
    draw call becomes appending the quad, with the texture it is drawn
    with, to an output sequence. */
module TextLayout {
  import opened Ints
  import opened Glyphs

  /** The pen position, in the output coordinate space. */
  datatype Pen = Pen(x: real, y: real)

  /** One vertex: screen position (x, y) and texture coordinates (s, t). */
  datatype Vertex = Vertex(x: real, y: real, s: real, t: real)

  /** One draw: the texture bound while drawing and the vertex buffer. */
  datatype Quad = Quad(texture: uint32, coords: seq<Vertex>)

  /** Final pen and emitted quads of a layout. */
  datatype Rendered = Rendered(pen: Pen, quads: seq<Quad>)

  // ---------------------------------------------------------------------
  // The input string

  /** A C string: some byte of the buffer is the terminating NUL. */
  predicate NulTerminated(text: seq<uint8>)
  {
    0 in text
  }

  /** Index of the first NUL byte: the length of the C string. */
  function FirstNul(text: seq<uint8>): (n: nat)
    requires NulTerminated(text)
    ensures n < |text| && text[n] == 0
    ensures forall j :: 0 <= j < n ==> text[j] != 0
  {
    if text[0] == 0 then 0
    else
      assert 0 in text[1..] by {
        var k :| 0 <= k < |text| && text[k] == 0;
        assert text[1..][k - 1] == 0;
      }
      FirstNul(text[1..]) + 1
  }

  // ---------------------------------------------------------------------
  // One glyph

  /** The pen after a glyph's advance, scaled by (sx, sy). */
  function Advance(pen: Pen, g: Glyph, sx: real, sy: real): (p: Pen)
  {
    Pen(pen.x + g.advanceX * sx, pen.y + g.advanceY * sy)
  }

  /** Whether a glyph is drawn: its scaled width and height are nonzero. */
  predicate HasPixels(g: Glyph, sx: real, sy: real)
  {
    g.bitmapW as real * sx != 0.0 && g.bitmapH as real * sy != 0.0
  }

  /** An axis-aligned rectangle drawn as the two triangles (0, 1, 2) and
      (3, 4, 5) that share the diagonal from the top-right corner (vertices
      1 and 3) to the bottom-left corner (vertices 2 and 4). Vertex 0 is the
      top-left corner and vertex 5 the bottom-right one; texture coordinates
      are laid out along the same edges as positions. */
  predicate IsRectangle(q: Quad)
  {
    |q.coords| == 6 &&
    q.coords[3] == q.coords[1] && q.coords[4] == q.coords[2] &&
    q.coords[1].y == q.coords[0].y && q.coords[1].t == q.coords[0].t &&
    q.coords[2].x == q.coords[0].x && q.coords[2].s == q.coords[0].s &&
    q.coords[5].x == q.coords[1].x && q.coords[5].s == q.coords[1].s &&
    q.coords[5].y == q.coords[2].y && q.coords[5].t == q.coords[2].t
  }

  function Left(q: Quad): (v: real) requires IsRectangle(q) { q.coords[0].x }
  function Top(q: Quad): (v: real) requires IsRectangle(q) { q.coords[0].y }
  function Width(q: Quad): (v: real) requires IsRectangle(q) { q.coords[5].x - q.coords[0].x }
  function Height(q: Quad): (v: real) requires IsRectangle(q) { q.coords[0].y - q.coords[5].y }
  function TexLeft(q: Quad): (v: real) requires IsRectangle(q) { q.coords[0].s }
  function TexTop(q: Quad): (v: real) requires IsRectangle(q) { q.coords[0].t }
  function TexWidth(q: Quad): (v: real) requires IsRectangle(q) { q.coords[5].s - q.coords[0].s }
  function TexHeight(q: Quad): (v: real) requires IsRectangle(q) { q.coords[5].t - q.coords[0].t }

  /** The quad drawn for glyph g with the pen at `pen` (before its advance). */
  function GlyphQuad(g: Glyph, pen: Pen, sx: real, sy: real): (q: Quad)
    ensures IsRectangle(q) && q.texture == g.texture
    ensures Left(q) == pen.x + g.bitmapLeft * sx
    ensures Top(q) == pen.y + g.bitmapTop * sy
    ensures Width(q) == g.bitmapW as real * sx
    ensures Height(q) == g.bitmapH as real * sy
    ensures TexLeft(q) == g.texOffsetX && TexTop(q) == g.texOffsetY
    ensures TexWidth(q) == g.bitmapW as real / MaxWidth
    ensures TexHeight(q) == g.bitmapH as real / MaxWidth
  {
    var x2 := pen.x + g.bitmapLeft * sx;
    var y2 := -pen.y - g.bitmapTop * sy;
    var w := g.bitmapW as real * sx;
    var h := g.bitmapH as real * sy;
    var s0 := g.texOffsetX;
    var s1 := g.texOffsetX + g.bitmapW as real / MaxWidth;
    var t0 := g.texOffsetY;
    var t1 := g.texOffsetY + g.bitmapH as real / MaxWidth;
    Quad(g.texture, [
      Vertex(x2, -y2, s0, t0),
      Vertex(x2 + w, -y2, s1, t0),
      Vertex(x2, -y2 - h, s0, t1),
      Vertex(x2 + w, -y2, s1, t0),
      Vertex(x2, -y2 - h, s0, t1),
      Vertex(x2 + w, -y2 - h, s1, t1)])
  }

  /** What one glyph contributes to the output. */
  function Emitted(g: Glyph, pen: Pen, sx: real, sy: real): (qs: seq<Quad>)
  {
    if HasPixels(g, sx, sy) then [GlyphQuad(g, pen, sx, sy)] else []
  }

  // ---------------------------------------------------------------------
  // A whole string

  /** Reference layout of the codepoints cs, from pen `pen`: the glyph of
      cs[0] is placed at the pen, the pen advances, the rest follows. */
  function Render(cs: seq<uint8>, query: uint8 -> Glyph, pen: Pen, sx: real, sy: real): (r: Rendered)
  {
    if cs == [] then Rendered(pen, [])
    else
      var g := query(cs[0]);
      var rest := Render(cs[1..], query, Advance(pen, g, sx, sy), sx, sy);
      Rendered(rest.pen, Emitted(g, pen, sx, sy) + rest.quads)
  }

  /** Sum, left to right, of the scaled advances of the glyphs of cs. */
  function TotalAdvance(cs: seq<uint8>, query: uint8 -> Glyph, sx: real, sy: real): (p: Pen)
  {
    if cs == [] then Pen(0.0, 0.0)
    else
      var g := query(cs[0]);
      var rest := TotalAdvance(cs[1..], query, sx, sy);
      Pen(g.advanceX * sx + rest.x, g.advanceY * sy + rest.y)
  }

  /** Number of codepoints of cs whose glyph has pixels at scale (sx, sy). */
  function VisibleCount(cs: seq<uint8>, query: uint8 -> Glyph, sx: real, sy: real): (k: nat)
  {
    if cs == [] then 0
    else (if HasPixels(query(cs[0]), sx, sy) then 1 else 0) + VisibleCount(cs[1..], query, sx, sy)
  }

  /** The final pen is the start plus the sum of all scaled advances,
      visible glyphs or not. */
  lemma {:induction false} RenderPen(cs: seq<uint8>, query: uint8 -> Glyph, pen: Pen, sx: real, sy: real)
    ensures Render(cs, query, pen, sx, sy).pen
         == Pen(pen.x + TotalAdvance(cs, query, sx, sy).x, pen.y + TotalAdvance(cs, query, sx, sy).y)
  {
    if cs != [] {
      RenderPen(cs[1..], query, Advance(pen, query(cs[0]), sx, sy), sx, sy);
    }
  }

  /** One quad per codepoint whose glyph has pixels, and no other. */
  lemma {:induction false} RenderCount(cs: seq<uint8>, query: uint8 -> Glyph, pen: Pen, sx: real, sy: real)
    ensures |Render(cs, query, pen, sx, sy).quads| == VisibleCount(cs, query, sx, sy)
  {
    if cs != [] {
      RenderCount(cs[1..], query, Advance(pen, query(cs[0]), sx, sy), sx, sy);
    }
  }

  /** Laying out a + b is laying out a, then b from where a left the pen. */
  lemma {:induction false} RenderAppend(a: seq<uint8>, b: seq<uint8>, query: uint8 -> Glyph, pen: Pen, sx: real, sy: real)
    ensures var ra := Render(a, query, pen, sx, sy);
            var rb := Render(b, query, ra.pen, sx, sy);
            Render(a + b, query, pen, sx, sy) == Rendered(rb.pen, ra.quads + rb.quads)
  {
    if a == [] {
      assert a + b == b;
    } else {
      assert (a + b)[0] == a[0];
      assert (a + b)[1..] == a[1..] + b;
      RenderAppend(a[1..], b, query, Advance(pen, query(a[0]), sx, sy), sx, sy);
    }
  }

  /** One codepoint: the pen always advances by the scaled advance; a quad
      at the pen before the advance is emitted exactly when the glyph has
      pixels. */
  lemma RenderOne(c: uint8, query: uint8 -> Glyph, pen: Pen, sx: real, sy: real)
    ensures Render([c], query, pen, sx, sy).pen == Advance(pen, query(c), sx, sy)
    ensures HasPixels(query(c), sx, sy) ==>
              Render([c], query, pen, sx, sy).quads == [GlyphQuad(query(c), pen, sx, sy)]
    ensures !HasPixels(query(c), sx, sy) ==> Render([c], query, pen, sx, sy).quads == []
  {
  }

  /** The glyph of cs[j], when it has pixels, is the k-th quad, where k
      counts the visible codepoints before j, and it is placed with the pen
      at the start plus the advances of cs[..j]. */
  lemma RenderQuadAt(cs: seq<uint8>, query: uint8 -> Glyph, pen: Pen, sx: real, sy: real, j: nat)
    requires j < |cs| && HasPixels(query(cs[j]), sx, sy)
    ensures var r := Render(cs, query, pen, sx, sy);
            var k := VisibleCount(cs[..j], query, sx, sy);
            var before := TotalAdvance(cs[..j], query, sx, sy);
            k < |r.quads| &&
            r.quads[k] == GlyphQuad(query(cs[j]), Pen(pen.x + before.x, pen.y + before.y), sx, sy)
  {
    var a, b := cs[..j], cs[j..];
    assert cs == a + b;
    RenderAppend(a, b, query, pen, sx, sy);
    RenderCount(a, query, pen, sx, sy);
    RenderPen(a, query, pen, sx, sy);
    assert b[0] == cs[j];
  }

  /** Every emitted quad is a six-vertex rectangle bound to the texture of
      the glyph of some visible codepoint of cs. */
  lemma {:induction false} RenderQuadsRectangles(cs: seq<uint8>, query: uint8 -> Glyph, pen: Pen, sx: real, sy: real)
    ensures forall q :: q in Render(cs, query, pen, sx, sy).quads ==>
              IsRectangle(q) &&
              exists j :: 0 <= j < |cs| && HasPixels(query(cs[j]), sx, sy) && q.texture == query(cs[j]).texture
  {
    if cs != [] {
      var g := query(cs[0]);
      var rest := Render(cs[1..], query, Advance(pen, g, sx, sy), sx, sy);
      RenderQuadsRectangles(cs[1..], query, Advance(pen, g, sx, sy), sx, sy);
      forall q | q in Render(cs, query, pen, sx, sy).quads
        ensures IsRectangle(q)
        ensures exists j :: 0 <= j < |cs| && HasPixels(query(cs[j]), sx, sy) && q.texture == query(cs[j]).texture
      {
        if q in rest.quads {
          var j :| 0 <= j < |cs[1..]| && HasPixels(query(cs[1..][j]), sx, sy) && q.texture == query(cs[1..][j]).texture;
          assert cs[1..][j] == cs[j + 1];
        } else {
          assert q == GlyphQuad(g, pen, sx, sy) && HasPixels(g, sx, sy);
        }
      }
    }
  }

  // ---------------------------------------------------------------------
  // The imperative loop

  /** A rectangle is determined by its texture, corner, size and
      texture-coordinate frame. */
  lemma RectangleDetermined(p: Quad, q: Quad)
    requires IsRectangle(p) && IsRectangle(q) && p.texture == q.texture
    requires Left(p) == Left(q) && Top(p) == Top(q) && Width(p) == Width(q) && Height(p) == Height(q)
    requires TexLeft(p) == TexLeft(q) && TexTop(p) == TexTop(q)
    requires TexWidth(p) == TexWidth(q) && TexHeight(p) == TexHeight(q)
    ensures p == q
  {
  }

  /** The vertex buffer of one draw: the rectangle whose top-left corner is
      (x2, -y2), of width w and height h, textured from the glyph's offset
      over its bitmap size divided by MaxWidth; drawn with the glyph's
      texture. */
  method FillQuad(gi: Glyph, x2: real, y2: real, w: real, h: real) returns (q: Quad)
    ensures IsRectangle(q) && q.texture == gi.texture
    ensures Left(q) == x2 && Top(q) == -y2 && Width(q) == w && Height(q) == h
    ensures TexLeft(q) == gi.texOffsetX && TexTop(q) == gi.texOffsetY
    ensures TexWidth(q) == gi.bitmapW as real / MaxWidth
    ensures TexHeight(q) == gi.bitmapH as real / MaxWidth
  {
    var s1 := gi.texOffsetX + gi.bitmapW as real / MaxWidth;
    var t1 := gi.texOffsetY + gi.bitmapH as real / MaxWidth;
    var coords := new Vertex[6];
    coords[0] := Vertex(x2, -y2, gi.texOffsetX, gi.texOffsetY);
    coords[1] := Vertex(x2 + w, -y2, s1, gi.texOffsetY);
    coords[2] := Vertex(x2, -y2 - h, gi.texOffsetX, t1);
    coords[3] := Vertex(x2 + w, -y2, s1, gi.texOffsetY);
    coords[4] := Vertex(x2, -y2 - h, gi.texOffsetX, t1);
    coords[5] := Vertex(x2 + w, -y2 - h, s1, t1);
    q := Quad(gi.texture, coords[..]);
  }

  /** The body of render_text's loop for one glyph gi with the pen at
      (x, y): computes the glyph's rectangle from the pen before moving it,
      advances the pen, and emits the quad unless the scaled width or height
      is zero. */
  method DrawGlyph(gi: Glyph, x: real, y: real, sx: real, sy: real)
    returns (nx: real, ny: real, emitted: seq<Quad>)
    ensures Pen(nx, ny) == Advance(Pen(x, y), gi, sx, sy)
    ensures emitted == Emitted(gi, Pen(x, y), sx, sy)
  {
    // vertex and texture coordinates
    var x2 := x + gi.bitmapLeft * sx;
    var y2 := -y - gi.bitmapTop * sy;
    var w := gi.bitmapW as real * sx;
    var h := gi.bitmapH as real * sy;

    // advance before the skip check
    nx := x + gi.advanceX * sx;
    ny := y + gi.advanceY * sy;

    // glyphs without pixels draw nothing
    if w == 0.0 || h == 0.0 {
      emitted := [];
      return;
    }
    var q := FillQuad(gi, x2, y2, w, h);
    RectangleDetermined(q, GlyphQuad(gi, Pen(x, y), sx, sy));
    emitted := [q];
  }

  /** gfx::render_text. Walks text up to its first NUL, querying each byte
      once and in order; returns the queried codepoints, the quads drawn, in
      drawing order, and the final pen. */
  method RenderText(text: seq<uint8>, query: uint8 -> Glyph, x0: real, y0: real, sx: real, sy: real)
    returns (queried: seq<uint8>, draws: seq<Quad>, x: real, y: real)
    requires NulTerminated(text)
    ensures queried == text[..FirstNul(text)]
    ensures Render(queried, query, Pen(x0, y0), sx, sy) == Rendered(Pen(x, y), draws)
  {
    ghost var n := FirstNul(text);
    ghost var goal := Render(text[..n], query, Pen(x0, y0), sx, sy);
    queried, draws := [], [];
    x, y := x0, y0;
    var i := 0;
    assert text[i..n] == text[..n];
    assert draws + goal.quads == goal.quads;
    while text[i] != 0
      invariant 0 <= i <= n
      invariant queried == text[..i]
      invariant goal == Rendered(Render(text[i..n], query, Pen(x, y), sx, sy).pen,
                                 draws + Render(text[i..n], query, Pen(x, y), sx, sy).quads)
      decreases n - i
    {
      var c := text[i];
      queried := queried + [c];
      var gi := query(c);
      ghost var drawn := draws;
      assert text[i..n][0] == c && text[i..n][1..] == text[i + 1..n];

      var emitted;
      x, y, emitted := DrawGlyph(gi, x, y, sx, sy);
      draws := draws + emitted;
      ghost var rest := Render(text[i + 1..n], query, Pen(x, y), sx, sy).quads;
      assert (drawn + emitted) + rest == drawn + (emitted + rest);
      i := i + 1;
    }
    assert text[i..n] == [];
  }
}
