/**
 * Properties of the renderer of src/TrianglesDemo.tsx, stated about the
 * functions that specify its methods.
 */
module RasterFacts {
  import opened Maths
  import opened MeshBuilder
  import opened Raster

  // ------------------------------------------------------------ byte stores

  /** Storing a number at least a byte gives at least that byte. */
  lemma Clamp8Above(n: byte, v: real)
    requires n as real <= v
    ensures n <= Clamp8(v)
  {
    if 0.0 < v < 255.0 {
      assert n <= v.Floor;
    }
  }

  /** Byte `k` of the pixel at column `col`, row `row`. */
  function PixelByte(img: seq<byte>, col: int, row: int, k: int): byte
    requires |img| == IMG_LEN && 0 <= col < WIDTH && 0 <= row < HEIGHT && 0 <= k < 4
  {
    Sizes();
    assert row * WIDTH == 640 * row;
    img[4 * (row * WIDTH + col) + k]
  }

  /** Every pixel of a cleared image holds the colour, with alpha 255. */
  lemma {:induction false} ClearedPixels(color: Color)
    ensures forall col, row, k :: 0 <= col < WIDTH && 0 <= row < HEIGHT && 0 <= k < 4 ==>
      PixelByte(Cleared(IMG_LEN, color), col, row, k) == Channel(color, k)
  {
    forall col, row, k | 0 <= col < WIDTH && 0 <= row < HEIGHT && 0 <= k < 4
      ensures PixelByte(Cleared(IMG_LEN, color), col, row, k) == Channel(color, k)
    {
      PixelOfByte(col, row, k);
    }
  }

  /** Before anything is painted every depth is 255 and every pixel is (250, 250, 250, 255). */
  lemma InitialBuffers()
    ensures forall j :: 0 <= j < ZBUF_LEN ==> Initial().zBuf[j] == 255
    ensures forall col, row, k :: 0 <= col < WIDTH && 0 <= row < HEIGHT && 0 <= k < 4 ==>
      PixelByte(Initial().img, col, row, k) == if k == 3 then 255 else 250
  {
    ClearedPixels(Background);
    Clamp8OfByte(250);
  }

  // ------------------------------------------------------------ drawPx

  /** The depth-buffer index of the cell a point falls in. */
  function CellLoc(px: Vertex): int
    requires InCanvas(px)
  {
    Loc(CellX(px), CellY(px))
  }

  /** When the cell's stored depth is at most `px.z`, neither buffer changes. */
  lemma DrawnKeepsNearer(buf: Buffers, px: Vertex)
    requires WellSized(buf) && InCanvas(px)
    requires buf.zBuf[CellLoc(px)] as real <= px.z
    ensures Drawn(buf, px) == buf
  {}

  /** A pixel lies in a cell's block exactly when its column and row divide down to the cell. */
  lemma InCellOfPixel(col: int, row: int, cx: int, cy: int)
    requires 0 <= col < WIDTH && 0 <= row < HEIGHT
    ensures InCell(row * WIDTH + col, cx, cy) <==> col / PX_SIZE == cx && row / PX_SIZE == cy
  {
    PixelOfByte(col, row, 0);
  }

  /**
   * Otherwise the cell takes the stored form of `px.z`, exactly the
   * PX_SIZE x PX_SIZE block of that cell takes the colour with alpha 255, and
   * every other depth and pixel is unchanged.
   */
  lemma DrawnPaints(buf: Buffers, px: Vertex)
    requires WellSized(buf) && InCanvas(px)
    requires buf.zBuf[CellLoc(px)] as real > px.z
    ensures Drawn(buf, px).zBuf[CellLoc(px)] == Clamp8(px.z)
    ensures forall j :: 0 <= j < ZBUF_LEN && j != CellLoc(px) ==> Drawn(buf, px).zBuf[j] == buf.zBuf[j]
    ensures forall col, row, k :: 0 <= col < WIDTH && 0 <= row < HEIGHT && 0 <= k < 4 ==>
      PixelByte(Drawn(buf, px).img, col, row, k) ==
        if col / PX_SIZE == CellX(px) && row / PX_SIZE == CellY(px) then Channel(px.color, k)
        else PixelByte(buf.img, col, row, k)
  {
    var r := Drawn(buf, px);
    forall col, row, k | 0 <= col < WIDTH && 0 <= row < HEIGHT && 0 <= k < 4
      ensures PixelByte(r.img, col, row, k) ==
        if col / PX_SIZE == CellX(px) && row / PX_SIZE == CellY(px) then Channel(px.color, k)
        else PixelByte(buf.img, col, row, k)
    {
      PixelOfByte(col, row, k);
      InCellOfPixel(col, row, CellX(px), CellY(px));
    }
  }

  /** Whether no depth of `after` is greater than the same depth of `before`. */
  predicate NoDepthRaised(before: Buffers, after: Buffers)
    requires WellSized(before) && WellSized(after)
  {
    forall j :: 0 <= j < ZBUF_LEN ==> after.zBuf[j] <= before.zBuf[j]
  }

  /** `drawPx` never raises a depth. */
  lemma DrawnNeverRaises(buf: Buffers, px: Vertex)
    requires WellSized(buf) && InCanvas(px)
    ensures NoDepthRaised(buf, Drawn(buf, px))
  {
    var loc := CellLoc(px);
    if buf.zBuf[loc] as real > px.z {
      Clamp8Below(buf.zBuf[loc], px.z);
    }
  }

  /** After `drawPx` the point's cell holds at most the stored form of its depth. */
  lemma DrawnDepthBound(buf: Buffers, px: Vertex)
    requires WellSized(buf) && InCanvas(px)
    ensures Drawn(buf, px).zBuf[CellLoc(px)] <= Clamp8(px.z)
  {
    var loc := CellLoc(px);
    if buf.zBuf[loc] as real <= px.z {
      Clamp8Above(buf.zBuf[loc], px.z);
    }
  }

  /**
   * With an integral depth in 0..255 the first painter wins a tie: a later
   * point in the same cell that is not nearer changes nothing.
   */
  lemma DrawnTieKeepsFirst(buf: Buffers, p: Vertex, q: Vertex)
    requires WellSized(buf) && InCanvas(p) && InCanvas(q)
    requires CellX(p) == CellX(q) && CellY(p) == CellY(q)
    requires IsByte(p.z) && p.z <= q.z
    ensures Drawn(Drawn(buf, p), q) == Drawn(buf, p)
  {
    var loc := CellLoc(p);
    if buf.zBuf[loc] as real > p.z {
      Clamp8OfByte(p.z.Floor);
      assert Drawn(buf, p).zBuf[loc] as real == p.z;
    }
  }

  /** Painting the same block twice leaves the second colour. */
  lemma PaintCellTwice(img: seq<byte>, cx: int, cy: int, c1: Color, c2: Color)
    ensures PaintCell(PaintCell(img, cx, cy, c1), cx, cy, c2) == PaintCell(img, cx, cy, c2)
  {}

  /**
   * Below depth 0 the tie rule fails: the cell stores 0, which is greater than
   * any negative depth, so a later negative-depth point repaints the cell even
   * when it is farther than the first.
   */
  lemma DrawnNegativeRepaints(buf: Buffers, p: Vertex, q: Vertex)
    requires WellSized(buf) && InCanvas(p) && InCanvas(q)
    requires CellX(p) == CellX(q) && CellY(p) == CellY(q)
    requires p.z < 0.0 && q.z < 0.0
    ensures Drawn(Drawn(buf, p), q) == Drawn(buf, q)
  {
    var loc := CellLoc(p);
    PaintCellTwice(buf.img, CellX(p), CellY(p), p.color, q.color);
    assert buf.zBuf[loc := 0][loc := 0] == buf.zBuf[loc := 0];
  }

  /**
   * Rounding the stored depth up lets a farther point win: after depth 3.6 is
   * stored as 4, a point at depth 3.8 in the same cell repaints it.
   */
  lemma DrawnFartherRepaints(buf: Buffers, p: Vertex, q: Vertex)
    requires WellSized(buf) && InCanvas(p) && InCanvas(q)
    requires CellX(p) == CellX(q) && CellY(p) == CellY(q)
    requires buf.zBuf[CellLoc(p)] > 4
    requires p.z == 3.6 && q.z == 3.8
    ensures Drawn(Drawn(buf, p), q) == Drawn(buf, q)
  {
    var loc := CellLoc(p);
    assert Clamp8(3.6) == 4 && Clamp8(3.8) == 4;
    PaintCellTwice(buf.img, CellX(p), CellY(p), p.color, q.color);
  }

  // ------------------------------------------------------------ renderTri

  /** A triangle with an index below 1 or above the vertex count paints nothing. */
  lemma TriRenderedBadIndex(buf: Buffers, tri: Tri, vs: seq<Vertex>)
    requires WellSized(buf) && BadIndex(tri, vs)
    ensures TriRendered(buf, tri, vs) == buf
  {}

  /**
   * The weights of a point sum to 1 and rebuild the point from the three
   * vertices: x = fA·a.x + fB·b.x + fC·c.x, and likewise for y.
   */
  lemma WeightsReconstruct(a: Vertex, b: Vertex, c: Vertex, x: real, y: real)
    requires Basis(a, b, c).Det() != 0.0
    ensures var w := CellWeights(a, Basis(a, b, c).LeftInv(), x, y);
      w.fA + w.fB + w.fC == 1.0 && Mix(w, a.x, b.x, c.x) == x && Mix(w, a.y, b.y, c.y) == y
  {
    var m := Basis(a, b, c);
    var p := Vec2(x - a.x, y - a.y);
    var bc := m.LeftInv().TimesVec(p);
    TimesVecUndoesLeftInv(m, p);
    assert (b.x - a.x) * bc.x + (c.x - a.x) * bc.y == x - a.x;
    assert (b.y - a.y) * bc.x + (c.y - a.y) * bc.y == y - a.y;
    var w := CellWeights(a, m.LeftInv(), x, y);
    assert w == Weights(1.0 - bc.x - bc.y, bc.x, bc.y);
    calc {
      Mix(w, a.x, b.x, c.x);
      (1.0 - bc.x - bc.y) * a.x + bc.x * b.x + bc.y * c.x;
      a.x + ((b.x - a.x) * bc.x + (c.x - a.x) * bc.y);
      x;
    }
    calc {
      Mix(w, a.y, b.y, c.y);
      (1.0 - bc.x - bc.y) * a.y + bc.x * b.y + bc.y * c.y;
      a.y + ((b.y - a.y) * bc.x + (c.y - a.y) * bc.y);
      y;
    }
  }

  /** Conversely, weights that sum to 1 and rebuild the point are the point's weights. */
  lemma WeightsUnique(a: Vertex, b: Vertex, c: Vertex, w: Weights, x: real, y: real)
    requires Basis(a, b, c).Det() != 0.0
    requires w.fA + w.fB + w.fC == 1.0 && Mix(w, a.x, b.x, c.x) == x && Mix(w, a.y, b.y, c.y) == y
    ensures CellWeights(a, Basis(a, b, c).LeftInv(), x, y) == w
  {
    var m := Basis(a, b, c);
    var q := Vec2(w.fB, w.fC);
    calc {
      (b.x - a.x) * w.fB + (c.x - a.x) * w.fC;
      (1.0 - w.fB - w.fC) * a.x + w.fB * b.x + w.fC * c.x - a.x;
      { assert w.fA == 1.0 - w.fB - w.fC; }
      Mix(w, a.x, b.x, c.x) - a.x;
    }
    calc {
      (b.y - a.y) * w.fB + (c.y - a.y) * w.fC;
      (1.0 - w.fB - w.fC) * a.y + w.fB * b.y + w.fC * c.y - a.y;
      { assert w.fA == 1.0 - w.fB - w.fC; }
      Mix(w, a.y, b.y, c.y) - a.y;
    }
    assert m.TimesVec(q) == Vec2(x - a.x, y - a.y);
    LeftInvUndoesTimesVec(m, q);
  }

  /** The cell's column, row and depth-buffer index of the point painted at cell (`x`, `y`). */
  lemma CellOfCellPoint(a: Vertex, b: Vertex, c: Vertex, w: Weights, x: int, y: int)
    requires 0 <= x < PX_WIDTH && 0 <= y < PX_HEIGHT
    ensures InCanvas(CellPoint(a, b, c, w, x, y))
    ensures CellX(CellPoint(a, b, c, w, x, y)) == x && CellY(CellPoint(a, b, c, w, x, y)) == y
  {}

  /**
   * When the triangle pass changes the buffers at cell (`x`, `y`), all three
   * weights lie in [0, 1), they sum to 1 and rebuild the cell's corner, and the
   * cell's depth is the stored form of fA·zA + fB·zB + fC·zC.
   */
  lemma TriStepPaints(buf: Buffers, a: Vertex, b: Vertex, c: Vertex, x: int, y: int)
    requires WellSized(buf) && 0 <= x < PX_WIDTH && 0 <= y < PX_HEIGHT
    requires Basis(a, b, c).Det() != 0.0
    requires TriStep(buf, a, b, c, Basis(a, b, c).LeftInv(), x, y) != buf
    ensures var w := CellWeights(a, Basis(a, b, c).LeftInv(), x as real, y as real);
      && 0.0 <= w.fA < 1.0 && 0.0 <= w.fB < 1.0 && 0.0 <= w.fC < 1.0
      && w.fA + w.fB + w.fC == 1.0
      && Mix(w, a.x, b.x, c.x) == x as real && Mix(w, a.y, b.y, c.y) == y as real
      && TriStep(buf, a, b, c, Basis(a, b, c).LeftInv(), x, y).zBuf[Loc(x, y)] == Clamp8(Mix(w, a.z, b.z, c.z))
  {
    var w := CellWeights(a, Basis(a, b, c).LeftInv(), x as real, y as real);
    WeightsReconstruct(a, b, c, x as real, y as real);
    var p := CellPoint(a, b, c, w, x, y);
    CellOfCellPoint(a, b, c, w, x, y);
    if buf.zBuf[CellLoc(p)] as real <= p.z {
      DrawnKeepsNearer(buf, p);
    } else {
      DrawnPaints(buf, p);
    }
  }

  /**
   * The half-open test leaves out the triangle's own corners: a cell whose
   * corner is a vertex of the triangle is never painted by it (the vertex pass
   * paints it instead).
   */
  lemma TriStepSkipsCorners(buf: Buffers, a: Vertex, b: Vertex, c: Vertex, x: int, y: int)
    requires WellSized(buf) && 0 <= x < PX_WIDTH && 0 <= y < PX_HEIGHT
    requires Basis(a, b, c).Det() != 0.0
    requires (x as real, y as real) in {(a.x, a.y), (b.x, b.y), (c.x, c.y)}
    ensures TriStep(buf, a, b, c, Basis(a, b, c).LeftInv(), x, y) == buf
  {
    var w :=
      if (x as real, y as real) == (a.x, a.y) then Weights(1.0, 0.0, 0.0)
      else if (x as real, y as real) == (b.x, b.y) then Weights(0.0, 1.0, 0.0)
      else Weights(0.0, 0.0, 1.0);
    WeightsUnique(a, b, c, w, x as real, y as real);
  }

  /** The depth the triangle pass leaves in cell (`x`, `y`), given the depth `d` before it. */
  function CellDepth(d: byte, a: Vertex, b: Vertex, c: Vertex, inv: Mat2, x: int, y: int): byte {
    var w := CellWeights(a, inv, x as real, y as real);
    var z := Mix(w, a.z, b.z, c.z);
    if Included(w) && d as real > z then Clamp8(z) else d
  }

  /** One iteration of the triangle pass changes the depth of its own cell only. */
  lemma TriStepDepth(buf: Buffers, a: Vertex, b: Vertex, c: Vertex, inv: Mat2, x: int, y: int)
    requires WellSized(buf) && 0 <= x < PX_WIDTH && 0 <= y < PX_HEIGHT
    ensures forall j :: 0 <= j < ZBUF_LEN ==>
      TriStep(buf, a, b, c, inv, x, y).zBuf[j] ==
        if j == Loc(x, y) then CellDepth(buf.zBuf[j], a, b, c, inv, x, y) else buf.zBuf[j]
  {
    var w := CellWeights(a, inv, x as real, y as real);
    if Included(w) {
      var p := CellPoint(a, b, c, w, x, y);
      CellOfCellPoint(a, b, c, w, x, y);
      if buf.zBuf[CellLoc(p)] as real > p.z {
        DrawnPaints(buf, p);
      }
    }
  }

  /** The iteration that visits depth cell `j`. */
  function VisitOf(j: int): (n: int)
    requires 0 <= j < ZBUF_LEN
    ensures 0 <= n < ZBUF_LEN && VisitX(n) == j % PX_WIDTH && VisitY(n) == j / PX_WIDTH
  {
    Sizes();
    VisitIndex(j % PX_WIDTH, j / PX_WIDTH)
  }

  /** Iteration `n` visits the cell at depth index `Loc(VisitX(n), VisitY(n))`, and no other. */
  lemma VisitOfLoc(n: int, j: int)
    requires 0 <= n < ZBUF_LEN && 0 <= j < ZBUF_LEN
    ensures VisitOf(j) == n <==> j == Loc(VisitX(n), VisitY(n))
  {
    Sizes();
  }

  /**
   * After the first `n` iterations of the triangle pass, each depth cell
   * visited so far holds `CellDepth` of its depth before the pass, and every
   * other cell is untouched: each cell is decided once, on its own.
   */
  lemma {:induction false} TriCellsDepth(buf: Buffers, a: Vertex, b: Vertex, c: Vertex, inv: Mat2, n: int)
    requires WellSized(buf) && 0 <= n <= ZBUF_LEN
    ensures forall j :: 0 <= j < ZBUF_LEN ==>
      TriCells(buf, a, b, c, inv, n).zBuf[j] ==
        if VisitOf(j) < n then CellDepth(buf.zBuf[j], a, b, c, inv, j % PX_WIDTH, j / PX_WIDTH)
        else buf.zBuf[j]
  {
    if n > 0 {
      TriCellsDepth(buf, a, b, c, inv, n - 1);
      var x, y := VisitX(n - 1), VisitY(n - 1);
      TriStepDepth(TriCells(buf, a, b, c, inv, n - 1), a, b, c, inv, x, y);
      forall j | 0 <= j < ZBUF_LEN
        ensures TriCells(buf, a, b, c, inv, n).zBuf[j] ==
          if VisitOf(j) < n then CellDepth(buf.zBuf[j], a, b, c, inv, j % PX_WIDTH, j / PX_WIDTH)
          else buf.zBuf[j]
      {
        VisitOfLoc(n - 1, j);
      }
    }
  }

  /** One iteration of the triangle pass never raises a depth. */
  lemma TriStepNeverRaises(buf: Buffers, a: Vertex, b: Vertex, c: Vertex, inv: Mat2, x: int, y: int)
    requires WellSized(buf) && 0 <= x < PX_WIDTH && 0 <= y < PX_HEIGHT
    ensures NoDepthRaised(buf, TriStep(buf, a, b, c, inv, x, y))
  {
    var w := CellWeights(a, inv, x as real, y as real);
    if Included(w) {
      CellOfCellPoint(a, b, c, w, x, y);
      DrawnNeverRaises(buf, CellPoint(a, b, c, w, x, y));
    }
  }

  lemma {:induction false} TriCellsNeverRaises(buf: Buffers, a: Vertex, b: Vertex, c: Vertex, inv: Mat2, n: int)
    requires WellSized(buf) && 0 <= n <= ZBUF_LEN
    ensures NoDepthRaised(buf, TriCells(buf, a, b, c, inv, n))
  {
    if n > 0 {
      TriCellsNeverRaises(buf, a, b, c, inv, n - 1);
      TriStepNeverRaises(TriCells(buf, a, b, c, inv, n - 1), a, b, c, inv, VisitX(n - 1), VisitY(n - 1));
    }
  }

  /** `renderTri` never raises a depth. */
  lemma TriRenderedNeverRaises(buf: Buffers, tri: Tri, vs: seq<Vertex>)
    requires WellSized(buf)
    ensures NoDepthRaised(buf, TriRendered(buf, tri, vs))
  {
    if !BadIndex(tri, vs) {
      var a, b, c := vs[tri.v1 - 1], vs[tri.v2 - 1], vs[tri.v3 - 1];
      if Basis(a, b, c).Det() != 0.0 {
        TriCellsNeverRaises(buf, a, b, c, Basis(a, b, c).LeftInv(), ZBUF_LEN);
      }
    }
  }

  // ------------------------------------------------------------ renderModel

  /** The vertex pass never raises a depth. */
  lemma {:induction false} DrawAllNeverRaises(buf: Buffers, vs: seq<Vertex>)
    requires WellSized(buf) && AllInCanvas(vs)
    ensures NoDepthRaised(buf, DrawAll(buf, vs))
  {
    if |vs| > 0 {
      var prefix := vs[..|vs| - 1];
      DrawAllNeverRaises(buf, prefix);
      DrawnNeverRaises(DrawAll(buf, prefix), vs[|vs| - 1]);
    }
  }

  /** The triangle pass never raises a depth. */
  lemma {:induction false} RenderTrisNeverRaises(buf: Buffers, tris: seq<Tri>, vs: seq<Vertex>)
    requires WellSized(buf)
    ensures NoDepthRaised(buf, RenderTris(buf, tris, vs))
  {
    if |tris| > 0 {
      var prefix := tris[..|tris| - 1];
      RenderTrisNeverRaises(buf, prefix, vs);
      TriRenderedNeverRaises(RenderTris(buf, prefix, vs), tris[|tris| - 1], vs);
    }
  }

  /** After the vertex pass each vertex's cell holds at most the stored form of its depth. */
  lemma {:induction false} DrawAllVertexDepth(buf: Buffers, vs: seq<Vertex>)
    requires WellSized(buf) && AllInCanvas(vs)
    ensures forall k :: 0 <= k < |vs| ==> DrawAll(buf, vs).zBuf[CellLoc(vs[k])] <= Clamp8(vs[k].z)
  {
    if |vs| > 0 {
      var prefix := vs[..|vs| - 1];
      var before := DrawAll(buf, prefix);
      DrawAllVertexDepth(buf, prefix);
      DrawnNeverRaises(before, vs[|vs| - 1]);
      DrawnDepthBound(before, vs[|vs| - 1]);
      assert forall k :: 0 <= k < |prefix| ==> prefix[k] == vs[k];
    }
  }

  /**
   * In the rendered model every vertex's cell is at least as near as the
   * stored form of that vertex's depth: every vertex is depth-tested, and
   * nothing painted after it raises a depth.
   */
  lemma RenderedVertexDepth(model: Model)
    requires AllInCanvas(model.vertices)
    ensures forall k :: 0 <= k < |model.vertices| ==>
      Rendered(model).zBuf[CellLoc(model.vertices[k])] <= Clamp8(model.vertices[k].z)
  {
    var afterVertices := DrawAll(Initial(), model.vertices);
    DrawAllVertexDepth(Initial(), model.vertices);
    RenderTrisNeverRaises(afterVertices, model.tris, model.vertices);
  }
}
