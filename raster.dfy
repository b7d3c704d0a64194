/**
 * The z-buffer renderer of src/TrianglesDemo.tsx. The canvas is WIDTH x HEIGHT
 * pixels of four RGBA bytes; depth is kept per PX_SIZE x PX_SIZE cell in a
 * PX_WIDTH x PX_HEIGHT buffer. Both buffers are `Uint8ClampedArray`s, so
 * every number stored is rounded half to even and clamped to 0..255.
 *
 * Each method is specified by a function on the buffers' contents
 * (`Buffers`), and the properties of the renderer are lemmas about those
 * functions.
 */
module Raster {
  import opened Maths
  import opened MeshBuilder

  const WIDTH: int := 640
  const HEIGHT: int := 480
  const PX_SIZE: int := 10
  const PX_WIDTH: int := WIDTH / PX_SIZE
  const PX_HEIGHT: int := HEIGHT / PX_SIZE

  /** Bytes of the RGBA image. */
  const IMG_LEN: int := 4 * WIDTH * HEIGHT
  /** Cells of the depth buffer. */
  const ZBUF_LEN: int := PX_WIDTH * PX_HEIGHT

  type byte = x: int | 0 <= x < 256

  /** The sizes the constants come to. */
  lemma Sizes()
    ensures PX_WIDTH == 64 && PX_HEIGHT == 48
    ensures IMG_LEN == 1228800 && ZBUF_LEN == 3072
  {}

  // ------------------------------------------------------------ byte stores

  /** ECMAScript ToUint8Clamp for a number that is not NaN: round half to even, then clamp. */
  function Clamp8(v: real): (r: byte)
    ensures v <= 0.0 ==> r == 0
    ensures v >= 255.0 ==> r == 255
    ensures 0.0 < v < 255.0 ==> -0.5 <= r as real - v <= 0.5
    ensures 0.0 < v < 255.0 && (r as real - v == 0.5 || v - r as real == 0.5) ==> r % 2 == 0
  {
    if v <= 0.0 then 0
    else if v >= 255.0 then 255
    else
      var f := v.Floor;
      var d := v - f as real;
      if d < 0.5 then f
      else if d > 0.5 then f + 1
      else if f % 2 == 0 then f else f + 1
  }

  /** A value that is already a byte is stored as it is. */
  lemma Clamp8OfByte(n: int)
    requires 0 <= n <= 255
    ensures Clamp8(n as real) == n
  {}

  /** Storing a number below a stored byte never gives more than that byte. */
  lemma Clamp8Below(n: byte, v: real)
    requires v < n as real
    ensures Clamp8(v) <= n
  {}

  /** The byte written for channel `k` (0 red, 1 green, 2 blue, 3 alpha) of a colour. */
  function Channel(color: Color, k: int): byte {
    if k == 0 then Clamp8(color.r)
    else if k == 1 then Clamp8(color.g)
    else if k == 2 then Clamp8(color.b)
    else 255
  }

  // ------------------------------------------------------------ buffers

  /** The two buffers' contents: the depth buffer and the image bytes. */
  datatype Buffers = Buffers(zBuf: seq<byte>, img: seq<byte>)

  predicate WellSized(b: Buffers) {
    |b.zBuf| == ZBUF_LEN && |b.img| == IMG_LEN
  }

  /** A point whose cell lies on the canvas. */
  predicate InCanvas(v: Vertex) {
    0.0 <= v.x < PX_WIDTH as real && 0.0 <= v.y < PX_HEIGHT as real
  }

  /** The depth-buffer index of cell (`cx`, `cy`). */
  function Loc(cx: int, cy: int): (loc: int)
    requires 0 <= cx < PX_WIDTH && 0 <= cy < PX_HEIGHT
    ensures 0 <= loc < ZBUF_LEN
  {
    Sizes();
    cy * PX_WIDTH + cx
  }

  /** The column of the cell a point falls in (`Math.floor(px.x)`). */
  function CellX(px: Vertex): (cx: int)
    requires InCanvas(px)
    ensures 0 <= cx < PX_WIDTH && cx as real <= px.x < cx as real + 1.0
  {
    px.x.Floor
  }

  /** The row of the cell a point falls in (`Math.floor(px.y)`). */
  function CellY(px: Vertex): (cy: int)
    requires InCanvas(px)
    ensures 0 <= cy < PX_HEIGHT && cy as real <= px.y < cy as real + 1.0
  {
    px.y.Floor
  }

  /** Whether pixel `p` (an index into the WIDTH x HEIGHT pixels) lies in cell (`cx`, `cy`). */
  predicate InCell(p: int, cx: int, cy: int) {
    cx * PX_SIZE <= p % WIDTH < cx * PX_SIZE + PX_SIZE &&
    cy * PX_SIZE <= p / WIDTH < cy * PX_SIZE + PX_SIZE
  }

  /** The image with the block of cell (`cx`, `cy`) set to `color`, alpha 255. */
  function PaintCell(img: seq<byte>, cx: int, cy: int, color: Color): (r: seq<byte>)
    ensures |r| == |img|
  {
    seq(|img|, i requires 0 <= i < |img| =>
      if InCell(i / 4, cx, cy) then Channel(color, i % 4) else img[i])
  }

  /**
   * `drawPx(px, img, zBuf)`: when the stored depth of the point's cell is
   * greater than `px.z`, the cell takes `px.z` and its block takes the colour;
   * otherwise nothing changes.
   */
  function Drawn(b: Buffers, px: Vertex): (r: Buffers)
    requires WellSized(b) && InCanvas(px)
    ensures WellSized(r)
  {
    var cx, cy := CellX(px), CellY(px);
    var loc := Loc(cx, cy);
    if b.zBuf[loc] as real <= px.z then b
    else Buffers(b.zBuf[loc := Clamp8(px.z)], PaintCell(b.img, cx, cy, px.color))
  }

  /** The pixel at column `x`, row `y` is made of the bytes 4 * (y * WIDTH + x) + 0..3. */
  lemma PixelOfByte(x: int, y: int, k: int)
    requires 0 <= x < WIDTH && 0 <= k < 4
    ensures (4 * (y * WIDTH + x) + k) / 4 == y * WIDTH + x
    ensures (4 * (y * WIDTH + x) + k) % 4 == k
    ensures (y * WIDTH + x) % WIDTH == x && (y * WIDTH + x) / WIDTH == y
  {}

  /** Pixels of the block of (`cx`, `cy`) painted by the first `x` steps of row `y`, after the rows above it. */
  predicate Covered(p: int, cx: int, cy: int, y: int, x: int) {
    InCell(p, cx, cy) && (p / WIDTH < y || (p / WIDTH == y && p % WIDTH < x))
  }

  method DrawPx(px: Vertex, img: array<byte>, zBuf: array<byte>)
    requires img.Length == IMG_LEN && zBuf.Length == ZBUF_LEN && InCanvas(px)
    modifies img, zBuf
    ensures Buffers(zBuf[..], img[..]) == Drawn(Buffers(old(zBuf[..]), old(img[..])), px)
  {
    Sizes();
    var pxX := CellX(px);
    var pxY := CellY(px);
    var loc := Loc(pxX, pxY);
    if zBuf[loc] as real <= px.z {
      return;
    }
    ghost var start := Buffers(zBuf[..], img[..]);
    assert Drawn(start, px) == Buffers(start.zBuf[loc := Clamp8(px.z)], PaintCell(start.img, pxX, pxY, px.color));
    zBuf[loc] := Clamp8(px.z);
    assert zBuf[..] == start.zBuf[loc := Clamp8(px.z)];
    PaintBlock(img, pxX, pxY, px.color);
    assert img[..] == PaintCell(start.img, pxX, pxY, px.color);
  }

  /** The two loops of `drawPx` that write the block of cell (`cx`, `cy`). */
  method PaintBlock(img: array<byte>, cx: int, cy: int, color: Color)
    requires img.Length == IMG_LEN && 0 <= cx < PX_WIDTH && 0 <= cy < PX_HEIGHT
    modifies img
    ensures forall i :: 0 <= i < IMG_LEN ==>
      img[i] == if InCell(i / 4, cx, cy) then Channel(color, i % 4) else old(img[i])
  {
    var y := cy * PX_SIZE;
    while y < cy * PX_SIZE + PX_SIZE
      invariant cy * PX_SIZE <= y <= cy * PX_SIZE + PX_SIZE
      invariant forall i :: 0 <= i < IMG_LEN ==>
        img[i] == if Covered(i / 4, cx, cy, y, 0) then Channel(color, i % 4) else old(img[i])
    {
      PaintBlockRow(img, cx, cy, y, color);
      y := y + 1;
    }
  }

  /** The inner loop of `drawPx`: row `y` of the block of cell (`cx`, `cy`). */
  method PaintBlockRow(img: array<byte>, cx: int, cy: int, y: int, color: Color)
    requires img.Length == IMG_LEN && 0 <= cx < PX_WIDTH && 0 <= cy < PX_HEIGHT
    requires cy * PX_SIZE <= y < cy * PX_SIZE + PX_SIZE
    modifies img
    ensures forall i :: 0 <= i < IMG_LEN ==>
      img[i] == if InCell(i / 4, cx, cy) && i / 4 / WIDTH == y then Channel(color, i % 4) else old(img[i])
  {
    var x := cx * PX_SIZE;
    while x < cx * PX_SIZE + PX_SIZE
      invariant cx * PX_SIZE <= x <= cx * PX_SIZE + PX_SIZE
      invariant forall i :: 0 <= i < IMG_LEN ==>
        img[i] == if InCell(i / 4, cx, cy) && i / 4 / WIDTH == y && i / 4 % WIDTH < x
                  then Channel(color, i % 4) else old(img[i])
    {
      var base := 4 * (y * WIDTH + x);
      PixelOfByte(x, y, 0);
      PixelOfByte(x, y, 1);
      PixelOfByte(x, y, 2);
      PixelOfByte(x, y, 3);
      img[base] := Clamp8(color.r);
      img[base + 1] := Clamp8(color.g);
      img[base + 2] := Clamp8(color.b);
      img[base + 3] := 255;
      x := x + 1;
    }
  }

  // ------------------------------------------------------------ clearing

  /** `n` image bytes all holding `color` with alpha 255. */
  function Cleared(n: nat, color: Color): (r: seq<byte>)
    ensures |r| == n
  {
    seq(n, i requires 0 <= i < n => Channel(color, i % 4))
  }

  /** `clearContext(img, color)`: every pixel takes the colour, with alpha 255. */
  method ClearContext(img: array<byte>, color: Color)
    requires img.Length % 4 == 0
    modifies img
    ensures img[..] == Cleared(img.Length, color)
  {
    var i := 0;
    while i < img.Length
      invariant 0 <= i <= img.Length && i % 4 == 0
      invariant forall j :: 0 <= j < i ==> img[j] == Channel(color, j % 4)
    {
      img[i] := Clamp8(color.r);
      img[i + 1] := Clamp8(color.g);
      img[i + 2] := Clamp8(color.b);
      img[i + 3] := 255;
      i := i + 4;
    }
  }

  // ------------------------------------------------------------ triangles

  /** The three barycentric weights of a cell. */
  datatype Weights = Weights(fA: real, fB: real, fC: real)

  /** The basis whose columns are the edges `b - a` and `c - a`. */
  function Basis(a: Vertex, b: Vertex, c: Vertex): (m: Mat2)
    ensures m.TimesVec(Vec2(1.0, 0.0)) == Vec2(b.x - a.x, b.y - a.y)
    ensures m.TimesVec(Vec2(0.0, 1.0)) == Vec2(c.x - a.x, c.y - a.y)
  {
    Mat2(b.x - a.x, b.y - a.y, c.x - a.x, c.y - a.y)
  }

  /**
   * The weights of the point (`x`, `y`), given `inv`, the inverse of the basis
   * of a triangle with first vertex `a`.
   */
  function CellWeights(a: Vertex, inv: Mat2, x: real, y: real): Weights {
    var bc := inv.TimesVec(Vec2(x - a.x, y - a.y));
    Weights(1.0 - bc.x - bc.y, bc.x, bc.y)
  }

  /** The half-open inclusion test: every weight in [0, 1). */
  predicate Included(w: Weights) {
    !(w.fA < 0.0 || w.fB < 0.0 || w.fC < 0.0 || w.fA >= 1.0 || w.fB >= 1.0 || w.fC >= 1.0)
  }

  /** The weighted combination of three values. */
  function Mix(w: Weights, p: real, q: real, r: real): real {
    w.fA * p + w.fB * q + w.fC * r
  }

  /** The point painted at cell (`x`, `y`): depth and colour interpolated with the weights. */
  function CellPoint(a: Vertex, b: Vertex, c: Vertex, w: Weights, x: int, y: int): Vertex {
    Vertex(x as real, y as real, Mix(w, a.z, b.z, c.z),
           Color(Mix(w, a.color.r, b.color.r, c.color.r),
                 Mix(w, a.color.g, b.color.g, c.color.g),
                 Mix(w, a.color.b, b.color.b, c.color.b)))
  }

  /** One iteration of the loops of `renderTri`, at cell (`x`, `y`). */
  function TriStep(buf: Buffers, a: Vertex, b: Vertex, c: Vertex, inv: Mat2, x: int, y: int): (r: Buffers)
    requires WellSized(buf)
    requires 0 <= x < PX_WIDTH && 0 <= y < PX_HEIGHT
    ensures WellSized(r)
  {
    var w := CellWeights(a, inv, x as real, y as real);
    if Included(w) then Drawn(buf, CellPoint(a, b, c, w, x, y)) else buf
  }

  /** The column of the cell iteration `n` visits: columns outside, rows inside. */
  function VisitX(n: int): (x: int)
    requires 0 <= n < ZBUF_LEN
    ensures 0 <= x < PX_WIDTH
  {
    n / PX_HEIGHT
  }

  /** The row of the cell iteration `n` visits. */
  function VisitY(n: int): (y: int)
    requires 0 <= n < ZBUF_LEN
    ensures 0 <= y < PX_HEIGHT
  {
    n % PX_HEIGHT
  }

  /** The number of iterations before the one at cell (`x`, `y`). */
  function VisitIndex(x: int, y: int): (n: int)
    requires 0 <= x <= PX_WIDTH && 0 <= y <= PX_HEIGHT && (x < PX_WIDTH || y == 0)
    ensures 0 <= n <= ZBUF_LEN
    ensures n == 48 * x + y
    ensures x < PX_WIDTH && y < PX_HEIGHT ==> n < ZBUF_LEN && VisitX(n) == x && VisitY(n) == y
  {
    assert x * PX_HEIGHT == 48 * x;
    assert PX_HEIGHT == 48 && ZBUF_LEN == 3072;
    assert y < PX_HEIGHT ==> (48 * x + y) / 48 == x && (48 * x + y) % 48 == y;
    x * PX_HEIGHT + y
  }

  /** The buffers after the first `n` iterations of the loops of `renderTri`. */
  function TriCells(buf: Buffers, a: Vertex, b: Vertex, c: Vertex, inv: Mat2, n: int): (r: Buffers)
    requires WellSized(buf) && 0 <= n <= ZBUF_LEN
    ensures WellSized(r)
  {
    if n == 0 then buf
    else TriStep(TriCells(buf, a, b, c, inv, n - 1), a, b, c, inv, VisitX(n - 1), VisitY(n - 1))
  }

  predicate AllInCanvas(vs: seq<Vertex>) {
    forall k :: 0 <= k < |vs| ==> InCanvas(vs[k])
  }

  /** Whether some index of the triangle is below 1 or above the vertex count. */
  predicate BadIndex(tri: Tri, vs: seq<Vertex>) {
    tri.v1 < 1 || tri.v1 > |vs| || tri.v2 < 1 || tri.v2 > |vs| || tri.v3 < 1 || tri.v3 > |vs|
  }

  /**
   * `renderTri(tri, vertices, img, zBuf)`: nothing for a bad index (and, in
   * this model, for a degenerate triangle); otherwise every cell of the
   * canvas, column by column.
   */
  function TriRendered(buf: Buffers, tri: Tri, vs: seq<Vertex>): (r: Buffers)
    requires WellSized(buf)
    ensures WellSized(r)
  {
    if BadIndex(tri, vs) then buf
    else
      var a, b, c := vs[tri.v1 - 1], vs[tri.v2 - 1], vs[tri.v3 - 1];
      if Basis(a, b, c).Det() == 0.0 then buf else TriCells(buf, a, b, c, Basis(a, b, c).LeftInv(), ZBUF_LEN)
  }

  function Min(p: real, q: real): real {
    if p <= q then p else q
  }

  function Max(p: real, q: real): real {
    if p >= q then p else q
  }

  /** With every vertex on the canvas the bounding box of `renderTri` is exactly the canvas. */
  lemma BoxIsCanvas(a: Vertex, b: Vertex, c: Vertex)
    requires InCanvas(a) && InCanvas(b) && InCanvas(c)
    ensures Min(Min(Min(a.x, b.x), c.x), 0.0) == 0.0 && Min(Min(Min(a.y, b.y), c.y), 0.0) == 0.0
    ensures Max(Max(Max(a.x, b.x), c.x), PX_WIDTH as real) == PX_WIDTH as real
    ensures Max(Max(Max(a.y, b.y), c.y), PX_HEIGHT as real) == PX_HEIGHT as real
  {}

  /**
   * The matrix `renderTri` inverts is the transpose of the basis; see
   * `Maths.BasisInverseAgrees` for why its inverse is still the right one.
   */
  lemma TransposedBasis(a: Vertex, b: Vertex, c: Vertex)
    ensures Mat2(b.x - a.x, c.x - a.x, b.y - a.y, c.y - a.y).Det() == Basis(a, b, c).Det()
    ensures Basis(a, b, c).Det() != 0.0 ==>
      Mat2(b.x - a.x, c.x - a.x, b.y - a.y, c.y - a.y).LeftInvAsWritten() == Basis(a, b, c).LeftInv()
  {
    var u, v := Vec2(b.x - a.x, b.y - a.y), Vec2(c.x - a.x, c.y - a.y);
    if Basis(a, b, c).Det() != 0.0 {
      BasisInverseAgrees(u, v);
    } else {
      assert Mat2(u.x, v.x, u.y, v.y).Det() == Mat2(u.x, u.y, v.x, v.y).Det();
    }
  }

  method RenderTri(tri: Tri, vertices: seq<Vertex>, img: array<byte>, zBuf: array<byte>)
    requires img.Length == IMG_LEN && zBuf.Length == ZBUF_LEN && AllInCanvas(vertices)
    modifies img, zBuf
    ensures Buffers(zBuf[..], img[..]) == TriRendered(Buffers(old(zBuf[..]), old(img[..])), tri, vertices)
  {
    if BadIndex(tri, vertices) {
      return;
    }
    var a, b, c := vertices[tri.v1 - 1], vertices[tri.v2 - 1], vertices[tri.v3 - 1];
    var minX := Min(Min(Min(a.x, b.x), c.x), 0.0);
    var minY := Min(Min(Min(a.y, b.y), c.y), 0.0);
    var maxX := Max(Max(Max(a.x, b.x), c.x), PX_WIDTH as real);
    var maxY := Max(Max(Max(a.y, b.y), c.y), PX_HEIGHT as real);
    BoxIsCanvas(a, b, c);

    var u := Vec2(b.x - a.x, b.y - a.y);
    var v := Vec2(c.x - a.x, c.y - a.y);
    var m := Mat2(u.x, v.x, u.y, v.y);
    TransposedBasis(a, b, c);
    if m.Det() == 0.0 {
      return;
    }
    var trans := m.LeftInvAsWritten();

    PaintTriCells(a, b, c, trans, minX.Floor, maxX, minY.Floor, maxY, img, zBuf);
  }

  /** The two loops of `renderTri`, over the box computed from the vertices. */
  method PaintTriCells(a: Vertex, b: Vertex, c: Vertex, trans: Mat2,
                       x0: int, maxX: real, y0: int, maxY: real,
                       img: array<byte>, zBuf: array<byte>)
    requires img.Length == IMG_LEN && zBuf.Length == ZBUF_LEN
    requires x0 == 0 && y0 == 0 && maxX == PX_WIDTH as real && maxY == PX_HEIGHT as real
    modifies img, zBuf
    ensures Buffers(zBuf[..], img[..]) == TriCells(Buffers(old(zBuf[..]), old(img[..])), a, b, c, trans, ZBUF_LEN)
  {
    ghost var start := Buffers(zBuf[..], img[..]);
    var x := x0;
    while x as real < maxX
      invariant 0 <= x <= PX_WIDTH
      invariant Buffers(zBuf[..], img[..]) == TriCells(start, a, b, c, trans, VisitIndex(x, 0))
    {
      var y := y0;
      while y as real < maxY
        invariant 0 <= y <= PX_HEIGHT && x < PX_WIDTH
        invariant Buffers(zBuf[..], img[..]) == TriCells(start, a, b, c, trans, VisitIndex(x, y))
      {
        PaintTriCell(a, b, c, trans, x, y, img, zBuf);
        y := y + 1;
      }
      x := x + 1;
    }
  }

  /** The body of the loops of `renderTri`: weigh cell (`x`, `y`) and paint it when it is inside. */
  method PaintTriCell(a: Vertex, b: Vertex, c: Vertex, trans: Mat2, x: int, y: int,
                      img: array<byte>, zBuf: array<byte>)
    requires img.Length == IMG_LEN && zBuf.Length == ZBUF_LEN
    requires 0 <= x < PX_WIDTH && 0 <= y < PX_HEIGHT
    modifies img, zBuf
    ensures Buffers(zBuf[..], img[..]) == TriStep(Buffers(old(zBuf[..]), old(img[..])), a, b, c, trans, x, y)
  {
    var relToA := Vec2(x as real - a.x, y as real - a.y);
    var baryCoords := trans.TimesVec(relToA);
    var fA := 1.0 - baryCoords.x - baryCoords.y;
    var fB := baryCoords.x;
    var fC := baryCoords.y;
    ghost var start := Buffers(zBuf[..], img[..]);
    ghost var w := CellWeights(a, trans, x as real, y as real);
    assert w == Weights(fA, fB, fC);
    if fA < 0.0 || fB < 0.0 || fC < 0.0 || fA >= 1.0 || fB >= 1.0 || fC >= 1.0 {
      assert !Included(w);
      return;
    }
    var z := fA * a.z + fB * b.z + fC * c.z;
    var color := Color(fA * a.color.r + fB * b.color.r + fC * c.color.r,
                       fA * a.color.g + fB * b.color.g + fC * c.color.g,
                       fA * a.color.b + fB * b.color.b + fC * c.color.b);
    var px := Vertex(x as real, y as real, z, color);
    assert px == CellPoint(a, b, c, w, x, y);
    assert TriStep(start, a, b, c, trans, x, y) == Drawn(start, px);
    DrawPx(px, img, zBuf);
  }

  // ------------------------------------------------------------ the whole model

  /** The background colour `clearContext` is given. */
  const Background: Color := Color(250.0, 250.0, 250.0)

  /** The buffers before any point is painted: depth 255 everywhere, the background everywhere. */
  function Initial(): (r: Buffers)
    ensures WellSized(r)
  {
    Buffers(seq(ZBUF_LEN, _ => 255), Cleared(IMG_LEN, Background))
  }

  /** `model.vertices.forEach(v => drawPx(v, img, zBuf))`. */
  function DrawAll(buf: Buffers, vs: seq<Vertex>): (r: Buffers)
    requires WellSized(buf) && AllInCanvas(vs)
    ensures WellSized(r)
  {
    if |vs| == 0 then buf else Drawn(DrawAll(buf, vs[..|vs| - 1]), vs[|vs| - 1])
  }

  /** `model.tris.forEach(tri => renderTri(tri, model.vertices, img, zBuf))`. */
  function RenderTris(buf: Buffers, tris: seq<Tri>, vs: seq<Vertex>): (r: Buffers)
    requires WellSized(buf)
    ensures WellSized(r)
  {
    if |tris| == 0 then buf else TriRendered(RenderTris(buf, tris[..|tris| - 1], vs), tris[|tris| - 1], vs)
  }

  /** `renderModel(model, img)`: clear, start every depth at 255, paint the vertices, then the triangles. */
  function Rendered(model: Model): (r: Buffers)
    requires AllInCanvas(model.vertices)
    ensures WellSized(r)
  {
    RenderTris(DrawAll(Initial(), model.vertices), model.tris, model.vertices)
  }

  method RenderModel(model: Model, img: array<byte>)
    requires img.Length == IMG_LEN && AllInCanvas(model.vertices)
    modifies img
    ensures img[..] == Rendered(model).img
  {
    ClearContext(img, Color(250.0, 250.0, 250.0));
    var zBuf := new byte[PX_WIDTH * PX_HEIGHT](_ => 255);
    assert zBuf[..] == Initial().zBuf;
    var i := 0;
    while i < |model.vertices|
      invariant 0 <= i <= |model.vertices|
      invariant Buffers(zBuf[..], img[..]) == DrawAll(Initial(), model.vertices[..i])
    {
      assert model.vertices[..i + 1][..i] == model.vertices[..i];
      DrawPx(model.vertices[i], img, zBuf);
      i := i + 1;
    }
    assert model.vertices[..i] == model.vertices;
    var j := 0;
    while j < |model.tris|
      invariant 0 <= j <= |model.tris|
      invariant Buffers(zBuf[..], img[..]) ==
        RenderTris(DrawAll(Initial(), model.vertices), model.tris[..j], model.vertices)
    {
      assert model.tris[..j + 1][..j] == model.tris[..j];
      RenderTri(model.tris[j], model.vertices, img, zBuf);
      j := j + 1;
    }
    assert model.tris[..j] == model.tris;
  }
}
