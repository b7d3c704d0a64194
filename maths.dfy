/**
 * Two-dimensional linear algebra over exact reals (src/maths.ts).
 * `Vec2` and `Mat2` are value objects: every operation returns a new value.
 * `Mat2(a, b, c, d)` is column-major, that is, the matrix
 *     | a  c |
 *     | b  d |
 */
module Maths {

  datatype Vec2 = Vec2(x: real, y: real) {

    function Plus(rhs: Vec2): Vec2 {
      Vec2(x + rhs.x, y + rhs.y)
    }

    function Minus(rhs: Vec2): Vec2 {
      Vec2(x - rhs.x, y - rhs.y)
    }

    function Scale(f: real): Vec2 {
      Vec2(f * x, f * y)
    }

    /** Squared Euclidean length; `len()` is its square root. */
    function LenSquared(): real {
      x * x + y * y
    }

    /**
     * `scaleTo(target)`: the vector rescaled to length `target`, or the vector
     * itself when its length is zero. The length, a square root, is supplied
     * by the caller as `currentLen`.
     */
    function ScaleTo(target: real, currentLen: real): (r: Vec2)
      requires currentLen >= 0.0 && currentLen * currentLen == LenSquared()
      ensures x == 0.0 && y == 0.0 ==> r == this
      ensures currentLen != 0.0 ==> r.LenSquared() == target * target
    {
      if currentLen == 0.0 then this
      else
        var f := target / currentLen;
        ScaleLenSquared(this, f);
        assert f * f * LenSquared() == target * target by {
          assert f * currentLen == target;
          assert f * f * (currentLen * currentLen) == (f * currentLen) * (f * currentLen);
        }
        Scale(f)
    }
  }

  lemma ScaleLenSquared(p: Vec2, f: real)
    ensures p.Scale(f).LenSquared() == f * f * p.LenSquared()
  {
    calc {
      p.Scale(f).LenSquared();
      (f * p.x) * (f * p.x) + (f * p.y) * (f * p.y);
      f * f * (p.x * p.x) + f * f * (p.y * p.y);
      f * f * p.LenSquared();
    }
  }

  /** `plus`, `minus` and `scale` act on each coordinate separately. */
  lemma VecComponentwise(p: Vec2, q: Vec2, f: real)
    ensures p.Plus(q).x == p.x + q.x && p.Plus(q).y == p.y + q.y
    ensures p.Minus(q).x == p.x - q.x && p.Minus(q).y == p.y - q.y
    ensures p.Scale(f).x == f * p.x && p.Scale(f).y == f * p.y
  {}

  /** Subtracting and adding back the same vector is the identity, in either order. */
  lemma MinusPlusCancel(p: Vec2, q: Vec2)
    ensures p.Minus(q).Plus(q) == p
    ensures p.Plus(q).Minus(q) == p
  {}

  datatype Mat2 = Mat2(a: real, b: real, c: real, d: real) {

    function Det(): real {
      a * d - b * c
    }

    function TimesVec(rhs: Vec2): Vec2 {
      Vec2(a * rhs.x + c * rhs.y, b * rhs.x + d * rhs.y)
    }

    function Scale(f: real): Mat2 {
      Mat2(f * a, f * b, f * c, f * d)
    }

    function Transpose(): Mat2 {
      Mat2(a, c, b, d)
    }

    /** First and second column. */
    function Col1(): Vec2 { Vec2(a, b) }
    function Col2(): Vec2 { Vec2(c, d) }

    /**
     * `leftInv()` exactly as the source computes it: the adjugate is written
     * `Mat2(d, -c, -b, a)`, which under the column-major reading of
     * `timesVec` is the adjugate of the transpose. See `LeftInvAsWrittenFails`.
     */
    function LeftInvAsWritten(): Mat2
      requires Det() != 0.0
    {
      Mat2(d, -c, -b, a).Scale(1.0 / Det())
    }

    /** The two-sided inverse the name `leftInv` promises: the adjugate `Mat2(d, -b, -c, a)` over the determinant. */
    function LeftInv(): (r: Mat2)
      requires Det() != 0.0
      ensures r.Det() != 0.0
    {
      var f := 1.0 / Det();
      var r := Mat2(d, -b, -c, a).Scale(f);
      assert r.Det() == f * f * Det() by {
        calc {
          r.Det();
          (f * d) * (f * a) - (f * -b) * (f * -c);
          f * f * (a * d - b * c);
        }
      }
      assert f * Det() == 1.0;
      r
    }
  }

  /** `timesVec` follows the column-major layout: x times the first column plus y times the second. */
  lemma TimesVecColumns(m: Mat2, p: Vec2)
    ensures m.TimesVec(p) == m.Col1().Scale(p.x).Plus(m.Col2().Scale(p.y))
  {}

  /** `timesVec` is linear. */
  lemma TimesVecLinear(m: Mat2, p: Vec2, q: Vec2, f: real)
    ensures m.TimesVec(p.Plus(q)) == m.TimesVec(p).Plus(m.TimesVec(q))
    ensures m.TimesVec(p.Scale(f)) == m.TimesVec(p).Scale(f)
  {
    assert m.a * (p.x + q.x) + m.c * (p.y + q.y) == (m.a * p.x + m.c * p.y) + (m.a * q.x + m.c * q.y);
    assert m.b * (p.x + q.x) + m.d * (p.y + q.y) == (m.b * p.x + m.d * p.y) + (m.b * q.x + m.d * q.y);
    assert m.a * (f * p.x) + m.c * (f * p.y) == f * (m.a * p.x + m.c * p.y);
    assert m.b * (f * p.x) + m.d * (f * p.y) == f * (m.b * p.x + m.d * p.y);
  }

  /** Scaling a matrix scales every entry, and so scales every product with it. */
  lemma ScaleTimesVec(m: Mat2, f: real, p: Vec2)
    ensures m.Scale(f) == Mat2(f * m.a, f * m.b, f * m.c, f * m.d)
    ensures m.Scale(f).TimesVec(p) == m.TimesVec(p).Scale(f)
  {}

  /** The corrected inverse undoes the matrix, applied after it. */
  lemma LeftInvUndoesTimesVec(m: Mat2, p: Vec2)
    requires m.Det() != 0.0
    ensures m.LeftInv().TimesVec(m.TimesVec(p)) == p
  {
    var det := m.Det();
    var f := 1.0 / det;
    var q := m.TimesVec(p);
    var r := m.LeftInv().TimesVec(q);
    assert f * det == 1.0;
    calc {
      r.x;
      (f * m.d) * q.x + (f * -m.c) * q.y;
      f * (m.d * (m.a * p.x + m.c * p.y) - m.c * (m.b * p.x + m.d * p.y));
      f * (det * p.x);
      p.x;
    }
    calc {
      r.y;
      (f * -m.b) * q.x + (f * m.a) * q.y;
      f * (m.a * (m.b * p.x + m.d * p.y) - m.b * (m.a * p.x + m.c * p.y));
      f * (det * p.y);
      p.y;
    }
  }

  /** The corrected inverse is also a right inverse: the matrix undoes it. */
  lemma TimesVecUndoesLeftInv(m: Mat2, p: Vec2)
    requires m.Det() != 0.0
    ensures m.TimesVec(m.LeftInv().TimesVec(p)) == p
  {
    var det := m.Det();
    var f := 1.0 / det;
    var q := m.LeftInv().TimesVec(p);
    var r := m.TimesVec(q);
    assert f * det == 1.0;
    assert q.x == f * (m.d * p.x - m.c * p.y);
    assert q.y == f * (m.a * p.y - m.b * p.x);
    calc {
      r.x;
      m.a * q.x + m.c * q.y;
      f * (m.a * (m.d * p.x - m.c * p.y) + m.c * (m.a * p.y - m.b * p.x));
      f * (det * p.x);
      p.x;
    }
    calc {
      r.y;
      m.b * q.x + m.d * q.y;
      f * (m.b * (m.d * p.x - m.c * p.y) + m.d * (m.a * p.y - m.b * p.x));
      f * (det * p.y);
      p.y;
    }
  }

  /** The source's `leftInv` is the corrected inverse of the transposed matrix. */
  lemma LeftInvAsWrittenIsTransposedInverse(m: Mat2)
    requires m.Det() != 0.0
    ensures m.Transpose().Det() == m.Det()
    ensures m.LeftInvAsWritten() == m.Transpose().LeftInv()
  {}

  /**
   * The source's `leftInv` undoes `timesVec` on the first unit vector exactly
   * when the matrix is symmetric; for any other invertible matrix it is not
   * a left inverse.
   */
  lemma LeftInvAsWrittenUndoesIffSymmetric(m: Mat2)
    requires m.Det() != 0.0
    ensures m.LeftInvAsWritten().TimesVec(m.TimesVec(Vec2(1.0, 0.0))) == Vec2(1.0, 0.0) <==> m.b == m.c
  {
    var t := m.Transpose();
    var e1 := Vec2(1.0, 0.0);
    LeftInvAsWrittenIsTransposedInverse(m);
    if m.b == m.c {
      assert t == m;
      LeftInvUndoesTimesVec(m, e1);
    } else {
      var q := m.LeftInvAsWritten().TimesVec(m.TimesVec(e1));
      TimesVecUndoesLeftInv(t, m.TimesVec(e1));
      assert t.TimesVec(q) == m.TimesVec(e1);
      assert m.TimesVec(e1) == Vec2(m.a, m.b);
      assert t.TimesVec(e1) == Vec2(m.a, m.c);
    }
  }

  /**
   * A concrete witness: for the shear `Mat2(1, 1, 0, 1)` (determinant 1) the
   * source's `leftInv` does not bring `M.timesVec((1, 0))` back to `(1, 0)`.
   */
  lemma LeftInvAsWrittenFails()
    ensures Mat2(1.0, 1.0, 0.0, 1.0).Det() == 1.0
    ensures Mat2(1.0, 1.0, 0.0, 1.0).LeftInvAsWritten().TimesVec(
              Mat2(1.0, 1.0, 0.0, 1.0).TimesVec(Vec2(1.0, 0.0))) != Vec2(1.0, 0.0)
  {
    LeftInvAsWrittenUndoesIffSymmetric(Mat2(1.0, 1.0, 0.0, 1.0));
  }

  /**
   * The basis matrix both callers build, `Mat2(u.x, v.x, u.y, v.y)`, has the
   * edge vectors as rows; inverting it with the source's `leftInv` gives
   * the same matrix as inverting the matrix whose columns are `u` and `v`
   * with the corrected inverse. The two transpositions cancel.
   */
  lemma BasisInverseAgrees(u: Vec2, v: Vec2)
    requires Mat2(u.x, u.y, v.x, v.y).Det() != 0.0
    ensures Mat2(u.x, v.x, u.y, v.y).Det() == Mat2(u.x, u.y, v.x, v.y).Det()
    ensures Mat2(u.x, v.x, u.y, v.y).LeftInvAsWritten() == Mat2(u.x, u.y, v.x, v.y).LeftInv()
  {
    LeftInvAsWrittenIsTransposedInverse(Mat2(u.x, v.x, u.y, v.y));
  }
}
