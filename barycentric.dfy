/**
 * The drag state machine, the screen-space maps and the barycentric
 * decomposition of src/BarycentricDemo.tsx. The triangle's corners and the
 * point are kept relative to `origin`, with y pointing up; the screen has y
 * pointing down.
 */
module Barycentric {
  import opened Wrappers
  import opened Maths

  datatype DragSubject = Origin | Tri1 | Tri2 | Tri3 | Pt

  /** `origin` relative to the drawing; the corners and the point relative to `origin`. */
  datatype State = State(origin: Vec2, tri1: Vec2, tri2: Vec2, tri3: Vec2, pt: Vec2,
                         drag: Option<DragSubject>)

  /** The actions the reducer tells apart; `Other` stands for any other action type. */
  datatype Action = MoveMouse(payload: Vec2) | StartDrag(subject: DragSubject) | StopDrag | Other

  const InitState: State :=
    State(Vec2(140.0, 500.0), Vec2(160.0, 140.0), Vec2(280.0, 400.0), Vec2(500.0, 200.0),
          Vec2(340.0, 270.0), None)

  /** The names of the point-valued fields of `State`. */
  predicate IsPointKey(key: string) {
    key == "origin" || key == "tri1" || key == "tri2" || key == "tri3" || key == "pt"
  }

  /** `dragSubjectToKey(drag)`: the field of `State` a subject moves. */
  function DragSubjectToKey(drag: DragSubject): (key: string)
    ensures IsPointKey(key) && key != "drag"
  {
    match drag
    case Origin => "origin"
    case Pt => "pt"
    case Tri1 => "tri1"
    case Tri2 => "tri2"
    case Tri3 => "tri3"
  }

  /** The five subjects have five different keys. */
  lemma DragSubjectToKeyInjective(d1: DragSubject, d2: DragSubject)
    ensures DragSubjectToKey(d1) == DragSubjectToKey(d2) <==> d1 == d2
  {}

  /** `{ ...state, [key]: value }` for a point-valued field. */
  function WithKey(s: State, key: string, value: Vec2): State
    requires IsPointKey(key)
  {
    if key == "origin" then s.(origin := value)
    else if key == "tri1" then s.(tri1 := value)
    else if key == "tri2" then s.(tri2 := value)
    else if key == "tri3" then s.(tri3 := value)
    else s.(pt := value)
  }

  /** The `toScreenSpace` closure of the component, given the state's `origin`. */
  function ToScreenSpace(origin: Vec2, pt: Vec2): Vec2 {
    Vec2(origin.x + pt.x, origin.y - pt.y)
  }

  /** `fromScreenSpace(origin, pt)`: the point relative to `origin` that is drawn at `pt`. */
  function FromScreenSpace(origin: Vec2, pt: Vec2): (r: Vec2)
    ensures ToScreenSpace(origin, r) == pt
  {
    Vec2(pt.x - origin.x, origin.y - pt.y)
  }

  /** The two maps are inverse to each other, in both orders. */
  lemma ScreenSpaceRoundTrip(origin: Vec2, pt: Vec2)
    ensures FromScreenSpace(origin, ToScreenSpace(origin, pt)) == pt
    ensures ToScreenSpace(origin, FromScreenSpace(origin, pt)) == pt
  {}

  /**
   * `reducer(state, action)`. `START_DRAG` and `STOP_DRAG` set or clear the
   * subject; only `MOVE_MOUSE` moves a point, and only the dragged one.
   */
  function Reducer(s: State, action: Action): (r: State)
    ensures action.StartDrag? ==> r.drag == Some(action.subject)
    ensures action.StopDrag? ==> r.drag == None
    ensures action.MoveMouse? || action.Other? ==> r.drag == s.drag
    ensures forall e :: Field(r, e) != Field(s, e) ==> action.MoveMouse? && s.drag == Some(e)
  {
    match action
    case MoveMouse(payload) =>
      if s.drag.None? then s
      else
        var key := DragSubjectToKey(s.drag.value);
        if key == "origin" then WithKey(s, key, payload)
        else WithKey(s, key, FromScreenSpace(s.origin, payload))
    case StartDrag(subject) => s.(drag := Some(subject))
    case StopDrag => s.(drag := None)
    case Other => s
  }

  /** The field a subject names. */
  function Field(s: State, d: DragSubject): Vec2 {
    match d
    case Origin => s.origin
    case Tri1 => s.tri1
    case Tri2 => s.tri2
    case Tri3 => s.tri3
    case Pt => s.pt
  }

  /** Where a subject is drawn on the screen. */
  function ScreenPos(s: State, d: DragSubject): Vec2 {
    if d == Origin then s.origin else ToScreenSpace(s.origin, Field(s, d))
  }

  /** Moving the mouse with nothing dragged changes nothing. */
  lemma MoveMouseIdle(s: State, mouse: Vec2)
    requires s.drag.None?
    ensures Reducer(s, MoveMouse(mouse)) == s
  {}

  /** `START_DRAG` records the subject and moves no point; `STOP_DRAG` forgets it and moves no point. */
  lemma StartStopDrag(s: State, d: DragSubject)
    ensures Reducer(s, StartDrag(d)).drag == Some(d)
    ensures Reducer(s, StopDrag).drag == None
    ensures forall e :: Field(Reducer(s, StartDrag(d)), e) == Field(s, e)
    ensures forall e :: Field(Reducer(s, StopDrag), e) == Field(s, e)
  {}

  /** Any other action changes nothing. */
  lemma OtherActionIdle(s: State)
    ensures Reducer(s, Other) == s
  {}

  /**
   * Moving the mouse while dragging sets the dragged field (to the mouse
   * position itself for `origin`, to its position relative to `origin`
   * otherwise) and leaves every other field, and the drag, as they were.
   */
  lemma MoveMouseDragging(s: State, mouse: Vec2)
    requires s.drag.Some?
    ensures var r := Reducer(s, MoveMouse(mouse));
      && r.drag == s.drag
      && Field(r, s.drag.value) ==
           (if s.drag.value == Origin then mouse else FromScreenSpace(s.origin, mouse))
      && forall e :: e != s.drag.value ==> Field(r, e) == Field(s, e)
  {}

  /** Whatever is dragged is drawn under the mouse after the move. */
  lemma {:induction false} DraggedFollowsMouse(s: State, mouse: Vec2)
    requires s.drag.Some?
    ensures ScreenPos(Reducer(s, MoveMouse(mouse)), s.drag.value) == mouse
  {
    MoveMouseDragging(s, mouse);
    ScreenSpaceRoundTrip(s.origin, mouse);
  }

  /**
   * Dragging a corner or the point leaves everything else where it is drawn;
   * dragging `origin` carries every other point along with it.
   */
  lemma {:induction false} OthersOnScreen(s: State, mouse: Vec2, e: DragSubject)
    requires s.drag.Some? && e != s.drag.value
    ensures var r := Reducer(s, MoveMouse(mouse));
      if s.drag.value == Origin
      then ScreenPos(r, e) == ScreenPos(s, e).Plus(mouse.Minus(s.origin))
      else ScreenPos(r, e) == ScreenPos(s, e)
  {
    MoveMouseDragging(s, mouse);
  }

  // ------------------------------------------------------------ the decomposition

  /** The corners and the point in screen space: `[t1, t2, t3, p]`. */
  function T1(s: State): Vec2 { ToScreenSpace(s.origin, s.tri1) }
  function T2(s: State): Vec2 { ToScreenSpace(s.origin, s.tri2) }
  function T3(s: State): Vec2 { ToScreenSpace(s.origin, s.tri3) }
  function P(s: State): Vec2 { ToScreenSpace(s.origin, s.pt) }

  /** The matrix the component inverts, `new Mat2(u.x, v.x, u.y, v.y)` with u = t2 - t1, v = t3 - t1. */
  function ChangeOfBasisInput(s: State): Mat2 {
    var u, v := T2(s).Minus(T1(s)), T3(s).Minus(T1(s));
    Mat2(u.x, v.x, u.y, v.y)
  }

  /** A triangle whose corners are not on one line. */
  predicate NonDegenerate(s: State) {
    ChangeOfBasisInput(s).Det() != 0.0
  }

  /** `baryCoords`: the coordinates of p - t1 in the basis u = t2 - t1, v = t3 - t1. */
  function BaryCoords(s: State): (bc: Vec2)
    requires NonDegenerate(s)
    ensures var u, v, q := T2(s).Minus(T1(s)), T3(s).Minus(T1(s)), P(s).Minus(T1(s));
      u.x * bc.x + v.x * bc.y == q.x && u.y * bc.x + v.y * bc.y == q.y
  {
    var u, v, q := T2(s).Minus(T1(s)), T3(s).Minus(T1(s)), P(s).Minus(T1(s));
    BasisInverseAgrees(u, v);
    TimesVecUndoesLeftInv(Mat2(u.x, u.y, v.x, v.y), q);
    ChangeOfBasisInput(s).LeftInvAsWritten().TimesVec(q)
  }

  /** `uEnd = t1 + u·bx`. */
  function UEnd(s: State): Vec2
    requires NonDegenerate(s)
  {
    T1(s).Plus(T2(s).Minus(T1(s)).Scale(BaryCoords(s).x))
  }

  /** `vEnd = uEnd + v·by`: the end of the second arrow is the point itself. */
  function VEnd(s: State): (r: Vec2)
    requires NonDegenerate(s)
    ensures r == P(s)
  {
    CoordinatesRebuild(T1(s), T2(s), T3(s), P(s), BaryCoords(s));
    UEnd(s).Plus(T3(s).Minus(T1(s)).Scale(BaryCoords(s).y))
  }

  /** The contributions of the three corners, before display rounding. */
  function Contributions(s: State): (f: (real, real, real))
    requires NonDegenerate(s)
    ensures f.0 + f.1 + f.2 == 1.0
  {
    var bc := BaryCoords(s);
    (1.0 - bc.x - bc.y, bc.x, bc.y)
  }

  /** One coordinate of `CoordinatesRebuild`. */
  lemma RebuildCoordinate(t1: real, t2: real, t3: real, p: real, f: real, g: real)
    requires (t2 - t1) * f + (t3 - t1) * g == p - t1
    ensures t1 + f * (t2 - t1) + g * (t3 - t1) == p
    ensures (1.0 - f - g) * t1 + f * t2 + g * t3 == p
  {
    assert (1.0 - f - g) * t1 + f * t2 + g * t3 == t1 + ((t2 - t1) * f + (t3 - t1) * g);
  }

  /**
   * Coordinates `bc` of `p - t1` in the basis t2 - t1, t3 - t1 rebuild `p`,
   * both as the arrow path and as the weighted sum of the corners.
   */
  lemma {:induction false} CoordinatesRebuild(t1: Vec2, t2: Vec2, t3: Vec2, p: Vec2, bc: Vec2)
    requires Mat2(t2.x - t1.x, t2.y - t1.y, t3.x - t1.x, t3.y - t1.y).TimesVec(bc) == p.Minus(t1)
    ensures t1.Plus(t2.Minus(t1).Scale(bc.x)).Plus(t3.Minus(t1).Scale(bc.y)) == p
    ensures t1.Scale(1.0 - bc.x - bc.y).Plus(t2.Scale(bc.x)).Plus(t3.Scale(bc.y)) == p
  {
    var r := Mat2(t2.x - t1.x, t2.y - t1.y, t3.x - t1.x, t3.y - t1.y).TimesVec(bc);
    assert r.x == (t2.x - t1.x) * bc.x + (t3.x - t1.x) * bc.y;
    assert r.y == (t2.y - t1.y) * bc.x + (t3.y - t1.y) * bc.y;
    RebuildCoordinate(t1.x, t2.x, t3.x, p.x, bc.x, bc.y);
    RebuildCoordinate(t1.y, t2.y, t3.y, p.y, bc.x, bc.y);
  }

  /**
   * The arrows end at the point: t1 + bx·(t2 - t1) + by·(t3 - t1) = p, and
   * the three contributions sum to 1 and weigh the corners to the point.
   */
  lemma {:induction false} DecompositionReachesPoint(s: State)
    requires NonDegenerate(s)
    ensures VEnd(s) == P(s)
    ensures var f := Contributions(s); f.0 + f.1 + f.2 == 1.0
    ensures var f := Contributions(s);
      T1(s).Scale(f.0).Plus(T2(s).Scale(f.1)).Plus(T3(s).Scale(f.2)) == P(s)
  {
    var t1, t2, t3, p := T1(s), T2(s), T3(s), P(s);
    var u, v := t2.Minus(t1), t3.Minus(t1);
    BasisInverseAgrees(u, v);
    var m := Mat2(t2.x - t1.x, t2.y - t1.y, t3.x - t1.x, t3.y - t1.y);
    assert m == Mat2(u.x, u.y, v.x, v.y);
    TimesVecUndoesLeftInv(m, p.Minus(t1));
    CoordinatesRebuild(t1, t2, t3, p, BaryCoords(s));
  }

  /**
   * The initial triangle is not degenerate, and the initial point lies strictly
   * inside it: its contributions are (83/406, 167/406, 78/203).
   */
  lemma InitStateInside()
    ensures NonDegenerate(InitState)
    ensures Contributions(InitState) == (83.0 / 406.0, 167.0 / 406.0, 78.0 / 203.0)
    ensures BaryCoords(InitState) == Vec2(167.0 / 406.0, 78.0 / 203.0)
  {
    assert ChangeOfBasisInput(InitState) == Mat2(120.0, 340.0, -260.0, -60.0);
    var bc := BaryCoords(InitState);
    assert 120.0 * bc.x + 340.0 * bc.y == 180.0 && -260.0 * bc.x - 60.0 * bc.y == -130.0;
    assert bc == Vec2(167.0 / 406.0, 78.0 / 203.0);
  }
}
