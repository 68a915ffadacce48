/**
  Canvas geometry helpers (ui/src/components/nodes/utils.tsx): which side of a node an
  edge leaves from, and the helper lines a dragged node snaps to.
*/
module NodeUtils {
  import opened Wrappers
  import opened Flow

  // ---------------------------------------------------------------------------
  // Edge sides
  // ---------------------------------------------------------------------------

  /** A node's absolute position and measured size, as reactflow reports them once rendered. */
  datatype Rect = Rect(x: real, y: real, width: real, height: real)

  /** reactflow's `Position`: the side of a node a handle sits on. */
  datatype Side = Left | Right | Top | Bottom

  /** The absolute coordinates of a node's source handle on each side. */
  datatype Anchors = Anchors(left: Point, right: Point, top: Point, bottom: Point) {
    function At(side: Side): Point {
      match side
      case Left => left
      case Right => right
      case Top => top
      case Bottom => bottom
    }
  }

  /** `getNodeCenter`: the point halfway across and halfway down the node. */
  function GetNodeCenter(n: Rect): (c: Point)
    ensures c.x - n.x == n.x + n.width - c.x
    ensures c.y - n.y == n.y + n.height - c.y
  {
    Point(n.x + n.width / 2.0, n.y + n.height / 2.0)
  }

  /**
    The side selection of `getParams`: a horizontal handle when the centres are further
    apart horizontally than vertically, a vertical one otherwise (ties go vertical), always
    on the side of `a` that faces `b`.
  */
  function GetSide(a: Rect, b: Rect): (s: Side)
    ensures var ca, cb := GetNodeCenter(a), GetNodeCenter(b);
      ((s == Left || s == Right) <==> Abs(ca.x - cb.x) > Abs(ca.y - cb.y))
      && (s == Left ==> ca.x > cb.x) && (s == Right ==> ca.x <= cb.x)
      && (s == Top ==> ca.y > cb.y) && (s == Bottom ==> ca.y <= cb.y)
  {
    var ca := GetNodeCenter(a);
    var cb := GetNodeCenter(b);
    if Abs(ca.x - cb.x) > Abs(ca.y - cb.y) then
      if ca.x > cb.x then Left else Right
    else
      if ca.y > cb.y then Top else Bottom
  }

  predicate Opposite(s: Side, t: Side) {
    (s == Left && t == Right) || (s == Right && t == Left)
    || (s == Top && t == Bottom) || (s == Bottom && t == Top)
  }

  /** Two nodes with distinct centres pick facing sides: the edge runs between facing handles. */
  lemma SidesOpposite(a: Rect, b: Rect)
    requires GetNodeCenter(a) != GetNodeCenter(b)
    ensures Opposite(GetSide(a, b), GetSide(b, a))
  {
    var ca, cb := GetNodeCenter(a), GetNodeCenter(b);
    assert Abs(ca.x - cb.x) == Abs(cb.x - ca.x);
    assert Abs(ca.y - cb.y) == Abs(cb.y - ca.y);
  }

  /** `getParams`: the chosen side and the handle on it. */
  datatype Params = Params(x: real, y: real, side: Side)

  function GetParams(a: Rect, b: Rect, anchors: Anchors): (p: Params)
    ensures p.side == GetSide(a, b)
    ensures Point(p.x, p.y) == anchors.At(p.side)
  {
    var side := GetSide(a, b);
    Params(anchors.At(side).x, anchors.At(side).y, side)
  }

  /** `getEdgeParams`: where a floating edge starts and ends. */
  datatype EdgeParams = EdgeParams(sx: real, sy: real, tx: real, ty: real, sourcePos: Side, targetPos: Side)

  function GetEdgeParams(source: Rect, target: Rect, sourceAnchors: Anchors, targetAnchors: Anchors): (e: EdgeParams)
    ensures Point(e.sx, e.sy) == sourceAnchors.At(e.sourcePos)
    ensures Point(e.tx, e.ty) == targetAnchors.At(e.targetPos)
    ensures GetNodeCenter(source) != GetNodeCenter(target) ==> Opposite(e.sourcePos, e.targetPos)
  {
    var s := GetParams(source, target, sourceAnchors);
    var t := GetParams(target, source, targetAnchors);
    if GetNodeCenter(source) != GetNodeCenter(target) then SidesOpposite(source, target); EdgeParams(s.x, s.y, t.x, t.y, s.side, t.side)
    else EdgeParams(s.x, s.y, t.x, t.y, s.side, t.side)
  }

  // ---------------------------------------------------------------------------
  // Helper lines
  // ---------------------------------------------------------------------------

  /** A drag step: the node being moved and its new position, when the change has one. */
  datatype PositionChange = PositionChange(id: string, position: Option<Point>)

  /** `vertical` is a guide's x and `horizontal` a guide's y; `snapX`/`snapY` the snapped position. */
  datatype HelperLines = HelperLines(horizontal: Option<real>, vertical: Option<real>, snapX: Option<real>, snapY: Option<real>)

  const NoHelperLines := HelperLines(None, None, None, None)

  /** The default snapping distance of `getHelperLines`. */
  const DefaultDistance: real := 5.0

  datatype Bounds = Bounds(left: real, right: real, top: real, bottom: real, width: real, height: real)

  /** The box of node `n` placed at `p`; a missing width or height counts as 0. */
  function BoundsAt(p: Point, n: Node): (b: Bounds)
    ensures b.left == p.x && b.top == p.y
    ensures b.right == b.left + b.width && b.bottom == b.top + b.height
  {
    var w := n.width.GetOr(0.0);
    var h := n.height.GetOr(0.0);
    Bounds(p.x, p.x + w, p.y, p.y + h, w, h)
  }

  /** `nodes.find(node => node.id === id)`: the first node with that id. */
  function Find(nodes: seq<Node>, id: string): (r: Option<Node>)
    ensures r.None? <==> forall k :: 0 <= k < |nodes| ==> nodes[k].id != id
    ensures r.Some? ==> exists k :: (0 <= k < |nodes| && nodes[k] == r.value && r.value.id == id
                                     && forall j :: 0 <= j < k ==> nodes[j].id != id)
  {
    if |nodes| == 0 then None
    else if nodes[0].id == id then Some(nodes[0])
    else
      var r := Find(nodes[1..], id);
      assert r.Some? ==> exists k :: (0 <= k < |nodes| && nodes[k] == r.value && r.value.id == id
                                       && forall j :: 0 <= j < k ==> nodes[j].id != id) by {
        if r.Some? {
          var k :| 0 <= k < |nodes[1..]| && nodes[1..][k] == r.value && r.value.id == id
            && forall j :: 0 <= j < k ==> nodes[1..][j].id != id;
          assert forall j :: 0 <= j < k + 1 ==> nodes[j].id != id by {
            forall j | 0 <= j < k + 1 ensures nodes[j].id != id {
              if j > 0 { assert nodes[j] == nodes[1..][j - 1]; }
            }
          }
        }
      }
      r
  }

  /** The axis a guide lies across: `X` for vertical guides, `Y` for horizontal ones. */
  datatype Axis = X | Y

  /**
    One snapping check: how far an edge of A is from the line, the line itself, and the
    coordinate A's box snaps to when the check is taken.
  */
  datatype Guide = Guide(dist: real, line: real, snap: real)

  /** The four checks of one other node B, in the order the source makes them. */
  function Guides(axis: Axis, a: Bounds, b: Bounds): (gs: seq<Guide>)
    ensures |gs| == 4
  {
    match axis
    case X =>
      [Guide(Abs(a.left - b.left), b.left, b.left),
       Guide(Abs(a.right - b.right), b.right, b.right - a.width),
       Guide(Abs(a.left - b.right), b.right, b.right),
       Guide(Abs(a.right - b.left), b.left, b.left - a.width)]
    case Y =>
      [Guide(Abs(a.top - b.top), b.top, b.top),
       Guide(Abs(a.bottom - b.top), b.top, b.top - a.height),
       Guide(Abs(a.bottom - b.bottom), b.bottom, b.bottom - a.height),
       Guide(Abs(a.top - b.bottom), b.bottom, b.bottom)]
  }

  /**
    A guide puts one edge of A on its line: either A's near edge (`lo`) and the snap is the
    line itself, or A's far edge (`hi`) and the snap is the line minus A's size; its
    distance is how far that edge is from the line.
  */
  predicate Aligned(g: Guide, lo: real, hi: real, size: real) {
    (g.snap == g.line && g.dist == Abs(lo - g.line))
    || (g.snap + size == g.line && g.dist == Abs(hi - g.line))
  }

  function Lo(axis: Axis, a: Bounds): real { if axis == X then a.left else a.top }
  function Hi(axis: Axis, a: Bounds): real { if axis == X then a.right else a.bottom }
  function Size(axis: Axis, a: Bounds): real { if axis == X then a.width else a.height }

  lemma GuidesAligned(axis: Axis, a: Bounds, b: Bounds)
    ensures forall g :: g in Guides(axis, a, b) ==> Aligned(g, Lo(axis, a), Hi(axis, a), Size(axis, a))
  {
  }

  /** Every check against every node other than A (`nodes.filter(node => node.id !== nodeA.id)`), in order. */
  function Candidates(axis: Axis, a: Bounds, aId: string, nodes: seq<Node>): (gs: seq<Guide>)
    ensures |gs| <= 4 * |nodes|
  {
    if |nodes| == 0 then []
    else
      var b := nodes[|nodes| - 1];
      Candidates(axis, a, aId, nodes[..|nodes| - 1])
      + (if b.id != aId then Guides(axis, a, BoundsAt(b.position, b)) else [])
  }

  lemma CandidatesAligned(axis: Axis, a: Bounds, aId: string, nodes: seq<Node>)
    ensures forall g :: g in Candidates(axis, a, aId, nodes) ==> Aligned(g, Lo(axis, a), Hi(axis, a), Size(axis, a))
  {
    if |nodes| > 0 {
      var b := nodes[|nodes| - 1];
      CandidatesAligned(axis, a, aId, nodes[..|nodes| - 1]);
      GuidesAligned(axis, a, BoundsAt(b.position, b));
    }
  }

  /** The threshold a check must beat: the distance of the guide taken so far, or `distance`. */
  function Threshold(best: Option<Guide>, distance: real): real {
    if best.Some? then best.value.dist else distance
  }

  /** One `if (d < threshold)` step: the check is taken only when strictly closer. */
  function Consider(best: Option<Guide>, g: Guide, distance: real): Option<Guide> {
    if g.dist < Threshold(best, distance) then Some(g) else best
  }

  /** The guide left standing after all checks, in order. */
  function Best(gs: seq<Guide>, distance: real): Option<Guide> {
    if |gs| == 0 then None
    else Consider(Best(gs[..|gs| - 1], distance), gs[|gs| - 1], distance)
  }

  /** Guide `i` is below the threshold, no check is closer, and every earlier check is further. */
  predicate IsFirstMin(gs: seq<Guide>, i: int, distance: real)
    requires 0 <= i < |gs|
  {
    gs[i].dist < distance
    && (forall j :: 0 <= j < |gs| ==> gs[i].dist <= gs[j].dist)
    && (forall j :: 0 <= j < i ==> gs[i].dist < gs[j].dist)
  }

  /** The running selection keeps the first minimum-distance check below the threshold. */
  lemma {:induction false} BestIsFirstMin(gs: seq<Guide>, distance: real)
    ensures Best(gs, distance).None? <==> forall j :: 0 <= j < |gs| ==> gs[j].dist >= distance
    ensures Best(gs, distance).Some? ==>
      exists i :: 0 <= i < |gs| && gs[i] == Best(gs, distance).value && IsFirstMin(gs, i, distance)
  {
    if |gs| > 0 {
      var n := |gs| - 1;
      var p := gs[..n];
      var g := gs[n];
      BestIsFirstMin(p, distance);
      assert forall j :: 0 <= j < n ==> gs[j] == p[j];
      var prev := Best(p, distance);
      if prev.Some? {
        var i :| 0 <= i < n && p[i] == prev.value && IsFirstMin(p, i, distance);
        if g.dist < prev.value.dist {
          assert IsFirstMin(gs, n, distance);
        } else {
          assert IsFirstMin(gs, i, distance);
        }
      } else if g.dist < distance {
        assert IsFirstMin(gs, n, distance);
      }
    }
  }

  lemma BestSnoc(gs: seq<Guide>, g: Guide, distance: real)
    ensures Best(gs + [g], distance) == Consider(Best(gs, distance), g, distance)
  {
    assert (gs + [g])[..|gs|] == gs;
  }

  function LineOf(best: Option<Guide>): Option<real> {
    if best.Some? then Some(best.value.line) else None
  }

  function SnapOf(best: Option<Guide>): Option<real> {
    if best.Some? then Some(best.value.snap) else None
  }

  /** The result `getHelperLines` builds, axis by axis, from the checks in order. */
  function HelperLinesOf(change: PositionChange, nodes: seq<Node>, distance: real): HelperLines {
    var nodeA := Find(nodes, change.id);
    if nodeA.None? || change.position.None? then NoHelperLines
    else
      var a := BoundsAt(change.position.value, nodeA.value);
      var v := Best(Candidates(X, a, nodeA.value.id, nodes), distance);
      var h := Best(Candidates(Y, a, nodeA.value.id, nodes), distance);
      HelperLines(LineOf(h), LineOf(v), SnapOf(v), SnapOf(h))
  }

  /**
    What the helper lines mean: without a known node or a position nothing is set; on
    each axis the guide is set exactly when the snap is, it is the first closest check
    strictly within `distance` (none when no check is), and the snap puts one of A's
    edges on it.
  */
  lemma HelperLinesSnap(change: PositionChange, nodes: seq<Node>, distance: real, axis: Axis)
    ensures var r := HelperLinesOf(change, nodes, distance);
      Find(nodes, change.id).None? || change.position.None? ==> r == NoHelperLines
    ensures var r := HelperLinesOf(change, nodes, distance);
      var line := if axis == X then r.vertical else r.horizontal;
      var snap := if axis == X then r.snapX else r.snapY;
      (line.Some? <==> snap.Some?)
      && (Find(nodes, change.id).Some? && change.position.Some? ==>
        var a := BoundsAt(change.position.value, Find(nodes, change.id).value);
        var gs := Candidates(axis, a, change.id, nodes);
        (line.None? <==> forall j :: 0 <= j < |gs| ==> gs[j].dist >= distance)
        && (line.Some? ==> exists i :: (0 <= i < |gs| && gs[i].line == line.value && gs[i].snap == snap.value
                                         && IsFirstMin(gs, i, distance) && Aligned(gs[i], Lo(axis, a), Hi(axis, a), Size(axis, a)))))
  {
    var nodeA := Find(nodes, change.id);
    if nodeA.Some? && change.position.Some? {
      var a := BoundsAt(change.position.value, nodeA.value);
      var gs := Candidates(axis, a, change.id, nodes);
      BestIsFirstMin(gs, distance);
      CandidatesAligned(axis, a, change.id, nodes);
    }
  }

  /** The checks of `gs`, one after the other, starting from the selection `best`. */
  function ConsiderAll(best: Option<Guide>, gs: seq<Guide>, distance: real): Option<Guide>
    decreases |gs|
  {
    if |gs| == 0 then best else ConsiderAll(Consider(best, gs[0], distance), gs[1..], distance)
  }

  lemma {:induction false} BestAppend(xs: seq<Guide>, gs: seq<Guide>, distance: real)
    ensures Best(xs + gs, distance) == ConsiderAll(Best(xs, distance), gs, distance)
    decreases |gs|
  {
    if |gs| == 0 {
      assert xs + gs == xs;
    } else {
      BestSnoc(xs, gs[0], distance);
      assert xs + gs == (xs + [gs[0]]) + gs[1..];
      BestAppend(xs + [gs[0]], gs[1..], distance);
    }
  }

  lemma ConsiderFour(best: Option<Guide>, gs: seq<Guide>, distance: real)
    requires |gs| == 4
    ensures ConsiderAll(best, gs, distance)
      == Consider(Consider(Consider(Consider(best, gs[0], distance), gs[1], distance), gs[2], distance), gs[3], distance)
  {
    var b1 := Consider(best, gs[0], distance);
    var b2 := Consider(b1, gs[1], distance);
    var b3 := Consider(b2, gs[2], distance);
    var b4 := Consider(b3, gs[3], distance);
    assert ConsiderAll(b4, gs[4..], distance) == b4;
    assert ConsiderAll(b3, gs[3..], distance) == b4 by { assert gs[3..][1..] == gs[4..]; }
    assert ConsiderAll(b2, gs[2..], distance) == b4 by { assert gs[2..][1..] == gs[3..]; }
    assert ConsiderAll(b1, gs[1..], distance) == b4 by { assert gs[1..][1..] == gs[2..]; }
  }

  /**
    What one axis of the reduce keeps between checks: the guide line (`vertical` or
    `horizontal`), the snapped coordinate and the distance a later check must beat.
  */
  datatype AxisState = AxisState(line: Option<real>, snap: Option<real>, threshold: real)

  /** The axis state holds the running selection `best`. */
  predicate Tracks(s: AxisState, best: Option<Guide>, distance: real) {
    s.line == LineOf(best) && s.snap == SnapOf(best) && s.threshold == Threshold(best, distance)
  }

  /** One check: taken, and the threshold lowered, only when strictly below the threshold. */
  lemma StepTracks(s: AxisState, best: Option<Guide>, g: Guide, distance: real)
    requires Tracks(s, best, distance)
    ensures g.dist < s.threshold ==> Tracks(AxisState(Some(g.line), Some(g.snap), g.dist), Consider(best, g, distance), distance)
    ensures g.dist >= s.threshold ==> Tracks(s, Consider(best, g, distance), distance)
  {
  }

  /** The four x-axis checks the reduce callback makes against node B. */
  method SnapVertical(a: Bounds, b: Bounds, s: AxisState, ghost best: Option<Guide>, ghost distance: real) returns (t: AxisState)
    requires Tracks(s, best, distance)
    ensures Tracks(t, ConsiderAll(best, Guides(X, a, b), distance), distance)
  {
    ghost var gs := Guides(X, a, b);
    ConsiderFour(best, gs, distance);
    var vertical, snapX, verticalDistance := s.line, s.snap, s.threshold;
    ghost var cur := best;

    var distanceLeftLeft := Abs(a.left - b.left);
    StepTracks(AxisState(vertical, snapX, verticalDistance), cur, gs[0], distance);
    if distanceLeftLeft < verticalDistance {
      snapX, vertical := Some(b.left), Some(b.left);
      verticalDistance := distanceLeftLeft;
    }
    cur := Consider(cur, gs[0], distance);

    var distanceRightRight := Abs(a.right - b.right);
    StepTracks(AxisState(vertical, snapX, verticalDistance), cur, gs[1], distance);
    if distanceRightRight < verticalDistance {
      snapX, vertical := Some(b.right - a.width), Some(b.right);
      verticalDistance := distanceRightRight;
    }
    cur := Consider(cur, gs[1], distance);

    var distanceLeftRight := Abs(a.left - b.right);
    StepTracks(AxisState(vertical, snapX, verticalDistance), cur, gs[2], distance);
    if distanceLeftRight < verticalDistance {
      snapX, vertical := Some(b.right), Some(b.right);
      verticalDistance := distanceLeftRight;
    }
    cur := Consider(cur, gs[2], distance);

    var distanceRightLeft := Abs(a.right - b.left);
    StepTracks(AxisState(vertical, snapX, verticalDistance), cur, gs[3], distance);
    if distanceRightLeft < verticalDistance {
      snapX, vertical := Some(b.left - a.width), Some(b.left);
      verticalDistance := distanceRightLeft;
    }
    t := AxisState(vertical, snapX, verticalDistance);
  }

  /** The four y-axis checks the reduce callback makes against node B. */
  method SnapHorizontal(a: Bounds, b: Bounds, s: AxisState, ghost best: Option<Guide>, ghost distance: real) returns (t: AxisState)
    requires Tracks(s, best, distance)
    ensures Tracks(t, ConsiderAll(best, Guides(Y, a, b), distance), distance)
  {
    ghost var gs := Guides(Y, a, b);
    ConsiderFour(best, gs, distance);
    var horizontal, snapY, horizontalDistance := s.line, s.snap, s.threshold;
    ghost var cur := best;

    var distanceTopTop := Abs(a.top - b.top);
    StepTracks(AxisState(horizontal, snapY, horizontalDistance), cur, gs[0], distance);
    if distanceTopTop < horizontalDistance {
      snapY, horizontal := Some(b.top), Some(b.top);
      horizontalDistance := distanceTopTop;
    }
    cur := Consider(cur, gs[0], distance);

    var distanceBottomTop := Abs(a.bottom - b.top);
    StepTracks(AxisState(horizontal, snapY, horizontalDistance), cur, gs[1], distance);
    if distanceBottomTop < horizontalDistance {
      snapY, horizontal := Some(b.top - a.height), Some(b.top);
      horizontalDistance := distanceBottomTop;
    }
    cur := Consider(cur, gs[1], distance);

    var distanceBottomBottom := Abs(a.bottom - b.bottom);
    StepTracks(AxisState(horizontal, snapY, horizontalDistance), cur, gs[2], distance);
    if distanceBottomBottom < horizontalDistance {
      snapY, horizontal := Some(b.bottom - a.height), Some(b.bottom);
      horizontalDistance := distanceBottomBottom;
    }
    cur := Consider(cur, gs[2], distance);

    var distanceTopBottom := Abs(a.top - b.bottom);
    StepTracks(AxisState(horizontal, snapY, horizontalDistance), cur, gs[3], distance);
    if distanceTopBottom < horizontalDistance {
      snapY, horizontal := Some(b.bottom), Some(b.bottom);
      horizontalDistance := distanceTopBottom;
    }
    t := AxisState(horizontal, snapY, horizontalDistance);
  }

  /**
    `getHelperLines(change, nodes, distance)`: the reduce over the nodes other than A; the
    callback's checks on the two axes touch disjoint variables and are made axis by axis.
  */
  method GetHelperLines(change: PositionChange, nodes: seq<Node>, distance: real) returns (r: HelperLines)
    ensures r == HelperLinesOf(change, nodes, distance)
  {
    var nodeA := Find(nodes, change.id);
    if nodeA.None? || change.position.None? {
      return NoHelperLines;
    }
    var a := BoundsAt(change.position.value, nodeA.value);
    var xAxis := AxisState(None, None, distance);
    var yAxis := AxisState(None, None, distance);
    ghost var xs: seq<Guide> := [];
    ghost var ys: seq<Guide> := [];
    var i := 0;
    while i < |nodes|
      invariant 0 <= i <= |nodes|
      invariant xs == Candidates(X, a, nodeA.value.id, nodes[..i])
      invariant ys == Candidates(Y, a, nodeA.value.id, nodes[..i])
      invariant Tracks(xAxis, Best(xs, distance), distance)
      invariant Tracks(yAxis, Best(ys, distance), distance)
    {
      var nodeB := nodes[i];
      assert nodes[..i + 1][..i] == nodes[..i];
      if nodeB.id != nodeA.value.id {
        var b := BoundsAt(nodeB.position, nodeB);
        BestAppend(xs, Guides(X, a, b), distance);
        BestAppend(ys, Guides(Y, a, b), distance);
        xAxis := SnapVertical(a, b, xAxis, Best(xs, distance), distance);
        yAxis := SnapHorizontal(a, b, yAxis, Best(ys, distance), distance);
        xs := xs + Guides(X, a, b);
        ys := ys + Guides(Y, a, b);
      }
      i := i + 1;
    }
    assert nodes[..i] == nodes;
    r := HelperLines(yAxis.line, xAxis.line, xAxis.snap, yAxis.snap);
  }
}
