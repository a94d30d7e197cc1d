/**
 * The lattice and the movement sampler of kcrproc.c: boundary feasibility,
 * the clamp of the bias, the four (2D) or two (1D) direction weights, the
 * fixed partition of the draw and the position update.
 */
module Lattice {

  /** A lattice position: current_x_pos, current_y_pos. */
  datatype Pos = Pos(x: int, y: int)

  /** The box_width × box_height lattice; `periodic` is the compile-time switch KCR_PBC. */
  datatype Grid = Grid(width: nat, height: nat, periodic: bool) {
    predicate Valid() { width > 0 && height > 0 }

    predicate Contains(p: Pos) { 0 <= p.x < width && 0 <= p.y < height }
  }

  /** KCR_MOD, taken to be the non-negative (Euclidean) remainder. */
  function Wrap(v: int, extent: nat): (r: int)
    requires extent > 0
    ensures 0 <= r < extent
    ensures (v - r) % extent == 0
  {
    MultipleMod(extent, v / extent);
    v % extent
  }

  /** A multiple of e leaves remainder 0. */
  lemma MultipleMod(e: int, k: int)
    requires e > 0
    ensures (e * k) % e == 0
  {
    var m, d := (e * k) % e, (e * k) / e;
    assert e * (k - d) == m;
    MultipleSign(e, k - d);
  }

  /** v differs by a multiple of e from its remainder, and from its remainder less e. */
  lemma RemainderOffsets(v: int, e: int)
    requires e > 0
    ensures (v - v % e) % e == 0
    ensures (v - (v % e - e)) % e == 0
  {
    assert v - v % e == e * (v / e);
    MultipleMod(e, v / e);
    assert v - (v % e - e) == e * (v / e + 1);
    MultipleMod(e, v / e + 1);
  }

  /** A non-zero multiple of e is at least e away from 0. */
  lemma MultipleSign(e: int, j: int)
    requires e > 0
    ensures j >= 1 ==> e * j >= e
    ensures j <= -1 ==> e * j <= -e
  {
  }

  /**
   * KCR_DIFF(a, b, extent): the signed displacement a - b, or under periodic
   * boundaries the shortest displacement around the torus (a half-extent
   * displacement counts as positive).
   */
  function Diff(a: int, b: int, extent: nat, periodic: bool): (d: int)
    requires periodic ==> extent > 0
    ensures !periodic ==> d == a - b
    ensures periodic ==> (a - b - d) % extent == 0 && -(extent as int) < 2 * d <= extent
  {
    if !periodic then a - b
    else
      var m := (a - b) % extent;
      RemainderOffsets(a - b, extent);
      if 2 * m > extent then m - extent else m
  }

  /** One step of size `delta` along a coordinate, wrapping under periodic boundaries. */
  function Shift(v: int, delta: int, extent: nat, periodic: bool): int
    requires extent > 0
  {
    if periodic then Wrap(v + delta, extent) else v + delta
  }

  /** max(-1, min(1, s)). */
  function Clamp(s: real): (c: real)
    ensures -1.0 <= c <= 1.0
    ensures -1.0 <= s <= 1.0 ==> c == s
    ensures s < -1.0 ==> c == -1.0
    ensures s > 1.0 ==> c == 1.0
  {
    if s > 1.0 then 1.0 else if s < -1.0 then -1.0 else s
  }

  /** The directions, listed in the order in which they partition the draw. */
  datatype Direction = Down | Up | Left | Right

  /** Per-direction weights (or feasibility flags) down, up, left, right. */
  datatype Weights = Weights(down: real, up: real, left: real, right: real) {
    function Total(): real { down + up + left + right }

    function Mass(d: Direction): real {
      match d
      case Down => down
      case Up => up
      case Left => left
      case Right => right
    }

    predicate NonNegative() { down >= 0.0 && up >= 0.0 && left >= 0.0 && right >= 0.0 }
  }

  predicate IsFlag(f: real) { f == 0.0 || f == 1.0 }

  predicate AreFlags(f: Weights) { IsFlag(f.down) && IsFlag(f.up) && IsFlag(f.left) && IsFlag(f.right) }

  /**
   * The feasibility flags of kcr_move_individual: every direction is open under
   * periodic boundaries; under absorbing boundaries a direction is closed exactly
   * at the matching edge of the lattice.
   */
  function Feasibility2D(g: Grid, p: Pos): (f: Weights)
    ensures AreFlags(f)
    ensures g.periodic ==> f == Weights(1.0, 1.0, 1.0, 1.0)
    ensures !g.periodic ==>
      && (f.down == 0.0 <==> p.y == 0)
      && (f.up == 0.0 <==> p.y == g.height - 1)
      && (f.left == 0.0 <==> p.x == 0)
      && (f.right == 0.0 <==> p.x == g.width - 1)
  {
    if g.periodic then Weights(1.0, 1.0, 1.0, 1.0)
    else Weights(if p.y == 0 then 0.0 else 1.0,
                 if p.y == g.height - 1 then 0.0 else 1.0,
                 if p.x == 0 then 0.0 else 1.0,
                 if p.x == g.width - 1 then 0.0 else 1.0)
  }

  /** The 2D weights: each feasibility flag times (1 ± bias)/4. */
  function Weights2D(f: Weights, sx: real, sy: real): Weights
  {
    Weights(f.down * (1.0 - sy) / 4.0, f.up * (1.0 + sy) / 4.0,
            f.left * (1.0 - sx) / 4.0, f.right * (1.0 + sx) / 4.0)
  }

  /** The fixed partition of the draw r: [0,down), then up, then left, and the rest is Right. */
  function Choose2D(w: Weights, r: real): (d: Direction)
    ensures w.NonNegative() ==>
      && (d == Down <==> r < w.down)
      && (d == Up <==> w.down <= r < w.down + w.up)
      && (d == Left <==> w.down + w.up <= r < w.down + w.up + w.left)
      && (d == Right <==> w.down + w.up + w.left <= r)
  {
    if r < w.down then Down
    else if r < w.down + w.up then Up
    else if r < w.down + w.up + w.left then Left
    else Right
  }

  /** At most one coordinate changes, by one step (wrapping under periodic boundaries). */
  predicate Adjacent(g: Grid, p: Pos, q: Pos)
    requires g.Valid()
  {
    || q == p
    || (q.x == p.x && (q.y == Shift(p.y, -1, g.height, g.periodic) || q.y == Shift(p.y, 1, g.height, g.periodic)))
    || (q.y == p.y && (q.x == Shift(p.x, -1, g.width, g.periodic) || q.x == Shift(p.x, 1, g.width, g.periodic)))
  }

  /**
   * The position update of one move. Under absorbing boundaries the Right branch
   * re-checks the right edge and leaves the position alone there.
   */
  function Step(g: Grid, p: Pos, d: Direction): (q: Pos)
    requires g.Valid()
    ensures Adjacent(g, p, q)
    ensures d == Down ==> q == Pos(p.x, Shift(p.y, -1, g.height, g.periodic))
    ensures d == Up ==> q == Pos(p.x, Shift(p.y, 1, g.height, g.periodic))
    ensures d == Left ==> q == Pos(Shift(p.x, -1, g.width, g.periodic), p.y)
    ensures d == Right && (g.periodic || p.x != g.width - 1) ==> q == Pos(Shift(p.x, 1, g.width, g.periodic), p.y)
    ensures d == Right && !g.periodic && p.x == g.width - 1 ==> q == p
  {
    match d
    case Down => Pos(p.x, Shift(p.y, -1, g.height, g.periodic))
    case Up => Pos(p.x, Shift(p.y, 1, g.height, g.periodic))
    case Left => Pos(Shift(p.x, -1, g.width, g.periodic), p.y)
    case Right =>
      if g.periodic then Pos(Wrap(p.x + 1, g.width), p.y)
      else if p.x != g.width - 1 then Pos(p.x + 1, p.y)
      else p
  }

  /**
   * The sampler of kcr_move_individual, given the clamped biases and the draw
   * u = rand()/RAND_MAX: the draw is scaled to r = u·(down+up+left+right).
   */
  function Sample2D(g: Grid, p: Pos, sx: real, sy: real, u: real): Pos
    requires g.Valid()
  {
    Step(g, p, Choose2D(Weights2D(Feasibility2D(g, p), sx, sy), u * Weights2D(Feasibility2D(g, p), sx, sy).Total()))
  }

  /** Left and right weights (or flags) of the 1D walk. */
  datatype Pair = Pair(left: real, right: real)

  /** The feasibility flags of kcr_move_individual1d. */
  function Feasibility1D(g: Grid, x: int): (f: Pair)
    ensures IsFlag(f.left) && IsFlag(f.right)
    ensures g.periodic ==> f == Pair(1.0, 1.0)
    ensures !g.periodic ==> (f.left == 0.0 <==> x == 0) && (f.right == 0.0 <==> x == g.width - 1)
  {
    if g.periodic then Pair(1.0, 1.0)
    else Pair(if x == 0 then 0.0 else 1.0, if x == g.width - 1 then 0.0 else 1.0)
  }

  /** The 1D weights: each flag times (1 ± sx)/2. */
  function Weights1D(f: Pair, sx: real): Pair
  {
    Pair(f.left * (1.0 - sx) / 2.0, f.right * (1.0 + sx) / 2.0)
  }

  /** The 1D partition of the draw: [0,left) is Left, the rest is Right. */
  function Choose1D(w: Pair, r: real): (d: Direction)
    ensures d == Left <==> r < w.left
    ensures d == Right <==> w.left <= r
  {
    if r < w.left then Left else Right
  }

  /** The sampler of kcr_move_individual1d; afterwards the y position is always 0. */
  function Sample1D(g: Grid, x: int, sx: real, u: real): (q: Pos)
    requires g.Valid()
    ensures q.y == 0
  {
    var w := Weights1D(Feasibility1D(g, x), sx);
    var q := Step(g, Pos(x, 0), Choose1D(w, u * (w.left + w.right)));
    Pos(q.x, 0)
  }

  // ---------------------------------------------------------------------------
  // Properties of the sampler
  // ---------------------------------------------------------------------------

  /** The weights asserted in [0,1] by kcr_move_individual are in [0,1], and so is their total. */
  lemma Weights2DInUnitInterval(f: Weights, sx: real, sy: real)
    requires AreFlags(f) && -1.0 <= sx <= 1.0 && -1.0 <= sy <= 1.0
    ensures var w := Weights2D(f, sx, sy);
      && 0.0 <= w.down <= 1.0 && 0.0 <= w.up <= 1.0 && 0.0 <= w.left <= 1.0 && 0.0 <= w.right <= 1.0
      && 0.0 <= w.Total() <= 1.0
  {
    var w := Weights2D(f, sx, sy);
    assert 0.0 <= w.down <= (1.0 - sy) / 4.0 by { assert f.down == 0.0 || f.down == 1.0; }
    assert 0.0 <= w.up <= (1.0 + sy) / 4.0 by { assert f.up == 0.0 || f.up == 1.0; }
    assert 0.0 <= w.left <= (1.0 - sx) / 4.0 by { assert f.left == 0.0 || f.left == 1.0; }
    assert 0.0 <= w.right <= (1.0 + sx) / 4.0 by { assert f.right == 0.0 || f.right == 1.0; }
  }

  /** The weights asserted in [0,1] by kcr_move_individual1d are in [0,1], and so is their sum. */
  lemma Weights1DInUnitInterval(f: Pair, sx: real)
    requires IsFlag(f.left) && IsFlag(f.right) && -1.0 <= sx <= 1.0
    ensures var w := Weights1D(f, sx);
      0.0 <= w.left <= 1.0 && 0.0 <= w.right <= 1.0 && 0.0 <= w.left + w.right <= 1.0
  {
    var w := Weights1D(f, sx);
    assert 0.0 <= w.left <= (1.0 - sx) / 2.0 by { assert f.left == 0.0 || f.left == 1.0; }
    assert 0.0 <= w.right <= (1.0 + sx) / 2.0 by { assert f.right == 0.0 || f.right == 1.0; }
  }

  /** The scaled draw u·total lies in [0, total]. */
  lemma ScaledDraw(u: real, total: real)
    requires 0.0 <= u <= 1.0 && 0.0 <= total
    ensures 0.0 <= u * total <= total
  {
    assert total - u * total == (1.0 - u) * total;
  }

  /**
   * A direction of zero weight is never chosen: the chosen direction carries
   * positive weight, except that a draw equal to the total falls through to Right.
   */
  lemma ChosenDirectionHasMass(w: Weights, r: real)
    requires w.NonNegative() && 0.0 <= r
    ensures var d := Choose2D(w, r); d != Right || r < w.Total() ==> w.Mass(d) > 0.0
  {
  }

  /** A 0 flag makes its weight 0 whatever the bias: at x = 0 the left weight is 0, and so on. */
  lemma ClosedDirectionHasNoMass(g: Grid, p: Pos, sx: real, sy: real)
    requires !g.periodic
    ensures var w := Weights2D(Feasibility2D(g, p), sx, sy);
      && (p.y == 0 ==> w.down == 0.0) && (p.y == g.height - 1 ==> w.up == 0.0)
      && (p.x == 0 ==> w.left == 0.0) && (p.x == g.width - 1 ==> w.right == 0.0)
  {
  }

  /**
   * A step in a direction chosen by the partition stays in bounds when every
   * direction closed by an edge carries no weight.
   */
  lemma StepOfChoiceStaysInBounds(g: Grid, p: Pos, w: Weights, r: real)
    requires g.Valid() && g.Contains(p) && 0.0 <= r
    requires !g.periodic ==>
      && (p.y == 0 ==> w.down == 0.0) && (p.y == g.height - 1 ==> w.up == 0.0) && (p.x == 0 ==> w.left == 0.0)
    ensures g.Contains(Step(g, p, Choose2D(w, r)))
  {
  }

  /** A draw in [0,1] scaled by the total of non-negative weights is not negative. */
  lemma DrawIsNonNegative(w: Weights, u: real)
    requires w.NonNegative() && 0.0 <= u
    ensures 0.0 <= u * w.Total()
  {
  }

  /**
   * What kcr_move_individual's weights give the partition: no negative weight,
   * and no weight towards a closing edge.
   */
  lemma {:induction false} WeightsAdmitStep(g: Grid, p: Pos, sx: real, sy: real)
    requires -1.0 <= sx <= 1.0 && -1.0 <= sy <= 1.0
    ensures var w := Weights2D(Feasibility2D(g, p), sx, sy);
      && w.NonNegative()
      && (!g.periodic ==> (p.y == 0 ==> w.down == 0.0) && (p.y == g.height - 1 ==> w.up == 0.0) && (p.x == 0 ==> w.left == 0.0))
  {
    Weights2DInUnitInterval(Feasibility2D(g, p), sx, sy);
    if !g.periodic {
      ClosedDirectionHasNoMass(g, p, sx, sy);
    }
  }

  /** The 2D move keeps an in-bounds individual in bounds, under either boundary condition. */
  lemma {:induction false} Sample2DStaysInBounds(g: Grid, p: Pos, sx: real, sy: real, u: real)
    requires g.Valid() && g.Contains(p)
    requires -1.0 <= sx <= 1.0 && -1.0 <= sy <= 1.0 && 0.0 <= u <= 1.0
    ensures g.Contains(Sample2D(g, p, sx, sy, u))
  {
    WeightsAdmitStep(g, p, sx, sy);
    DrawIsNonNegative(Weights2D(Feasibility2D(g, p), sx, sy), u);
    StepOfChoiceStaysInBounds(g, p, Weights2D(Feasibility2D(g, p), sx, sy), u * Weights2D(Feasibility2D(g, p), sx, sy).Total());
  }

  /** The 1D move keeps an in-bounds individual in bounds, under either boundary condition. */
  lemma {:induction false} Sample1DStaysInBounds(g: Grid, x: int, sx: real, u: real)
    requires g.Valid() && 0 <= x < g.width
    requires -1.0 <= sx <= 1.0 && 0.0 <= u <= 1.0
    ensures g.Contains(Sample1D(g, x, sx, u))
  {
    var f := Feasibility1D(g, x);
    var w := Weights1D(f, sx);
    Weights1DInUnitInterval(f, sx);
    var r := u * (w.left + w.right);
    ScaledDraw(u, w.left + w.right);
    if !g.periodic && x == 0 {
      assert w.left == 0.0;
    }
  }

  /**
   * As written, all weights can be 0 at once: at the bottom-left corner with both
   * biases saturated at -1 the draw is 0 and falls through to the Right branch,
   * so the individual moves right although every weight is 0.
   */
  lemma ZeroMassCornerMovesRight(g: Grid, u: real)
    requires g.Valid() && !g.periodic && g.width >= 2 && g.height >= 2
    ensures Weights2D(Feasibility2D(g, Pos(0, 0)), -1.0, -1.0).Total() == 0.0
    ensures Sample2D(g, Pos(0, 0), -1.0, -1.0, u) == Pos(1, 0)
  {
    var f := Feasibility2D(g, Pos(0, 0));
    assert f == Weights(0.0, 1.0, 0.0, 1.0);
    var w := Weights2D(f, -1.0, -1.0);
    assert w == Weights(0.0, 0.0, 0.0, 0.0);
    assert u * w.Total() == 0.0;
    assert Choose2D(w, 0.0) == Right;
  }

  /** The 1D counterpart: at x = 0 with sx = -1 both weights are 0 and the individual moves right. */
  lemma ZeroMassWallMovesRight(g: Grid, u: real)
    requires g.Valid() && !g.periodic && g.width >= 2
    ensures var w := Weights1D(Feasibility1D(g, 0), -1.0); w.left + w.right == 0.0
    ensures Sample1D(g, 0, -1.0, u) == Pos(1, 0)
  {
    var w := Weights1D(Feasibility1D(g, 0), -1.0);
    assert w == Pair(0.0, 0.0);
    assert u * (w.left + w.right) == 0.0;
  }
}
