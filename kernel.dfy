/**
 * The bias of one move in kcrproc.c: the sums over every individual of every
 * population (in list order) that kcr_move_individual and
 * kcr_move_individual1d accumulate into sx, sy and popsum, the packing term,
 * and the whole move of one individual given the other individuals' positions.
 *
 * The individuals are presented as a roster: `src[j]` is the index of the
 * population of the j-th individual in traversal order and `pos[j]` its position.
 */
module Kernel {
  import opened Lattice

  /**
   * The parameters of KCR_ROOT_DATA that the movement reads. `strength` and
   * `radius` are the P×P tables aijs and deltas, read at [source + responder·P].
   * `radial(dx, dy)` stands for the factor 1/(2π·sqrt(dx² + dy²)) of the 2D
   * kernel, which is floating-point numerics and is taken as given.
   */
  datatype Config = Config(grid: Grid, spacing: real, nPops: nat,
                           strength: seq<real>, radius: seq<real>,
                           packingTerm: int, kappa: real,
                           radial: (int, int) -> real)
  {
    predicate Valid() {
      && grid.Valid() && spacing != 0.0
      && |strength| == nPops * nPops && |radius| == nPops * nPops
    }
  }

  /** Every individual belongs to one of the nPops populations. */
  predicate Roster(cfg: Config, src: seq<nat>, pos: seq<Pos>) {
    |src| == |pos| && forall j :: 0 <= j < |src| ==> src[j] < cfg.nPops
  }

  /** The table index source + responder·P addresses a cell of the P×P table. */
  lemma CellIndex(s: nat, r: nat, n: nat)
    requires s < n && r < n
    ensures s + r * n < n * n
  {
    assert r * n <= (n - 1) * n by { MonotoneProduct(r, n - 1, n); }
  }

  lemma MonotoneProduct(a: nat, b: nat, c: nat)
    requires a <= b
    ensures a * c <= b * c
  {
  }

  /** a·b >= 0 for non-negative reals. */
  lemma NonNegativeProduct(a: real, b: real)
    requires a >= 0.0 && b >= 0.0
    ensures a * b >= 0.0
  {
  }

  function Strength(cfg: Config, s: nat, r: nat): real
    requires cfg.Valid() && s < cfg.nPops && r < cfg.nPops
  {
    CellIndex(s, r, cfg.nPops);
    cfg.strength[s + r * cfg.nPops]
  }

  function Radius(cfg: Config, s: nat, r: nat): real
    requires cfg.Valid() && s < cfg.nPops && r < cfg.nPops
  {
    CellIndex(s, r, cfg.nPops);
    cfg.radius[s + r * cfg.nPops]
  }

  // ---------------------------------------------------------------------------
  // One neighbour's contribution
  // ---------------------------------------------------------------------------

  /**
   * The 1D box kernel: a neighbour q of population s whose scaled offset
   * Diff(q.x, p.x)·l lies in (0, δ] adds l·a/(4δ) to the bias of the mover p
   * of population r; one in [-δ, 0) subtracts it; anyone else adds nothing.
   */
  function Contribution1D(cfg: Config, s: nat, q: Pos, r: nat, p: Pos): (c: real)
    requires cfg.Valid() && s < cfg.nPops && r < cfg.nPops
    ensures Diff(q.x, p.x, cfg.grid.width, cfg.grid.periodic) == 0 ==> c == 0.0
  {
    var a, delta := Strength(cfg, s, r), Radius(cfg, s, r);
    var offset := Diff(q.x, p.x, cfg.grid.width, cfg.grid.periodic) as real * cfg.spacing;
    if offset <= delta && offset > 0.0 then cfg.spacing * a / (4.0 * delta)
    else if offset >= -delta && offset < 0.0 then -(cfg.spacing * a / (4.0 * delta))
    else 0.0
  }

  /** A pair of reals: the bias (sx, sy). */
  datatype Vec = Vec(x: real, y: real)

  /** The squared scaled distance (dx·l)² + (dy·l)² of kcr_move_individual. */
  function Distance2(cfg: Config, q: Pos, p: Pos): (d2: real)
    requires cfg.Valid()
    ensures q == p ==> d2 == 0.0
  {
    var dx := Diff(q.x, p.x, cfg.grid.width, cfg.grid.periodic) as real * cfg.spacing;
    var dy := Diff(q.y, p.y, cfg.grid.height, cfg.grid.periodic) as real * cfg.spacing;
    dx * dx + dy * dy
  }

  /**
   * The 2D kernel: a neighbour at squared scaled distance in (0, δ²] adds
   * l·a·radial(dx, dy)/δ² times (dx, dy); anyone else adds nothing.
   */
  function Contribution2D(cfg: Config, s: nat, q: Pos, r: nat, p: Pos): (c: Vec)
    requires cfg.Valid() && s < cfg.nPops && r < cfg.nPops
    ensures q == p ==> c == Vec(0.0, 0.0)
  {
    var a, delta := Strength(cfg, s, r), Radius(cfg, s, r);
    var dx := Diff(q.x, p.x, cfg.grid.width, cfg.grid.periodic);
    var dy := Diff(q.y, p.y, cfg.grid.height, cfg.grid.periodic);
    Kernel2D(cfg.spacing, a, delta, cfg.radial(dx, dy), dx, dy, Distance2(cfg, q, p))
  }

  /**
   * l·a·g/δ² times (dx, dy) when the squared scaled distance d2 lies in (0, δ²],
   * where g is the radial factor; otherwise nothing.
   */
  function Kernel2D(l: real, a: real, delta: real, g: real, dx: int, dy: int, d2: real): Vec {
    if d2 <= delta * delta && d2 > 0.0 then
      var factor := l * a * g / (delta * delta);
      Vec(factor * dx as real, factor * dy as real)
    else Vec(0.0, 0.0)
  }

  // ---------------------------------------------------------------------------
  // The sums over the roster, in list order
  // ---------------------------------------------------------------------------

  /** sx of kcr_move_individual1d after the first n individuals of the roster. */
  function BiasSum1D(cfg: Config, src: seq<nat>, pos: seq<Pos>, k: nat, n: nat): real
    requires cfg.Valid() && Roster(cfg, src, pos) && k < |pos| && n <= |pos|
    decreases n
  {
    if n == 0 then 0.0
    else BiasSum1D(cfg, src, pos, k, n - 1) + Contribution1D(cfg, src[n - 1], pos[n - 1], src[k], pos[k])
  }

  /** (sx, sy) of kcr_move_individual after the first n individuals of the roster. */
  function BiasSum2D(cfg: Config, src: seq<nat>, pos: seq<Pos>, k: nat, n: nat): Vec
    requires cfg.Valid() && Roster(cfg, src, pos) && k < |pos| && n <= |pos|
    decreases n
  {
    if n == 0 then Vec(0.0, 0.0)
    else
      var acc := BiasSum2D(cfg, src, pos, k, n - 1);
      var c := Contribution2D(cfg, src[n - 1], pos[n - 1], src[k], pos[k]);
      Vec(acc.x + c.x, acc.y + c.y)
  }

  /** popsum after the first n individuals: 1/l² for each one in the mover's cell. */
  function Popsum(cfg: Config, pos: seq<Pos>, k: nat, n: nat): real
    requires cfg.Valid() && k < |pos| && n <= |pos|
    decreases n
  {
    if n == 0 then 0.0
    else Popsum(cfg, pos, k, n - 1) + (if pos[n - 1] == pos[k] then 1.0 / (cfg.spacing * cfg.spacing) else 0.0)
  }

  /** One more individual adds 1/l² to popsum exactly when it is in the mover's cell. */
  lemma PopsumNext(cfg: Config, pos: seq<Pos>, k: nat, n: nat)
    requires cfg.Valid() && k < |pos| && n < |pos|
    ensures pos[n] == pos[k] ==> Popsum(cfg, pos, k, n + 1) == Popsum(cfg, pos, k, n) + 1.0 / (cfg.spacing * cfg.spacing)
    ensures pos[n] != pos[k] ==> Popsum(cfg, pos, k, n + 1) == Popsum(cfg, pos, k, n)
  {
  }

  /** The number of the first n individuals that share the mover's cell. */
  function Cellmates(pos: seq<Pos>, k: nat, n: nat): (m: nat)
    requires k < |pos| && n <= |pos|
    ensures m <= n
    decreases n
  {
    if n == 0 then 0
    else Cellmates(pos, k, n - 1) + (if pos[n - 1] == pos[k] then 1 else 0)
  }

  /**
   * With packing_term == 1 a bias component is divided by 1 + κ·popsum. A
   * negative κ can make that divisor 0: the IEEE quotient is then ±∞, which
   * the clamp that follows turns into ±1, and so it is taken as ±1 here.
   */
  function Packed(cfg: Config, s: real, popsum: real): real
  {
    if cfg.packingTerm != 1 then s
    else if 1.0 + cfg.kappa * popsum != 0.0 then s / (1.0 + cfg.kappa * popsum)
    else if s > 0.0 then 1.0
    else if s < 0.0 then -1.0
    else 0.0
  }

  // ---------------------------------------------------------------------------
  // The move of individual k
  // ---------------------------------------------------------------------------

  /** kcr_move_individual1d for individual k, with draw u = rand()/RAND_MAX; y is reset to 0 whatever it was. */
  function Move1D(cfg: Config, src: seq<nat>, pos: seq<Pos>, k: nat, u: real): (q: Pos)
    requires cfg.Valid() && Roster(cfg, src, pos) && k < |pos|
    ensures q.y == 0
  {
    Sample1D(cfg.grid, pos[k].x, Clamp(BiasSum1D(cfg, src, pos, k, |pos|)), u)
  }

  /** kcr_move_individual for individual k, with draw u = rand()/RAND_MAX. */
  function Move2D(cfg: Config, src: seq<nat>, pos: seq<Pos>, k: nat, u: real): Pos
    requires cfg.Valid() && Roster(cfg, src, pos) && k < |pos|
  {
    var s := BiasSum2D(cfg, src, pos, k, |pos|);
    var popsum := Popsum(cfg, pos, k, |pos|);
    PopsumIsCount(cfg, pos, k, |pos|);
    Sample2D(cfg.grid, pos[k], Clamp(Packed(cfg, s.x, popsum)), Clamp(Packed(cfg, s.y, popsum)), u)
  }

  /** The dispatch of kcr_perform_simulation: a lattice one cell high uses the 1D walk. */
  function Move(cfg: Config, src: seq<nat>, pos: seq<Pos>, k: nat, u: real): (q: Pos)
    requires cfg.Valid() && Roster(cfg, src, pos) && k < |pos|
    ensures cfg.grid.height == 1 ==> q.y == 0
  {
    if cfg.grid.height == 1 then Move1D(cfg, src, pos, k, u) else Move2D(cfg, src, pos, k, u)
  }

  /** A move rule: the new position of individual k of a roster, given its draw. */
  type Mover = (seq<Pos>, nat, real) -> Pos

  /**
   * The move of this configuration as a rule over rosters of the populations
   * `src`; arguments that are not such a roster never occur and give the origin.
   */
  function KernelMover(cfg: Config, src: seq<nat>): Mover
    requires cfg.Valid()
  {
    (pos: seq<Pos>, k: nat, u: real) =>
      if k < |pos| && Roster(cfg, src, pos) then Move(cfg, src, pos, k, u) else Pos(0, 0)
  }

  /**
   * mv moves every roster of `src` as the kernel does. The trigger keeps the
   * kernel's arithmetic out of reach until a Move term is in view.
   */
  ghost predicate MovesAsKernel(mv: Mover, cfg: Config, src: seq<nat>)
    requires cfg.Valid()
  {
    forall pos: seq<Pos>, k: nat, u: real {:trigger Move(cfg, src, pos, k, u)} ::
      k < |pos| && Roster(cfg, src, pos) ==> mv(pos, k, u) == Move(cfg, src, pos, k, u)
  }

  lemma KernelMoverMovesAsKernel(cfg: Config, src: seq<nat>)
    requires cfg.Valid()
    ensures MovesAsKernel(KernelMover(cfg, src), cfg, src)
  {
  }

  // ---------------------------------------------------------------------------
  // Properties
  // ---------------------------------------------------------------------------

  /** popsum is the number of individuals in the mover's cell (the mover included) over l². */
  lemma {:induction false} PopsumIsCount(cfg: Config, pos: seq<Pos>, k: nat, n: nat)
    requires cfg.Valid() && k < |pos| && n <= |pos|
    ensures Popsum(cfg, pos, k, n) == Cellmates(pos, k, n) as real / (cfg.spacing * cfg.spacing)
    ensures Popsum(cfg, pos, k, n) >= 0.0
    decreases n
  {
    SquarePositive(cfg.spacing);
    if n > 0 {
      PopsumIsCount(cfg, pos, k, n - 1);
      PopsumNext(cfg, pos, k, n - 1);
      if pos[n - 1] == pos[k] {
        SumOverCommon(Cellmates(pos, k, n - 1) as real, 1.0, cfg.spacing * cfg.spacing);
      }
    }
    NonNegativeQuotient(Cellmates(pos, k, n) as real, cfg.spacing * cfg.spacing);
  }

  /** The mover counts itself: once the scan has passed it, popsum >= 1/l². */
  lemma {:induction false} PopsumIncludesMover(cfg: Config, pos: seq<Pos>, k: nat, n: nat)
    requires cfg.Valid() && k < n <= |pos|
    ensures Cellmates(pos, k, n) >= 1
    ensures Popsum(cfg, pos, k, n) >= 1.0 / (cfg.spacing * cfg.spacing)
    decreases n
  {
    if n - 1 > k {
      PopsumIncludesMover(cfg, pos, k, n - 1);
    }
    PopsumIsCount(cfg, pos, k, n);
    SquarePositive(cfg.spacing);
    SumOverCommon(Cellmates(pos, k, n) as real - 1.0, 1.0, cfg.spacing * cfg.spacing);
    NonNegativeQuotient(Cellmates(pos, k, n) as real - 1.0, cfg.spacing * cfg.spacing);
  }

  lemma SquarePositive(l: real)
    requires l != 0.0
    ensures l * l > 0.0
  {
  }

  lemma SumOverCommon(a: real, b: real, d: real)
    requires d > 0.0
    ensures a / d + b / d == (a + b) / d
  {
  }

  lemma NonNegativeQuotient(a: real, b: real)
    requires a >= 0.0 && b > 0.0
    ensures a / b >= 0.0
  {
  }

  /**
   * Packing only damps when κ >= 0: with packing_term == 1 the packed bias has the sign of
   * the bias and no larger magnitude, strictly smaller when κ·popsum > 0;
   * without it the bias is unchanged.
   */
  lemma PackingDamps(cfg: Config, s: real, popsum: real)
    requires cfg.Valid() && cfg.kappa >= 0.0 && popsum >= 0.0
    ensures cfg.packingTerm != 1 ==> Packed(cfg, s, popsum) == s
    ensures s >= 0.0 ==> 0.0 <= Packed(cfg, s, popsum) <= s
    ensures s <= 0.0 ==> s <= Packed(cfg, s, popsum) <= 0.0
    ensures cfg.packingTerm == 1 && cfg.kappa > 0.0 && popsum > 0.0 && s > 0.0 ==> Packed(cfg, s, popsum) < s
    ensures cfg.packingTerm == 1 && cfg.kappa > 0.0 && popsum > 0.0 && s < 0.0 ==> Packed(cfg, s, popsum) > s
  {
    NonNegativeProduct(cfg.kappa, popsum);
    var d := 1.0 + cfg.kappa * popsum;
    if cfg.packingTerm == 1 {
      var q := s / d;
      assert q * d == s;
      if s >= 0.0 {
        assert q >= 0.0;
        assert q <= s by { assert q * d >= q; }
      } else {
        assert q < 0.0;
        assert q >= s by { assert q * d <= q; }
      }
      if cfg.kappa > 0.0 && popsum > 0.0 {
        assert d > 1.0 by { assert cfg.kappa * popsum > 0.0; }
        if s > 0.0 { assert q * d > q; }
        if s < 0.0 { assert q * d < q; }
      }
    }
  }

  /** An individual alone in every sense: a roster all in one cell exerts no bias. */
  lemma {:induction false} CrowdExertsNoBias(cfg: Config, src: seq<nat>, pos: seq<Pos>, k: nat, n: nat)
    requires cfg.Valid() && Roster(cfg, src, pos) && k < |pos| && n <= |pos|
    requires forall j :: 0 <= j < |pos| ==> pos[j] == pos[k]
    ensures BiasSum1D(cfg, src, pos, k, n) == 0.0
    ensures BiasSum2D(cfg, src, pos, k, n) == Vec(0.0, 0.0)
    ensures Cellmates(pos, k, n) == n
    decreases n
  {
    if n > 0 {
      CrowdExertsNoBias(cfg, src, pos, k, n - 1);
      assert pos[n - 1] == pos[k];
      assert Diff(pos[k].x, pos[k].x, cfg.grid.width, cfg.grid.periodic) == 0;
    }
  }

  /** The strength table with every entry negated: attraction turned into repulsion. */
  function Negated(cfg: Config): (neg: Config)
    ensures neg.Valid() == cfg.Valid()
  {
    cfg.(strength := seq(|cfg.strength|, i requires 0 <= i < |cfg.strength| => -cfg.strength[i]))
  }

  lemma NegatedStrength(cfg: Config, s: nat, r: nat)
    requires cfg.Valid() && s < cfg.nPops && r < cfg.nPops
    ensures Strength(Negated(cfg), s, r) == -Strength(cfg, s, r)
    ensures Radius(Negated(cfg), s, r) == Radius(cfg, s, r)
  {
    CellIndex(s, r, cfg.nPops);
  }

  lemma Contribution1DIsOddInStrength(cfg: Config, s: nat, q: Pos, r: nat, p: Pos)
    requires cfg.Valid() && s < cfg.nPops && r < cfg.nPops
    ensures Contribution1D(Negated(cfg), s, q, r, p) == -Contribution1D(cfg, s, q, r, p)
  {
    NegatedStrength(cfg, s, r);
    var a := Strength(cfg, s, r);
    assert cfg.spacing * (-a) == -(cfg.spacing * a);
  }

  lemma Contribution2DIsOddInStrength(cfg: Config, s: nat, q: Pos, r: nat, p: Pos)
    requires cfg.Valid() && s < cfg.nPops && r < cfg.nPops
    ensures Contribution2D(Negated(cfg), s, q, r, p).x == -Contribution2D(cfg, s, q, r, p).x
    ensures Contribution2D(Negated(cfg), s, q, r, p).y == -Contribution2D(cfg, s, q, r, p).y
  {
    NegatedStrength(cfg, s, r);
    assert Distance2(Negated(cfg), q, p) == Distance2(cfg, q, p);
    Kernel2DIsOddInStrength(cfg.spacing, Strength(cfg, s, r), Radius(cfg, s, r),
                            cfg.radial(Diff(q.x, p.x, cfg.grid.width, cfg.grid.periodic), Diff(q.y, p.y, cfg.grid.height, cfg.grid.periodic)),
                            Diff(q.x, p.x, cfg.grid.width, cfg.grid.periodic), Diff(q.y, p.y, cfg.grid.height, cfg.grid.periodic),
                            Distance2(cfg, q, p));
  }

  lemma Kernel2DIsOddInStrength(l: real, a: real, delta: real, g: real, dx: int, dy: int, d2: real)
    ensures Kernel2D(l, -a, delta, g, dx, dy, d2).x == -Kernel2D(l, a, delta, g, dx, dy, d2).x
    ensures Kernel2D(l, -a, delta, g, dx, dy, d2).y == -Kernel2D(l, a, delta, g, dx, dy, d2).y
  {
    if d2 <= delta * delta && d2 > 0.0 {
      var f := l * a * g / (delta * delta);
      assert l * (-a) * g / (delta * delta) == -f;
      assert (-f) * dx as real == -(f * dx as real);
      assert (-f) * dy as real == -(f * dy as real);
    }
  }

  /** Negating every a_ij negates the 1D bias sum exactly. */
  lemma {:induction false} BiasSum1DIsOddInStrength(cfg: Config, src: seq<nat>, pos: seq<Pos>, k: nat, n: nat)
    requires cfg.Valid() && Roster(cfg, src, pos) && k < |pos| && n <= |pos|
    ensures BiasSum1D(Negated(cfg), src, pos, k, n) == -BiasSum1D(cfg, src, pos, k, n)
    decreases n
  {
    if n > 0 {
      BiasSum1DIsOddInStrength(cfg, src, pos, k, n - 1);
      Contribution1DIsOddInStrength(cfg, src[n - 1], pos[n - 1], src[k], pos[k]);
    }
  }

  /** Negating every a_ij negates both components of the 2D bias sum. */
  lemma {:induction false} BiasSum2DIsOddInStrength(cfg: Config, src: seq<nat>, pos: seq<Pos>, k: nat, n: nat)
    requires cfg.Valid() && Roster(cfg, src, pos) && k < |pos| && n <= |pos|
    ensures BiasSum2D(Negated(cfg), src, pos, k, n) == Vec(-BiasSum2D(cfg, src, pos, k, n).x, -BiasSum2D(cfg, src, pos, k, n).y)
    decreases n
  {
    if n > 0 {
      BiasSum2DIsOddInStrength(cfg, src, pos, k, n - 1);
      Contribution2DIsOddInStrength(cfg, src[n - 1], pos[n - 1], src[k], pos[k]);
    }
  }

  /**
   * Under absorbing boundaries the 1D kernel is odd in the offset: mirroring a
   * neighbour through the mover flips the sign of its contribution.
   */
  lemma MirroredNeighbour1D(cfg: Config, s: nat, r: nat, p: Pos, d: int, y1: int, y2: int)
    requires cfg.Valid() && !cfg.grid.periodic && s < cfg.nPops && r < cfg.nPops
    ensures Contribution1D(cfg, s, Pos(p.x + d, y1), r, p) == -Contribution1D(cfg, s, Pos(p.x - d, y2), r, p)
  {
    assert (-d) as real * cfg.spacing == -(d as real * cfg.spacing);
  }

  /**
   * The move of kcr_perform_simulation keeps an individual inside the lattice,
   * under either boundary condition, whatever the other individuals' positions;
   * on a lattice one cell high it also leaves y = 0.
   */
  lemma {:induction false} MoveStaysInBounds(cfg: Config, src: seq<nat>, pos: seq<Pos>, k: nat, u: real)
    requires cfg.Valid() && Roster(cfg, src, pos) && k < |pos|
    requires cfg.grid.Contains(pos[k]) && 0.0 <= u <= 1.0
    ensures cfg.grid.Contains(Move(cfg, src, pos, k, u))
    ensures cfg.grid.height == 1 ==> Move(cfg, src, pos, k, u).y == 0
  {
    if cfg.grid.height == 1 {
      Sample1DStaysInBounds(cfg.grid, pos[k].x, Clamp(BiasSum1D(cfg, src, pos, k, |pos|)), u);
    } else {
      var s := BiasSum2D(cfg, src, pos, k, |pos|);
      var popsum := Popsum(cfg, pos, k, |pos|);
      PopsumIsCount(cfg, pos, k, |pos|);
      Sample2DStaysInBounds(cfg.grid, pos[k], Clamp(Packed(cfg, s.x, popsum)), Clamp(Packed(cfg, s.y, popsum)), u);
    }
  }

  /**
   * On a lattice one cell high only x matters: the 1D move resets y to 0, so
   * an individual whose x is in range lands in bounds whatever its y was.
   */
  lemma Move1DNeedsOnlyX(cfg: Config, src: seq<nat>, pos: seq<Pos>, k: nat, u: real)
    requires cfg.Valid() && Roster(cfg, src, pos) && k < |pos| && cfg.grid.height == 1
    requires 0 <= pos[k].x < cfg.grid.width && 0.0 <= u <= 1.0
    ensures cfg.grid.Contains(Move(cfg, src, pos, k, u))
  {
    Sample1DStaysInBounds(cfg.grid, pos[k].x, Clamp(BiasSum1D(cfg, src, pos, k, |pos|)), u);
  }

  /** The kernel's rule keeps any in-bounds individual of a roster in bounds. */
  lemma KernelMoverStaysInBounds(cfg: Config, src: seq<nat>)
    requires cfg.Valid() && forall j :: 0 <= j < |src| ==> src[j] < cfg.nPops
    ensures forall pos: seq<Pos>, k: nat, u: real ::
      |pos| == |src| && k < |pos| && cfg.grid.Contains(pos[k]) && 0.0 <= u <= 1.0 ==>
      cfg.grid.Contains(KernelMover(cfg, src)(pos, k, u))
  {
    forall pos: seq<Pos>, k: nat, u: real |
      |pos| == |src| && k < |pos| && cfg.grid.Contains(pos[k]) && 0.0 <= u <= 1.0
      ensures cfg.grid.Contains(KernelMover(cfg, src)(pos, k, u))
    {
      MoveStaysInBounds(cfg, src, pos, k, u);
    }
  }
}
