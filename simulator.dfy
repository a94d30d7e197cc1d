/**
 * The simulator's control blocks and the imperative operations of kcrinit.c
 * and kcrproc.c: kcr_init builds the root control block with its tables and
 * its populations of individuals, kcr_set_init_conds places the individuals,
 * and kcr_perform_simulation moves them tick by tick.
 *
 * The population list of the root and the individual list of each population
 * are held as sequences in list order (the linked lists themselves are
 * modelled in ListJrp). `Movers()` is every individual in the order of the
 * nested traversal, `Sources()` the index of the population of each, and
 * `Positions()` their current positions: the roster of Kernel and Stepping.
 */
module Simulator {
  import opened Wrappers
  import opened Lattice
  import opened Kernel
  import opened Stepping
  import TableParser
  import StartParser

  /** KCR_INDIVIDUAL: an index and a position updated in place. */
  class Individual {
    const index: nat
    var x: int
    var y: int

    /** kcr_indiv_init: the position starts at (box_width, box_height), outside the lattice. */
    constructor (index: nat, grid: Grid)
      ensures this.index == index && x == grid.width && y == grid.height
    {
      this.index := index;
      x := grid.width;
      y := grid.height;
    }
  }

  /** KCR_POPULATION: an index and its individuals in list order. */
  class Population {
    const index: nat
    const members: seq<Individual>

    /**
     * kcr_pop_init: individuals 0 .. n-1 are created in turn and each is added
     * to the start of the list, so the list holds them from n-1 down to 0.
     */
    constructor (index: nat, n: nat, grid: Grid)
      ensures this.index == index && |members| == n && Distinct(members)
      ensures forall i :: 0 <= i < n ==> fresh(members[i]) && members[i].index == n - 1 - i
      ensures forall i :: 0 <= i < n ==> members[i].x == grid.width && members[i].y == grid.height
    {
      var ms: seq<Individual> := [];
      var curr := 0;
      while curr < n
        invariant curr <= n && |ms| == curr && Distinct(ms)
        invariant forall i :: 0 <= i < curr ==> fresh(ms[i]) && ms[i].index == curr - 1 - i
        invariant forall i :: 0 <= i < curr ==> ms[i].x == grid.width && ms[i].y == grid.height
      {
        var ind := new Individual(curr, grid);
        ms := [ind] + ms;
        curr := curr + 1;
      }
      this.index := index;
      members := ms;
    }
  }

  /** No individual occurs twice: the first is not among the rest, and so on down the list. */
  predicate Distinct(inds: seq<Individual>) {
    inds == [] || (inds[0] !in inds[1..] && Distinct(inds[1..]))
  }

  /** In a list without repeats, two positions hold two different individuals. */
  lemma {:induction false} DistinctIndex(inds: seq<Individual>, i: nat, j: nat)
    requires Distinct(inds) && i < j < |inds|
    ensures inds[i] != inds[j]
  {
    if i == 0 {
      assert inds[j] == inds[1..][j - 1];
    } else {
      DistinctIndex(inds[1..], i - 1, j - 1);
    }
  }

  /** Two lists without repeats and without a common individual concatenate to a list without repeats. */
  lemma {:induction false} DistinctConcat(a: seq<Individual>, b: seq<Individual>)
    requires Distinct(a) && Distinct(b) && forall i :: 0 <= i < |a| ==> a[i] !in b
    ensures Distinct(a + b)
  {
    if a != [] {
      DistinctConcat(a[1..], b);
      assert (a + b)[1..] == a[1..] + b;
      assert a[0] !in a[1..] + b;
    } else {
      assert a + b == b;
    }
  }

  /** The individuals of the populations in the order of the nested traversal. */
  function Flatten(pops: seq<Population>): seq<Individual> {
    if pops == [] then [] else pops[0].members + Flatten(pops[1..])
  }

  /** The index of the population of each individual of Flatten(pops). */
  function SourcesOf(pops: seq<Population>): (src: seq<nat>)
    ensures |src| == |Flatten(pops)|
  {
    if pops == [] then [] else seq(|pops[0].members|, _ => pops[0].index) + SourcesOf(pops[1..])
  }

  /** The current positions of the individuals. */
  function PositionsOf(inds: seq<Individual>): (ps: seq<Pos>)
    reads inds
    ensures |ps| == |inds|
  {
    if inds == [] then [] else [Pos(inds[0].x, inds[0].y)] + PositionsOf(inds[1..])
  }

  /** Entry j of PositionsOf(inds) is where individual j is. */
  lemma {:induction false} PositionsOfIndex(inds: seq<Individual>, j: nat)
    requires j < |inds|
    ensures PositionsOf(inds)[j] == Pos(inds[j].x, inds[j].y)
    decreases j
  {
    if j > 0 {
      PositionsOfIndex(inds[1..], j - 1);
    }
  }

  /** Adding a population to the start of the list puts its individuals first in the traversal. */
  lemma FlattenPrepend(pop: Population, pops: seq<Population>)
    ensures Flatten([pop] + pops) == pop.members + Flatten(pops)
    ensures SourcesOf([pop] + pops) == seq(|pop.members|, _ => pop.index) + SourcesOf(pops)
  {
    assert ([pop] + pops)[1..] == pops;
  }

  /** Populations of n individuals each traverse n·|pops| individuals. */
  lemma {:induction false} FlattenSize(pops: seq<Population>, n: nat)
    requires forall p :: 0 <= p < |pops| ==> |pops[p].members| == n
    ensures |Flatten(pops)| == |pops| * n
  {
    if pops != [] {
      FlattenSize(pops[1..], n);
      assert |pops[1..]| * n + n == |pops| * n;
    }
  }

  /** Every individual of the traversal is tagged with the index of one of the populations. */
  lemma {:induction false} SourcesBelow(pops: seq<Population>, bound: nat)
    requires forall p :: 0 <= p < |pops| ==> pops[p].index < bound
    ensures forall j :: 0 <= j < |SourcesOf(pops)| ==> SourcesOf(pops)[j] < bound
  {
    if pops != [] {
      SourcesBelow(pops[1..], bound);
      var head := seq(|pops[0].members|, _ => pops[0].index);
      assert SourcesOf(pops) == head + SourcesOf(pops[1..]);
    }
  }

  /** Where population p's individuals begin in the traversal. */
  function Offset(pops: seq<Population>, p: nat): nat
    requires p <= |pops|
  {
    if p == 0 then 0 else |pops[0].members| + Offset(pops[1..], p - 1)
  }

  /** Individual i of population p is at Offset(pops, p) + i in the traversal, tagged with p's index. */
  lemma {:induction false} FlattenIndex(pops: seq<Population>, p: nat, i: nat)
    requires p < |pops| && i < |pops[p].members|
    ensures Offset(pops, p) + i < |Flatten(pops)|
    ensures Flatten(pops)[Offset(pops, p) + i] == pops[p].members[i]
    ensures SourcesOf(pops)[Offset(pops, p) + i] == pops[p].index
  {
    if p > 0 {
      FlattenIndex(pops[1..], p - 1, i);
      assert pops[1..][p - 1] == pops[p];
    }
  }

  /** Population p + 1 begins where population p ends. */
  lemma {:induction false} OffsetNext(pops: seq<Population>, p: nat)
    requires p < |pops|
    ensures Offset(pops, p + 1) == Offset(pops, p) + |pops[p].members|
  {
    if p > 0 {
      OffsetNext(pops[1..], p - 1);
      assert pops[1..][p - 1] == pops[p];
    }
  }

  /** The last population ends the traversal. */
  lemma {:induction false} OffsetEnd(pops: seq<Population>)
    ensures Offset(pops, |pops|) == |Flatten(pops)|
  {
    if pops != [] {
      OffsetEnd(pops[1..]);
    }
  }

  /** Population p's individuals fit in the traversal. */
  lemma {:induction false} OffsetBound(pops: seq<Population>, p: nat)
    requires p < |pops|
    ensures Offset(pops, p) + |pops[p].members| <= |Flatten(pops)|
  {
    if p > 0 {
      OffsetBound(pops[1..], p - 1);
      assert pops[1..][p - 1] == pops[p];
    }
  }

  /** Every individual of the traversal is an allocated object (which lets a frame carry Positions() across a call). */
  lemma {:induction false} FlattenAllocated(pops: seq<Population>)
    ensures forall j :: 0 <= j < |Flatten(pops)| ==> allocated(Flatten(pops)[j])
  {
    if pops != [] {
      FlattenAllocated(pops[1..]);
    }
  }

  /**
   * The layout of the roster: individual i of population p is entry
   * Offset(pops, p) + i, tagged with p's index and at its current position,
   * and the last population ends the roster.
   */
  lemma {:induction false} RosterLayout(pops: seq<Population>, pos: seq<Pos>)
    requires pos == PositionsOf(Flatten(pops))
    ensures Offset(pops, |pops|) == |pos| && forall p :: 0 <= p < |pops| ==> Offset(pops, p) + |pops[p].members| <= |pos|
    ensures forall p, i :: 0 <= p < |pops| && 0 <= i < |pops[p].members| ==>
      (SourcesOf(pops)[Offset(pops, p) + i], pos[Offset(pops, p) + i]) == (pops[p].index, Pos(pops[p].members[i].x, pops[p].members[i].y))
  {
    OffsetEnd(pops);
    forall p | 0 <= p < |pops|
      ensures Offset(pops, p) + |pops[p].members| <= |pos|
    {
      OffsetBound(pops, p);
    }
    forall p, i | 0 <= p < |pops| && 0 <= i < |pops[p].members|
      ensures (SourcesOf(pops)[Offset(pops, p) + i], pos[Offset(pops, p) + i]) == (pops[p].index, Pos(pops[p].members[i].x, pops[p].members[i].y))
    {
      FlattenIndex(pops, p, i);
      PositionsOfIndex(Flatten(pops), Offset(pops, p) + i);
    }
  }

  /**
   * The sum of kcr_move_individual1d for `ind`, entry k of the roster (src,
   * pos) laid out by `pops`, of population r: over every individual of every
   * population, sx accumulates ± l·a/(4δ) for each one within δ to the right
   * or to the left.
   */
  method RosterBias1D(cfg: Config, pops: seq<Population>, ind: Individual, r: nat,
                      ghost src: seq<nat>, ghost pos: seq<Pos>, ghost k: nat) returns (sx: real)
    requires cfg.Valid() && Roster(cfg, src, pos) && k < |pos| && src[k] == r && pos[k] == Pos(ind.x, ind.y)
    requires Offset(pops, |pops|) == |pos| && forall p :: 0 <= p < |pops| ==> Offset(pops, p) + |pops[p].members| <= |pos|
    requires forall p, i :: 0 <= p < |pops| && 0 <= i < |pops[p].members| ==>
      (src[Offset(pops, p) + i], pos[Offset(pops, p) + i]) == (pops[p].index, Pos(pops[p].members[i].x, pops[p].members[i].y))
    ensures sx == BiasSum1D(cfg, src, pos, k, |pos|)
  {
    sx := 0.0;
    ghost var n := 0;
    var p := 0;
    while p < |pops|
      invariant p <= |pops| && n == Offset(pops, p) <= |pos|
      invariant sx == BiasSum1D(cfg, src, pos, k, n)
    {
      var curr := pops[p];
      var i := 0;
      while i < |curr.members|
        invariant i <= |curr.members| && n == Offset(pops, p) + i <= |pos|
        invariant sx == BiasSum1D(cfg, src, pos, k, n)
      {
        var other := curr.members[i];
        sx := sx + Contribution1D(cfg, curr.index, Pos(other.x, other.y), r, Pos(ind.x, ind.y));
        i := i + 1;
        n := n + 1;
      }
      OffsetNext(pops, p);
      p := p + 1;
    }
  }

  /**
   * The sums of kcr_move_individual for `ind`, entry k of the roster (src,
   * pos) laid out by `pops`, of population r: over every individual of every
   * population, (sx, sy) accumulates the kernel's pull and popsum 1/l² for
   * each one in the cell of `ind`.
   */
  method RosterBias2D(cfg: Config, pops: seq<Population>, ind: Individual, r: nat,
                      ghost src: seq<nat>, ghost pos: seq<Pos>, ghost k: nat) returns (sx: real, sy: real, popsum: real)
    requires cfg.Valid() && Roster(cfg, src, pos) && k < |pos| && src[k] == r && pos[k] == Pos(ind.x, ind.y)
    requires Offset(pops, |pops|) == |pos| && forall p :: 0 <= p < |pops| ==> Offset(pops, p) + |pops[p].members| <= |pos|
    requires forall p, i :: 0 <= p < |pops| && 0 <= i < |pops[p].members| ==>
      (src[Offset(pops, p) + i], pos[Offset(pops, p) + i]) == (pops[p].index, Pos(pops[p].members[i].x, pops[p].members[i].y))
    ensures Vec(sx, sy) == BiasSum2D(cfg, src, pos, k, |pos|)
    ensures popsum == Popsum(cfg, pos, k, |pos|)
  {
    sx, sy, popsum := 0.0, 0.0, 0.0;
    ghost var n := 0;
    var p := 0;
    while p < |pops|
      invariant p <= |pops| && n == Offset(pops, p) <= |pos|
      invariant Vec(sx, sy) == BiasSum2D(cfg, src, pos, k, n) && popsum == Popsum(cfg, pos, k, n)
    {
      var curr := pops[p];
      var i := 0;
      while i < |curr.members|
        invariant i <= |curr.members| && n == Offset(pops, p) + i <= |pos|
        invariant Vec(sx, sy) == BiasSum2D(cfg, src, pos, k, n) && popsum == Popsum(cfg, pos, k, n)
      {
        var other := curr.members[i];
        var c := Contribution2D(cfg, curr.index, Pos(other.x, other.y), r, Pos(ind.x, ind.y));
        PopsumNext(cfg, pos, k, n);
        sx, sy := sx + c.x, sy + c.y;
        if other.x == ind.x && other.y == ind.y {
          assert pos[n] == pos[k];
          popsum := popsum + 1.0 / (cfg.spacing * cfg.spacing);
        } else {
          assert pos[n] != pos[k];
        }
        i := i + 1;
        n := n + 1;
      }
      OffsetNext(pops, p);
      p := p + 1;
    }
  }

  /** A population of index |pops| put in front of pops keeps the indices descending. */
  lemma PrependIndices(pop: Population, pops: seq<Population>, n: nat)
    requires pop.index == |pops| && |pop.members| == n
    requires forall i :: 0 <= i < n ==> pop.members[i].index == n - 1 - i
    requires forall p :: 0 <= p < |pops| ==> pops[p].index == |pops| - 1 - p && |pops[p].members| == n
    requires forall p, i :: 0 <= p < |pops| && 0 <= i < n ==> pops[p].members[i].index == n - 1 - i
    ensures var pops' := [pop] + pops;
      && (forall p :: 0 <= p < |pops'| ==> pops'[p].index == |pops'| - 1 - p && |pops'[p].members| == n)
      && (forall p, i :: 0 <= p < |pops'| && 0 <= i < n ==> pops'[p].members[i].index == n - 1 - i)
  {
  }

  /** Individuals not yet placed, in front of individuals not yet placed, are none of them placed. */
  lemma PrependUnplaced(pop: Population, pops: seq<Population>, grid: Grid)
    requires forall i :: 0 <= i < |pop.members| ==> pop.members[i].x == grid.width && pop.members[i].y == grid.height
    requires forall j :: 0 <= j < |Flatten(pops)| ==> Flatten(pops)[j].x == grid.width && Flatten(pops)[j].y == grid.height
    ensures forall j :: 0 <= j < |Flatten([pop] + pops)| ==>
      Flatten([pop] + pops)[j].x == grid.width && Flatten([pop] + pops)[j].y == grid.height
  {
    FlattenPrepend(pop, pops);
  }

  /**
   * The population loop of kcr_init: populations 0 .. P-1 are created in turn
   * (kcr_pop_init) and each is added to the start of the list, so the list
   * holds them from P-1 down to 0, each with its individuals from
   * no_indivs-1 down to 0; no individual is shared.
   */
  method NewPopulations(nPops: nat, nIndivs: nat, grid: Grid) returns (pops: seq<Population>)
    ensures |pops| == nPops
    ensures forall p :: 0 <= p < nPops ==> pops[p].index == nPops - 1 - p && |pops[p].members| == nIndivs
    ensures forall p, i :: 0 <= p < nPops && 0 <= i < nIndivs ==> pops[p].members[i].index == nIndivs - 1 - i
    ensures Distinct(Flatten(pops))
    ensures forall j :: 0 <= j < |Flatten(pops)| ==> fresh(Flatten(pops)[j])
    ensures forall j :: 0 <= j < |Flatten(pops)| ==> Flatten(pops)[j].x == grid.width && Flatten(pops)[j].y == grid.height
  {
    pops := [];
    var curr := 0;
    while curr < nPops
      invariant curr <= nPops && |pops| == curr
      invariant forall p :: 0 <= p < curr ==> pops[p].index == curr - 1 - p && |pops[p].members| == nIndivs
      invariant forall p, i :: 0 <= p < curr && 0 <= i < nIndivs ==> pops[p].members[i].index == nIndivs - 1 - i
      invariant Distinct(Flatten(pops))
      invariant forall j :: 0 <= j < |Flatten(pops)| ==> fresh(Flatten(pops)[j])
      invariant forall j :: 0 <= j < |Flatten(pops)| ==> Flatten(pops)[j].x == grid.width && Flatten(pops)[j].y == grid.height
    {
      FlattenAllocated(pops);
      var pop := new Population(curr, nIndivs, grid);
      FlattenPrepend(pop, pops);
      DistinctConcat(pop.members, Flatten(pops));
      PrependIndices(pop, pops, nIndivs);
      PrependUnplaced(pop, pops, grid);
      pops := [pop] + pops;
      curr := curr + 1;
    }
  }

  /**
   * KCR_ROOT_DATA: the parameters, the three tables, the populations and the
   * clock. Nothing writes the tables once kcr_init has filled its arrays, so
   * the root holds their contents.
   */
  class Simulation {
    const grid: Grid
    const totalTime: real
    const startMeasureTime: real
    const nIndivs: nat
    const nPops: nat
    const spacing: real
    const envWeight: real
    const packingTerm: int
    const kappa: real
    const radial: (int, int) -> real
    const aijs: seq<real>
    const deltas: seq<real>
    const envData: seq<real>
    const populations: seq<Population>
    var currentTime: nat

    /** Every individual in traversal order. */
    function Movers(): seq<Individual> {
      Flatten(populations)
    }

    /** The index of the population of each individual in traversal order. */
    function Sources(): seq<nat> {
      SourcesOf(populations)
    }

    /** The current position of each individual in traversal order. */
    function Positions(): seq<Pos>
      reads Movers()
    {
      PositionsOf(Movers())
    }

    /** The parameters the movement reads. */
    function Cfg(): Config {
      Config(grid, spacing, nPops, aijs, deltas, packingTerm, kappa, radial)
    }

    /**
     * The shape kcr_init gives the root: a valid lattice, P×P tables, a
     * box_width × box_height environment, P populations of no_indivs
     * individuals each, and no individual in two places.
     */
    predicate Valid() {
      && grid.Valid() && spacing != 0.0
      && |aijs| == nPops * nPops && |deltas| == nPops * nPops
      && |envData| == grid.width * grid.height
      && |populations| == nPops
      && (forall p :: 0 <= p < |populations| ==> populations[p].index < nPops)
      && (forall p :: 0 <= p < |populations| ==> |populations[p].members| == nIndivs)
      && (forall j :: 0 <= j < |Sources()| ==> Sources()[j] < nPops)
      && Distinct(Movers())
    }

    constructor (grid: Grid, totalTime: real, startMeasureTime: real, nIndivs: nat, nPops: nat,
                 spacing: real, envWeight: real, packingTerm: int, kappa: real, radial: (int, int) -> real,
                 aijs: seq<real>, deltas: seq<real>, envData: seq<real>, populations: seq<Population>)
      ensures this.grid == grid && this.totalTime == totalTime && this.startMeasureTime == startMeasureTime
      ensures this.nIndivs == nIndivs && this.nPops == nPops && this.spacing == spacing
      ensures this.envWeight == envWeight && this.packingTerm == packingTerm && this.kappa == kappa
      ensures this.radial == radial && this.aijs == aijs && this.deltas == deltas && this.envData == envData
      ensures this.populations == populations && currentTime == 0
    {
      this.grid := grid;
      this.totalTime := totalTime;
      this.startMeasureTime := startMeasureTime;
      this.nIndivs := nIndivs;
      this.nPops := nPops;
      this.spacing := spacing;
      this.envWeight := envWeight;
      this.packingTerm := packingTerm;
      this.kappa := kappa;
      this.radial := radial;
      this.aijs := aijs;
      this.deltas := deltas;
      this.envData := envData;
      this.populations := populations;
      currentTime := 0;
    }

    /**
     * kcr_init: the a_ij and delta tables are read from their files into
     * zeroed P×P arrays, the environment into a zeroed box_width ×
     * box_height array, and populations 0 .. P-1 are created in turn, each
     * added to the start of the list. None when an assert fails: a missing
     * a_ij or delta file, or a table that does not fit.
     */
    static method Init(nIndivs: nat, nPops: nat, totalTime: real, startMeasureTime: real,
                       aijFile: Option<seq<char>>, grid: Grid, deltaFile: Option<seq<char>>,
                       spacing: real, envFile: Option<seq<char>>, envWeight: real,
                       packingTerm: int, kappa: real, radial: (int, int) -> real)
      returns (r: Option<Simulation>)
      requires grid.Valid() && spacing != 0.0
      ensures r.Some? <==>
        && aijFile.Some? && TableParser.Parse(aijFile.value, nPops, nPops, TableParser.Zeros(nPops * nPops)).Some?
        && deltaFile.Some? && TableParser.Parse(deltaFile.value, nPops, nPops, TableParser.Zeros(nPops * nPops)).Some?
        && (envFile.Some? ==> TableParser.Parse(envFile.value, grid.width, grid.height, TableParser.Zeros(grid.width * grid.height)).Some?)
      ensures r.Some? ==> fresh(r.value)
      ensures r.Some? ==> r.value.Valid() && r.value.currentTime == 0
      ensures r.Some? ==> r.value.grid == grid && r.value.nPops == nPops && r.value.nIndivs == nIndivs
      ensures r.Some? ==> r.value.totalTime == totalTime && r.value.startMeasureTime == startMeasureTime
      ensures r.Some? ==> r.value.Cfg() == Config(grid, spacing, nPops, r.value.aijs, r.value.deltas, packingTerm, kappa, radial)
      ensures r.Some? ==> r.value.aijs == TableParser.Parse(aijFile.value, nPops, nPops, TableParser.Zeros(nPops * nPops)).value
      ensures r.Some? ==> r.value.deltas == TableParser.Parse(deltaFile.value, nPops, nPops, TableParser.Zeros(nPops * nPops)).value
      ensures r.Some? && envFile.None? ==> r.value.envData == TableParser.Zeros(grid.width * grid.height)
      ensures r.Some? && envFile.Some? ==>
        r.value.envData == TableParser.Parse(envFile.value, grid.width, grid.height, TableParser.Zeros(grid.width * grid.height)).value
      ensures r.Some? ==> forall p :: 0 <= p < nPops ==> r.value.populations[p].index == nPops - 1 - p
      ensures r.Some? ==> forall p, i :: 0 <= p < nPops && 0 <= i < nIndivs ==>
        r.value.populations[p].members[i].index == nIndivs - 1 - i
      ensures r.Some? ==> |r.value.Movers()| == nPops * nIndivs
      ensures r.Some? ==> forall j :: 0 <= j < |r.value.Positions()| ==> r.value.Positions()[j] == Pos(grid.width, grid.height)
    {
      if aijFile.None? {
        return None;
      }
      var aijs := new real[nPops * nPops](_ => 0.0);
      assert aijs[..] == TableParser.Zeros(nPops * nPops);
      var ok := TableParser.SetupArray(aijFile.value, nPops, aijs);
      if !ok {
        return None;
      }
      if deltaFile.None? {
        return None;
      }
      var deltas := new real[nPops * nPops](_ => 0.0);
      assert deltas[..] == TableParser.Zeros(nPops * nPops);
      ok := TableParser.SetupArray(deltaFile.value, nPops, deltas);
      if !ok {
        return None;
      }
      var env := new real[grid.width * grid.height](_ => 0.0);
      ok := TableParser.SetupEnv(envFile, grid.width, grid.height, env);
      if !ok {
        return None;
      }
      var sim := Assemble(grid, totalTime, startMeasureTime, nIndivs, nPops, spacing, envWeight,
                          packingTerm, kappa, radial, aijs[..], deltas[..], env[..]);
      r := Some(sim);
    }

    /**
     * The rest of kcr_init once the tables are read: the populations are
     * created (NewPopulations) and the root is filled in, its clock at 0.
     */
    static method Assemble(grid: Grid, totalTime: real, startMeasureTime: real, nIndivs: nat, nPops: nat,
                           spacing: real, envWeight: real, packingTerm: int, kappa: real, radial: (int, int) -> real,
                           aijs: seq<real>, deltas: seq<real>, envData: seq<real>)
      returns (sim: Simulation)
      requires grid.Valid() && spacing != 0.0
      requires |aijs| == nPops * nPops && |deltas| == nPops * nPops && |envData| == grid.width * grid.height
      ensures fresh(sim) && sim.Valid() && sim.currentTime == 0
      ensures sim.grid == grid && sim.nPops == nPops && sim.nIndivs == nIndivs
      ensures sim.totalTime == totalTime && sim.startMeasureTime == startMeasureTime
      ensures sim.Cfg() == Config(grid, spacing, nPops, aijs, deltas, packingTerm, kappa, radial)
      ensures sim.aijs == aijs && sim.deltas == deltas && sim.envData == envData
      ensures forall p :: 0 <= p < nPops ==> sim.populations[p].index == nPops - 1 - p
      ensures forall p, i :: 0 <= p < nPops && 0 <= i < nIndivs ==> sim.populations[p].members[i].index == nIndivs - 1 - i
      ensures |sim.Movers()| == nPops * nIndivs
      ensures forall j :: 0 <= j < |sim.Positions()| ==> sim.Positions()[j] == Pos(grid.width, grid.height)
    {
      var pops := NewPopulations(nPops, nIndivs, grid);
      FlattenSize(pops, nIndivs);
      SourcesBelow(pops, nPops);
      ghost var pos := PositionsOf(Flatten(pops));
      forall j | 0 <= j < |pos|
        ensures pos[j] == Pos(grid.width, grid.height)
      {
        PositionsOfIndex(Flatten(pops), j);
      }
      sim := new Simulation(grid, totalTime, startMeasureTime, nIndivs, nPops, spacing, envWeight,
                            packingTerm, kappa, radial, aijs, deltas, envData, pops);
      assert sim.Positions() == pos;
    }

    /** Record individual k, under the cursor, at (x, y). */
    method SetPosition(ind: Individual, ghost k: nat, x: int, y: int)
      requires Valid() && k < |Movers()| && Movers()[k] == ind
      modifies ind
      ensures Positions() == old(Positions())[k := Pos(x, y)]
    {
      ghost var ms := Movers();
      forall j | 0 <= j < |ms| && j != k
        ensures ms[j] != ind
      {
        if j < k {
          DistinctIndex(ms, j, k);
        } else {
          DistinctIndex(ms, k, j);
        }
      }
      forall j | 0 <= j < |ms|
        ensures Positions()[j] == Pos(ms[j].x, ms[j].y)
      {
        PositionsOfIndex(ms, j);
      }
      ind.x, ind.y := x, y;
      forall j | 0 <= j < |ms|
        ensures Positions()[j] == Pos(ms[j].x, ms[j].y)
      {
        PositionsOfIndex(ms, j);
      }
    }

    /**
     * kcr_move_individual for individual k of population `pop`: after the
     * sums, the direction is drawn with u = rand()/RAND_MAX (Lattice.Sample2D).
     */
    method MoveIndividual(ind: Individual, pop: Population, ghost k: nat, u: real)
      requires Valid() && k < |Movers()| && Movers()[k] == ind && Sources()[k] == pop.index
      modifies ind
      ensures Positions() == old(Positions())[k := Move2D(Cfg(), Sources(), old(Positions()), k, u)]
    {
      ghost var pos := Positions();
      PositionsOfIndex(Movers(), k);
      RosterLayout(populations, pos);
      FlattenAllocated(populations);
      var cfg := Cfg();
      var sx, sy, popsum := RosterBias2D(cfg, populations, ind, pop.index, Sources(), pos, k);
      PopsumIsCount(cfg, pos, k, |pos|);
      var q := Sample2D(grid, Pos(ind.x, ind.y), Clamp(Packed(cfg, sx, popsum)), Clamp(Packed(cfg, sy, popsum)), u);
      assert Positions() == pos && Move2D(cfg, Sources(), pos, k, u) == q;
      SetPosition(ind, k, q.x, q.y);
    }

    /**
     * kcr_move_individual1d for individual k of population `pop`: after the
     * sum, left or right is drawn with u = rand()/RAND_MAX (Lattice.Sample1D);
     * y is then set to 0.
     */
    method MoveIndividual1D(ind: Individual, pop: Population, ghost k: nat, u: real)
      requires Valid() && k < |Movers()| && Movers()[k] == ind && Sources()[k] == pop.index
      modifies ind
      ensures Positions() == old(Positions())[k := Move1D(Cfg(), Sources(), old(Positions()), k, u)]
    {
      ghost var pos := Positions();
      PositionsOfIndex(Movers(), k);
      RosterLayout(populations, pos);
      FlattenAllocated(populations);
      var cfg := Cfg();
      var sx := RosterBias1D(cfg, populations, ind, pop.index, Sources(), pos, k);
      var q := Sample1D(grid, ind.x, Clamp(sx), u);
      assert Positions() == pos && Move1D(cfg, Sources(), pos, k, u) == Pos(q.x, 0);
      SetPosition(ind, k, q.x, 0);
    }

    /**
     * The body of the inner loop of kcr_perform_simulation for individual n,
     * `ind` of population `pop`: it is moved (1D when the lattice is one cell
     * high) with draw u, its position is written while measuring (and to the
     * end file on the last tick), and the bounds asserts are checked; false
     * when one of them fails.
     */
    method HandleIndividual(ghost mv: Mover, ind: Individual, pop: Population, ghost t0: Trace, ghost us: seq<real>, ghost n: nat,
                            u: real, measuring: bool, last: bool, out0: seq<Record>, endOut0: seq<Record>)
      returns (inBounds: bool, out: seq<Record>, endOut: seq<Record>)
      requires Valid() && MovesAsKernel(mv, Cfg(), Sources())
      requires n < |Movers()| <= |us| && |t0.positions| == |Movers()| && u == us[n]
      requires Movers()[n] == ind && Sources()[n] == pop.index
      requires TickPrefix(mv, grid, t0, us, n, measuring, last) == Running(Trace(Positions(), out0, endOut0))
      modifies ind
      ensures var o := TickPrefix(mv, grid, t0, us, n + 1, measuring, last);
        inBounds == o.Running? && o.trace == Trace(Positions(), out, endOut)
    {
      ghost var pos := Positions();
      assert mv(pos, n, u) == Move(Cfg(), Sources(), pos, n, u);
      if grid.height == 1 {
        MoveIndividual1D(ind, pop, n, u);
      } else {
        MoveIndividual(ind, pop, n, u);
      }
      PositionsOfIndex(Movers(), n);
      out, endOut := out0, endOut0;
      if measuring {
        out := out + [Location(ind.x, ind.y)];
        if last {
          endOut := endOut + [Location(ind.x, ind.y)];
        }
      }
      inBounds := 0 <= ind.x && 0 <= ind.y && ind.x < grid.width && ind.y < grid.height;
    }

    /**
     * The individuals of population p, in list order, handled as the inner
     * loop of kcr_perform_simulation does: the tick goes on from the first of
     * them to the first of population p + 1, unless a bounds assert fails.
     */
    method MovePopulation(ghost mv: Mover, p: nat, n0: nat, us: seq<real>, measuring: bool, last: bool, ghost t0: Trace,
                          out0: seq<Record>, endOut0: seq<Record>)
      returns (ok: bool, out: seq<Record>, endOut: seq<Record>)
      requires Valid() && MovesAsKernel(mv, Cfg(), Sources())
      requires p < |populations| && n0 == Offset(populations, p) <= |Movers()| <= |us| && |t0.positions| == |Movers()|
      requires TickPrefix(mv, grid, t0, us, n0, measuring, last) == Running(Trace(Positions(), out0, endOut0))
      modifies Movers()
      ensures Offset(populations, p + 1) <= |Movers()|
      ensures var o := TickPrefix(mv, grid, t0, us, Offset(populations, p + 1), measuring, last);
        ok == o.Running? && o.trace == Trace(Positions(), out, endOut)
    {
      var curr := populations[p];
      OffsetBound(populations, p);
      OffsetNext(populations, p);
      ghost var end := Offset(populations, p + 1);
      out, endOut := out0, endOut0;
      var i, n := 0, n0;
      while i < |curr.members|
        invariant i <= |curr.members| && n == n0 + i && end == n0 + |curr.members|
        invariant TickPrefix(mv, grid, t0, us, n, measuring, last) == Running(Trace(Positions(), out, endOut))
      {
        var ind := curr.members[i];
        FlattenIndex(populations, p, i);
        var inBounds;
        inBounds, out, endOut := HandleIndividual(mv, ind, curr, t0, us, n, us[n], measuring, last, out, endOut);
        if !inBounds {
          AbortedStays(mv, grid, t0, us, n + 1, end, measuring, last);
          assert TickPrefix(mv, grid, t0, us, end, measuring, last).trace == Trace(Positions(), out, endOut);
          return false, out, endOut;
        }
        n, i := n + 1, i + 1;
      }
      ok := true;
    }

    /**
     * The body of the outer loop of kcr_perform_simulation after the clock has
     * moved on: every individual of every population is handled in turn;
     * false when a bounds assert fails.
     */
    method MoveAll(ghost mv: Mover, us: seq<real>, measuring: bool, last: bool, out0: seq<Record>, endOut0: seq<Record>)
      returns (ok: bool, out: seq<Record>, endOut: seq<Record>)
      requires Valid() && MovesAsKernel(mv, Cfg(), Sources()) && |us| >= |Movers()|
      modifies Movers()
      ensures var o := TickPrefix(mv, grid, Trace(old(Positions()), out0, endOut0), us, |Movers()|, measuring, last);
        ok == o.Running? && o.trace == Trace(Positions(), out, endOut)
    {
      ghost var t0 := Trace(Positions(), out0, endOut0);
      out, endOut := out0, endOut0;
      var p, n := 0, 0;
      while p < |populations|
        invariant p <= |populations| && n == Offset(populations, p) <= |Movers()|
        invariant TickPrefix(mv, grid, t0, us, n, measuring, last) == Running(Trace(Positions(), out, endOut))
      {
        ok, out, endOut := MovePopulation(mv, p, n, us, measuring, last, t0, out, endOut);
        OffsetNext(populations, p);
        n := n + |populations[p].members|;
        if !ok {
          AbortedStays(mv, grid, t0, us, n, |Movers()|, measuring, last);
          assert TickPrefix(mv, grid, t0, us, Offset(populations, p + 1), measuring, last).trace == Trace(Positions(), out, endOut);
          assert n == Offset(populations, p + 1);
          return;
        }
        p := p + 1;
      }
      OffsetEnd(populations);
      assert n == |Movers()| && t0 == Trace(old(Positions()), out0, endOut0);
      ok := true;
    }

    /**
     * kcr_perform_simulation: while current_time < total_time the clock is
     * incremented and every individual moved; a tick whose clock has reached
     * start_measure_time ends its line of output. The result is the run of
     * Stepping with the kernel's move; false when a bounds assert fails.
     */
    method PerformSimulation(draws: seq<seq<real>>, hasEndFile: bool) returns (ok: bool, out: seq<Record>, endOut: seq<Record>)
      requires Valid() && currentTime == 0
      requires DrawTable(draws, TickCount(totalTime), |Movers()|)
      modifies this, Movers()
      ensures var o := RunFrom(KernelMover(Cfg(), Sources()), grid, Trace(old(Positions()), [], []),
                               draws, 0, totalTime, startMeasureTime, hasEndFile);
        ok == o.Running? && o.trace == Trace(Positions(), out, endOut)
      ensures ok ==> currentTime == TickCount(totalTime)
      ensures AllInBounds(grid, old(Positions())) ==> ok && AllInBounds(grid, Positions())
    {
      ghost var mv := KernelMover(Cfg(), Sources());
      ghost var run := RunFrom(mv, grid, Trace(Positions(), [], []), draws, 0, totalTime, startMeasureTime, hasEndFile);
      KernelMoverStaysInBounds(Cfg(), Sources());
      KernelMoverMovesAsKernel(Cfg(), Sources());
      if AllInBounds(grid, Positions()) {
        RunStaysInBounds(mv, grid, Trace(Positions(), [], []), draws, 0, totalTime, startMeasureTime, hasEndFile);
      }
      out, endOut := [], [];
      while currentTime as real < totalTime
        invariant currentTime <= TickCount(totalTime)
        invariant RunFrom(mv, grid, Trace(Positions(), out, endOut), draws, currentTime, totalTime, startMeasureTime, hasEndFile) == run
        decreases TickCount(totalTime) - currentTime
      {
        var us := draws[currentTime];
        ghost var t := Trace(Positions(), out, endOut);
        currentTime := currentTime + 1;
        var measuring := currentTime as real >= startMeasureTime;
        var last := currentTime as real == totalTime && hasEndFile;
        ok, out, endOut := MoveAll(mv, us, measuring, last, out, endOut);
        if !ok {
          return;
        }
        if measuring {
          out := out + [EndOfTick];
          if last {
            endOut := endOut + [EndOfTick];
          }
        }
        assert Tick(mv, grid, t, us, measuring, last) == Running(Trace(Positions(), out, endOut));
      }
      ok := true;
    }

    /**
     * kcr_set_init_conds without a start file: individual j of the traversal
     * is placed at (rand() mod box_width, rand() mod box_height), the two
     * draws being randoms[2j] and randoms[2j + 1]; the clock is set to 0.
     */
    method PlaceRandomly(randoms: seq<nat>)
      requires Valid() && |randoms| >= 2 * |Movers()|
      modifies this, Movers()
      ensures Positions() == StartParser.RandomPlacement(grid, randoms, |Movers()|)
      ensures currentTime == 0
    {
      var p := 0;
      while p < |populations|
        invariant p <= |populations| && Offset(populations, p) <= |Movers()|
        invariant forall j :: 0 <= j < Offset(populations, p) ==>
          Positions()[j] == Pos(randoms[2 * j] % grid.width, randoms[2 * j + 1] % grid.height)
      {
        PlacePopulation(p, randoms);
        OffsetNext(populations, p);
        OffsetBound(populations, p);
        p := p + 1;
      }
      OffsetEnd(populations);
      currentTime := 0;
    }

    /**
     * The inner loop of PlaceRandomly for population p: its individuals,
     * entries Offset(p) .. Offset(p + 1) - 1 of the traversal, get their draws,
     * and no one else moves.
     */
    method PlacePopulation(p: nat, randoms: seq<nat>)
      requires Valid() && p < |populations| && |randoms| >= 2 * |Movers()|
      modifies Movers()
      ensures forall j :: 0 <= j < |Movers()| ==>
        Positions()[j] == (if Offset(populations, p) <= j < Offset(populations, p + 1)
                           then Pos(randoms[2 * j] % grid.width, randoms[2 * j + 1] % grid.height)
                           else old(Positions())[j])
    {
      var curr := populations[p];
      OffsetBound(populations, p);
      OffsetNext(populations, p);
      var n := Offset(populations, p);
      var i := 0;
      while i < |curr.members|
        invariant i <= |curr.members| && n == Offset(populations, p) + i <= |Movers()|
        invariant forall j :: 0 <= j < |Movers()| ==>
          Positions()[j] == (if Offset(populations, p) <= j < n then Pos(randoms[2 * j] % grid.width, randoms[2 * j + 1] % grid.height)
                             else old(Positions())[j])
      {
        var ind := curr.members[i];
        FlattenIndex(populations, p, i);
        SetPosition(ind, n, randoms[2 * n] % grid.width, randoms[2 * n + 1] % grid.height);
        n, i := n + 1, i + 1;
      }
    }

    /**
     * The list cursors of the start-file reader: individual i of population p,
     * entry n of the traversal; n is the end of the traversal exactly when the
     * individual cursor is NULL.
     */
    predicate Cursor(p: nat, i: nat, n: nat) {
      && p < |populations| && i <= |populations[p].members|
      && n == Offset(populations, p) + i <= |Movers()|
      && (n < |Movers()| <==> i < |populations[p].members|)
    }

    /**
     * A tab or newline right after a digit in kcr_set_init_conds: the number
     * becomes the x, or the y, of the individual under the cursor, and after a
     * y the cursor moves on, to the next population's first individual when
     * the population is done. `fail` when the cursor is NULL (the assert),
     * `stop` when the last population is done (the break).
     */
    method EndNumber(c: char, p: nat, i: nat, value: nat, wantY: bool, ghost n: nat)
      returns (fail: bool, stop: bool, p': nat, i': nat, wantY': bool, ghost n': nat)
      requires Valid() && Cursor(p, i, n) && (c == '\n' || c == '\t')
      modifies Movers()
      ensures var o := StartParser.StartStep(StartParser.StartScan(value, true, wantY, n, old(Positions())), c);
        && (fail <==> o.Fail?)
        && (!fail ==> (stop <==> o.Break?) && o.s == StartParser.StartScan(0, stop, wantY', n', Positions()) && Cursor(p', i', n'))
    {
      ghost var s := StartParser.StartScan(value, true, wantY, n, Positions());
      var curr := populations[p];
      if i == |curr.members| {
        return true, false, p, i, wantY, n;
      }
      FlattenSize(populations, nIndivs);
      var ind := curr.members[i];
      FlattenIndex(populations, p, i);
      OffsetBound(populations, p);
      PositionsOfIndex(Movers(), n);
      fail, stop, p', i', n' := false, false, p, i, n;
      if !wantY {
        SetPosition(ind, n, value, ind.y);
        wantY' := true;
      } else {
        SetPosition(ind, n, ind.x, value);
        wantY' := false;
        i', n' := i + 1, n + 1;
        if i' == |curr.members| {
          OffsetNext(populations, p);
          if p + 1 < |populations| {
            OffsetBound(populations, p + 1);
            p', i' := p + 1, 0;
          } else {
            OffsetEnd(populations);
            stop := true;
          }
        }
      }
    }

    /**
     * The end of the start file in kcr_set_init_conds: a number still pending
     * after a digit goes to the individual under the cursor unless it is NULL.
     */
    method StorePending(p: nat, i: nat, value: nat, afterDigit: bool, wantY: bool, ghost n: nat)
      requires Valid() && Cursor(p, i, n)
      modifies Movers()
      ensures Positions() == StartParser.StartFinish(StartParser.StartScan(value, afterDigit, wantY, n, old(Positions())))
    {
      if afterDigit && i < |populations[p].members| {
        var ind := populations[p].members[i];
        FlattenIndex(populations, p, i);
        PositionsOfIndex(Movers(), n);
        if !wantY {
          SetPosition(ind, n, value, ind.y);
        } else {
          SetPosition(ind, n, ind.x, value);
        }
      }
    }

    /**
     * kcr_set_init_conds with a start file: numbers are read and given, x
     * then y, to the individuals in traversal order (see StartParser); the
     * clock is set to 0. False when an assert fails: no population to start
     * from, or a number with no individual left to take it.
     */
    method ReadStart(input: seq<char>) returns (ok: bool)
      requires Valid()
      modifies this, Movers()
      ensures ok <==> StartParser.ParseStart(input, nPops, old(Positions())).Some?
      ensures ok ==> Positions() == StartParser.ParseStart(input, nPops, old(Positions())).value && currentTime == 0
    {
      ghost var init := Positions();
      if |populations| == 0 {
        return false;
      }
      FlattenSize(populations, nIndivs);
      OffsetBound(populations, 0);
      var p: nat, i: nat := 0, 0;
      var value: nat, afterDigit, wantY := 0, false, false;
      ghost var n: nat := 0;
      var idx := 0;
      while idx < |input|
        invariant idx <= |input| && Cursor(p, i, n)
        invariant StartParser.StartRun(StartParser.StartOf(init), input)
               == StartParser.StartRun(StartParser.StartScan(value, afterDigit, wantY, n, Positions()), input[idx..])
      {
        ghost var s := StartParser.StartScan(value, afterDigit, wantY, n, Positions());
        var c := input[idx];
        assert input[idx..][0] == c && input[idx..][1..] == input[idx + 1..];
        if TableParser.IsDigit(c) {
          value, afterDigit := value * 10 + TableParser.DigitValue(c), true;
        } else if (c == '\n' || c == '\t') && afterDigit {
          var fail, stop;
          fail, stop, p, i, wantY, n := EndNumber(c, p, i, value, wantY, n);
          if fail {
            return false;
          }
          value := 0;
          if stop {
            break;
          }
          afterDigit := false;
        } else {
          afterDigit := false;
        }
        assert StartParser.StartStep(s, c) == StartParser.Next(StartParser.StartScan(value, afterDigit, wantY, n, Positions()));
        idx := idx + 1;
      }
      if idx == |input| {
        assert input[idx..] == [];
      }
      ghost var s := StartParser.StartScan(value, afterDigit, wantY, n, Positions());
      assert StartParser.StartRun(StartParser.StartOf(init), input) == Some(s);
      StorePending(p, i, value, afterDigit, wantY, n);
      assert StartParser.ParseStart(input, nPops, init) == Some(Positions());
      currentTime := 0;
      ok := true;
    }

    /** kcr_set_init_conds: from the start file when there is one, at random otherwise. */
    method SetInitConds(startFile: Option<seq<char>>, randoms: seq<nat>) returns (ok: bool)
      requires Valid() && (startFile.None? ==> |randoms| >= 2 * |Movers()|)
      modifies this, Movers()
      ensures startFile.None? ==> ok && Positions() == StartParser.RandomPlacement(grid, randoms, |Movers()|)
      ensures startFile.Some? ==> (ok <==> StartParser.ParseStart(startFile.value, nPops, old(Positions())).Some?)
      ensures startFile.Some? && ok ==> Positions() == StartParser.ParseStart(startFile.value, nPops, old(Positions())).value
      ensures ok ==> currentTime == 0
    {
      if startFile.None? {
        PlaceRandomly(randoms);
        ok := true;
      } else {
        ok := ReadStart(startFile.value);
      }
    }
  }
}
