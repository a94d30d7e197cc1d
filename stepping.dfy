/**
 * The outer loop of kcr_perform_simulation as a specification: one tick moves
 * every individual once, in place and in list order (so later movers see the
 * new positions of earlier ones), records positions while measuring, and
 * aborts at the first individual found outside the lattice after its move.
 *
 * The move itself is a parameter `mv`; the simulation uses Kernel.KernelMover.
 */
module Stepping {
  import opened Lattice
  import opened Kernel

  /** What the simulation writes: a "%i\t%i\t" position, or the "\n" that ends a tick. */
  datatype Record = Location(x: int, y: int) | EndOfTick

  /** Positions of the roster and what has been written to stdout and to the end file. */
  datatype Trace = Trace(positions: seq<Pos>, out: seq<Record>, endOut: seq<Record>)

  /** Running, or stopped by one of the bounds asserts (after the offending position was written). */
  datatype Outcome = Running(trace: Trace) | Aborted(trace: Trace)

  predicate AllInBounds(g: Grid, pos: seq<Pos>) {
    forall j :: 0 <= j < |pos| ==> g.Contains(pos[j])
  }

  predicate Draws(us: seq<real>) {
    forall j :: 0 <= j < |us| ==> 0.0 <= us[j] <= 1.0
  }

  /** A move rule that keeps an in-bounds individual of an n-strong roster in bounds. */
  ghost predicate KeepsInBounds(g: Grid, mv: Mover, n: nat) {
    forall pos: seq<Pos>, k: nat, u: real {:trigger mv(pos, k, u)} ::
      |pos| == n && k < n && g.Contains(pos[k]) && 0.0 <= u <= 1.0 ==> g.Contains(mv(pos, k, u))
  }

  /**
   * Move individual n with draw u, write its position when measuring (and to the
   * end file on the last tick), then check the bounds asserts.
   */
  function MoveAndRecord(mv: Mover, g: Grid, t: Trace, n: nat, u: real, measuring: bool, last: bool): (o: Outcome)
    requires n < |t.positions|
    ensures o.trace.positions == t.positions[n := mv(t.positions, n, u)]
    ensures o.Running? <==> g.Contains(o.trace.positions[n])
  {
    var p := mv(t.positions, n, u);
    var out := if measuring then t.out + [Location(p.x, p.y)] else t.out;
    var endOut := if measuring && last then t.endOut + [Location(p.x, p.y)] else t.endOut;
    var t' := Trace(t.positions[n := p], out, endOut);
    if g.Contains(p) then Running(t') else Aborted(t')
  }

  /** The state of a tick after the first n individuals have been handled. */
  function TickPrefix(mv: Mover, g: Grid, t0: Trace, us: seq<real>, n: nat, measuring: bool, last: bool): (o: Outcome)
    requires n <= |t0.positions| && n <= |us|
    ensures |o.trace.positions| == |t0.positions|
    decreases n
  {
    if n == 0 then Running(t0)
    else
      match TickPrefix(mv, g, t0, us, n - 1, measuring, last)
      case Aborted(t) => Aborted(t)
      case Running(t) => MoveAndRecord(mv, g, t, n - 1, us[n - 1], measuring, last)
  }

  /** One iteration of the outer while loop, for the clock value it has just set. */
  function Tick(mv: Mover, g: Grid, t0: Trace, us: seq<real>, measuring: bool, last: bool): (o: Outcome)
    requires |t0.positions| <= |us|
    ensures |o.trace.positions| == |t0.positions|
  {
    match TickPrefix(mv, g, t0, us, |t0.positions|, measuring, last)
    case Aborted(t) => Aborted(t)
    case Running(t) =>
      Running(Trace(t.positions,
                    if measuring then t.out + [EndOfTick] else t.out,
                    if measuring && last then t.endOut + [EndOfTick] else t.endOut))
  }

  /** The number of iterations of `while (current_time < total_time) current_time++` from 0. */
  function TickCount(total: real): (n: nat)
    ensures forall t: nat {:trigger t as real} :: t as real < total <==> t < n
  {
    if total <= 0.0 then 0
    else if total.Floor as real == total then total.Floor
    else total.Floor + 1
  }

  /** The per-tick draws cover every tick and every individual, and lie in [0, 1]. */
  predicate DrawTable(draws: seq<seq<real>>, ticks: nat, movers: nat) {
    |draws| >= ticks && forall i :: 0 <= i < |draws| ==> |draws[i]| >= movers && Draws(draws[i])
  }

  /**
   * The simulation from clock value `time` on: each tick first increments the
   * clock; it measures when the new clock is at least `start` and writes the end
   * file when the new clock equals `total` and there is an end file.
   */
  function RunFrom(mv: Mover, g: Grid, t: Trace, draws: seq<seq<real>>, time: nat,
                   total: real, start: real, hasEndFile: bool): (o: Outcome)
    requires time <= TickCount(total) && DrawTable(draws, TickCount(total), |t.positions|)
    ensures |o.trace.positions| == |t.positions|
    decreases TickCount(total) - time
  {
    if time as real >= total then Running(t)
    else
      var now := time + 1;
      match Tick(mv, g, t, draws[time], now as real >= start, now as real == total && hasEndFile)
      case Aborted(t') => Aborted(t')
      case Running(t') => RunFrom(mv, g, t', draws, now, total, start, hasEndFile)
  }

  // ---------------------------------------------------------------------------
  // Properties
  // ---------------------------------------------------------------------------

  /**
   * Within a tick the individuals not yet handled are where the tick found them,
   * and what has been written only grows: while measuring, by one record per
   * individual handled (all n of them unless an assert stopped the tick).
   */
  lemma {:induction false} TickPrefixShape(mv: Mover, g: Grid, t0: Trace, us: seq<real>, n: nat, measuring: bool, last: bool)
    requires n <= |t0.positions| && n <= |us|
    ensures var o := TickPrefix(mv, g, t0, us, n, measuring, last);
      && (forall j :: n <= j < |t0.positions| ==> o.trace.positions[j] == t0.positions[j])
      && (measuring ==> |t0.out| <= |o.trace.out| <= |t0.out| + n && o.trace.out[..|t0.out|] == t0.out)
      && (measuring && o.Running? ==> |o.trace.out| == |t0.out| + n)
      && (!measuring ==> o.trace.out == t0.out)
      && (!(measuring && last) ==> o.trace.endOut == t0.endOut)
    decreases n
  {
    if n > 0 {
      TickPrefixShape(mv, g, t0, us, n - 1, measuring, last);
      var o := TickPrefix(mv, g, t0, us, n - 1, measuring, last);
      if o.Running? {
        var t := o.trace;
        var t' := TickPrefix(mv, g, t0, us, n, measuring, last).trace;
        if measuring {
          assert t'.out == t.out + [Location(t'.positions[n - 1].x, t'.positions[n - 1].y)];
          assert t'.out[..|t0.out|] == t.out[..|t0.out|];
        }
      }
    }
  }

  /** Once a bounds assert has stopped a tick, the individuals after it are neither moved nor written. */
  lemma {:induction false} AbortedStays(mv: Mover, g: Grid, t0: Trace, us: seq<real>, n: nat, m: nat, measuring: bool, last: bool)
    requires n <= m <= |t0.positions| && m <= |us|
    requires TickPrefix(mv, g, t0, us, n, measuring, last).Aborted?
    ensures TickPrefix(mv, g, t0, us, m, measuring, last) == TickPrefix(mv, g, t0, us, n, measuring, last)
    decreases m
  {
    if m > n {
      AbortedStays(mv, g, t0, us, n, m - 1, measuring, last);
    }
  }

  /**
   * The bounds asserts never fire on an in-bounds start: with a move rule that
   * keeps individuals in bounds and draws in [0, 1], every prefix of a tick is
   * running and keeps every individual inside the lattice.
   */
  lemma {:induction false} TickPrefixStaysInBounds(mv: Mover, g: Grid, t0: Trace, us: seq<real>, n: nat, measuring: bool, last: bool)
    requires n <= |t0.positions| && n <= |us| && KeepsInBounds(g, mv, |t0.positions|)
    requires AllInBounds(g, t0.positions) && Draws(us)
    ensures TickPrefix(mv, g, t0, us, n, measuring, last).Running?
    ensures AllInBounds(g, TickPrefix(mv, g, t0, us, n, measuring, last).trace.positions)
    decreases n
  {
    if n > 0 {
      TickPrefixStaysInBounds(mv, g, t0, us, n - 1, measuring, last);
      var t := TickPrefix(mv, g, t0, us, n - 1, measuring, last).trace;
      assert g.Contains(mv(t.positions, n - 1, us[n - 1]));
    }
  }

  /**
   * The records "%i\t%i\t" of the positions ps, in roster order.
   */
  function Locations(ps: seq<Pos>): (rs: seq<Record>)
    ensures |rs| == |ps|
    ensures forall j :: 0 <= j < |ps| ==> rs[j] == Location(ps[j].x, ps[j].y)
    decreases |ps|
  {
    if ps == [] then [] else Locations(ps[..|ps| - 1]) + [Location(ps[|ps| - 1].x, ps[|ps| - 1].y)]
  }

  /**
   * While measuring, the first n moves of a running tick write the new positions
   * of the first n individuals, in roster order (and the same to the end file
   * on the last tick): each individual is written right after its own move, and
   * later moves change only later entries of the roster.
   */
  lemma {:induction false} TickPrefixRecords(mv: Mover, g: Grid, t0: Trace, us: seq<real>, n: nat, measuring: bool, last: bool)
    requires n <= |t0.positions| && n <= |us|
    requires TickPrefix(mv, g, t0, us, n, measuring, last).Running?
    ensures var t := TickPrefix(mv, g, t0, us, n, measuring, last).trace;
      && (measuring ==> t.out == t0.out + Locations(t.positions[..n]))
      && (measuring && last ==> t.endOut == t0.endOut + Locations(t.positions[..n]))
    decreases n
  {
    if n == 0 {
      assert TickPrefix(mv, g, t0, us, n, measuring, last).trace.positions[..n] == [];
      assert t0.out + [] == t0.out && t0.endOut + [] == t0.endOut;
    } else {
      var o := TickPrefix(mv, g, t0, us, n - 1, measuring, last);
      assert o.Running?;
      TickPrefixRecords(mv, g, t0, us, n - 1, measuring, last);
      var t, t' := o.trace, TickPrefix(mv, g, t0, us, n, measuring, last).trace;
      var p := t'.positions[n - 1];
      assert t'.positions[..n][..n - 1] == t'.positions[..n - 1] == t.positions[..n - 1];
      assert Locations(t'.positions[..n]) == Locations(t.positions[..n - 1]) + [Location(p.x, p.y)];
    }
  }

  /**
   * A tick that runs to the end writes, while measuring, every individual's new
   * position in roster order and then the newline, and writes the same to the
   * end file on the last tick; otherwise it writes nothing there.
   */
  lemma TickRecords(mv: Mover, g: Grid, t0: Trace, us: seq<real>, measuring: bool, last: bool)
    requires |t0.positions| <= |us|
    requires Tick(mv, g, t0, us, measuring, last).Running?
    ensures var t := Tick(mv, g, t0, us, measuring, last).trace;
      && (measuring ==> t.out == t0.out + Locations(t.positions) + [EndOfTick])
      && (!measuring ==> t.out == t0.out)
      && (measuring && last ==> t.endOut == t0.endOut + Locations(t.positions) + [EndOfTick])
      && (!(measuring && last) ==> t.endOut == t0.endOut)
  {
    var n := |t0.positions|;
    TickPrefixRecords(mv, g, t0, us, n, measuring, last);
    TickPrefixShape(mv, g, t0, us, n, measuring, last);
    var t := TickPrefix(mv, g, t0, us, n, measuring, last).trace;
    assert t.positions[..n] == t.positions;
  }

  /**
   * A whole tick from an in-bounds start runs and stays in bounds; while
   * measuring it writes every new position in roster order and then the newline.
   */
  lemma TickStaysInBounds(mv: Mover, g: Grid, t0: Trace, us: seq<real>, measuring: bool, last: bool)
    requires |t0.positions| <= |us| && KeepsInBounds(g, mv, |t0.positions|)
    requires AllInBounds(g, t0.positions) && Draws(us)
    ensures Tick(mv, g, t0, us, measuring, last).Running?
    ensures AllInBounds(g, Tick(mv, g, t0, us, measuring, last).trace.positions)
    ensures var t := Tick(mv, g, t0, us, measuring, last).trace;
      measuring ==> t.out == t0.out + Locations(t.positions) + [EndOfTick]
    ensures !measuring ==> Tick(mv, g, t0, us, measuring, last).trace.out == t0.out
  {
    TickPrefixStaysInBounds(mv, g, t0, us, |t0.positions|, measuring, last);
    TickRecords(mv, g, t0, us, measuring, last);
  }

  /** The whole simulation from an in-bounds start never aborts and ends in bounds. */
  lemma {:induction false} RunStaysInBounds(mv: Mover, g: Grid, t: Trace, draws: seq<seq<real>>, time: nat,
                                            total: real, start: real, hasEndFile: bool)
    requires time <= TickCount(total) && DrawTable(draws, TickCount(total), |t.positions|)
    requires KeepsInBounds(g, mv, |t.positions|) && AllInBounds(g, t.positions)
    ensures RunFrom(mv, g, t, draws, time, total, start, hasEndFile).Running?
    ensures AllInBounds(g, RunFrom(mv, g, t, draws, time, total, start, hasEndFile).trace.positions)
    decreases TickCount(total) - time
  {
    if time as real < total {
      var now := time + 1;
      var measuring, last := now as real >= start, now as real == total && hasEndFile;
      TickStaysInBounds(mv, g, t, draws[time], measuring, last);
      RunStaysInBounds(mv, g, Tick(mv, g, t, draws[time], measuring, last).trace, draws, now, total, start, hasEndFile);
    }
  }

  /**
   * The end file is written only on the tick whose clock equals total_time, so
   * when total_time is not a whole number (or there is no end file) it stays empty.
   */
  lemma {:induction false} EndFileOnlyOnLastTick(mv: Mover, g: Grid, t: Trace, draws: seq<seq<real>>, time: nat,
                                                  total: real, start: real, hasEndFile: bool)
    requires time <= TickCount(total) && DrawTable(draws, TickCount(total), |t.positions|)
    requires total.Floor as real != total || !hasEndFile
    ensures RunFrom(mv, g, t, draws, time, total, start, hasEndFile).trace.endOut == t.endOut
    decreases TickCount(total) - time
  {
    if time as real < total {
      var now := time + 1;
      assert !(now as real == total && hasEndFile) by {
        if now as real == total { assert total.Floor == now; }
      }
      var us, measuring := draws[time], now as real >= start;
      TickPrefixShape(mv, g, t, us, |t.positions|, measuring, false);
      match Tick(mv, g, t, us, measuring, false)
      case Aborted(t') =>
      case Running(t') => EndFileOnlyOnLastTick(mv, g, t', draws, now, total, start, hasEndFile);
    }
  }

  /**
   * With an end file and a whole-number total_time, a run that reaches the end
   * writes to the end file exactly once, on the tick whose clock equals
   * total_time: every final position in roster order and then the newline, or
   * nothing when that tick is before start_measure_time.
   */
  lemma {:induction false} EndFileOnLastTick(mv: Mover, g: Grid, t: Trace, draws: seq<seq<real>>, time: nat,
                                             total: real, start: real, hasEndFile: bool)
    requires time < TickCount(total) && DrawTable(draws, TickCount(total), |t.positions|)
    requires hasEndFile && total == TickCount(total) as real
    requires RunFrom(mv, g, t, draws, time, total, start, hasEndFile).Running?
    ensures var f := RunFrom(mv, g, t, draws, time, total, start, hasEndFile).trace;
      f.endOut == t.endOut + (if total >= start then Locations(f.positions) + [EndOfTick] else [])
    decreases TickCount(total) - time
  {
    var now := time + 1;
    assert time as real < total;
    var us, measuring, last := draws[time], now as real >= start, now as real == total && hasEndFile;
    var o := Tick(mv, g, t, us, measuring, last);
    assert o.Running?;
    TickRecords(mv, g, t, us, measuring, last);
    if now == TickCount(total) {
      assert RunFrom(mv, g, o.trace, draws, now, total, start, hasEndFile) == Running(o.trace);
    } else {
      assert now as real < total;
      EndFileOnLastTick(mv, g, o.trace, draws, now, total, start, hasEndFile);
    }
  }

  /** Nothing is written to stdout while the clock stays below start_measure_time. */
  lemma {:induction false} NothingBeforeStart(mv: Mover, g: Grid, t: Trace, draws: seq<seq<real>>, time: nat,
                                              total: real, start: real, hasEndFile: bool)
    requires time <= TickCount(total) && DrawTable(draws, TickCount(total), |t.positions|)
    requires (TickCount(total) as real) < start
    ensures RunFrom(mv, g, t, draws, time, total, start, hasEndFile).trace.out == t.out
    decreases TickCount(total) - time
  {
    if time as real < total {
      var now := time + 1;
      var us, last := draws[time], now as real == total && hasEndFile;
      TickPrefixShape(mv, g, t, us, |t.positions|, false, last);
      match Tick(mv, g, t, us, false, last)
      case Aborted(t') =>
      case Running(t') => NothingBeforeStart(mv, g, t', draws, now, total, start, hasEndFile);
    }
  }
}
