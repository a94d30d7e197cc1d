/**
 * The start-position reader of kcr_set_init_conds: unsigned integers ended by
 * a tab or a newline, assigned alternately to x and y of the individuals in
 * list order (every individual of the first population, then of the next, ...).
 *
 * The individuals are a flat roster of positions and the list cursors are one
 * index into it; the index equal to the roster's length is the NULL cursor.
 */
module StartParser {
  import opened Wrappers
  import opened Lattice
  import TableParser

  /**
   * The reader's variables: curr_val, whether prev_char was a digit, xy_val
   * (false for x, true for y), the cursor and the positions.
   */
  datatype StartScan = StartScan(value: nat, afterDigit: bool, wantY: bool, cursor: nat, positions: seq<Pos>)

  /** What one character does: go on, leave the loop after the last y, or fail an assert. */
  datatype Outcome = Next(s: StartScan) | Break(s: StartScan) | Fail

  /** The variables before the first character (prev_char taken as not a digit). */
  function StartOf(init: seq<Pos>): StartScan {
    StartScan(0, false, false, 0, init)
  }

  /**
   * One iteration of the reading loop. A digit accumulates curr_val·10 + d. A
   * tab or newline right after a digit ends the number: it becomes the x of
   * the individual under the cursor, or its y, after which the cursor moves to
   * the next individual and the loop is left when there is none. Ending a
   * number with a NULL cursor fails the assert. Anything else is skipped
   * without ending the number.
   */
  function StartStep(s: StartScan, c: char): (o: Outcome)
    requires s.cursor <= |s.positions|
    ensures o.Fail? <==> (c == '\n' || c == '\t') && s.afterDigit && s.cursor == |s.positions|
    ensures !o.Fail? ==> |o.s.positions| == |s.positions| && s.cursor <= o.s.cursor <= |s.positions|
    ensures o.Break? ==> o.s.cursor == |s.positions|
    ensures !o.Fail? ==> forall j :: 0 <= j < |s.positions| && j != s.cursor ==> o.s.positions[j] == s.positions[j]
  {
    if TableParser.IsDigit(c) then
      Next(s.(value := s.value * 10 + TableParser.DigitValue(c), afterDigit := true))
    else if (c == '\n' || c == '\t') && s.afterDigit then
      if s.cursor == |s.positions| then Fail
      else
        var p := s.positions[s.cursor];
        if !s.wantY then
          Next(StartScan(0, false, true, s.cursor, s.positions[s.cursor := Pos(s.value, p.y)]))
        else if s.cursor + 1 < |s.positions| then
          Next(StartScan(0, false, false, s.cursor + 1, s.positions[s.cursor := Pos(p.x, s.value)]))
        else
          // The break leaves prev_char at the digit before the separator.
          Break(StartScan(0, true, false, s.cursor + 1, s.positions[s.cursor := Pos(p.x, s.value)]))
    else
      Next(s.(afterDigit := false))
  }

  /** The reading loop over the input from state s; None when an assert fails. */
  function StartRun(s: StartScan, input: seq<char>): (r: Option<StartScan>)
    requires s.cursor <= |s.positions|
    ensures r.Some? ==> |r.value.positions| == |s.positions| && s.cursor <= r.value.cursor <= |s.positions|
    decreases |input|
  {
    if input == [] then Some(s)
    else
      match StartStep(s, input[0])
      case Fail => None
      case Break(t) => Some(t)
      case Next(t) => StartRun(t, input[1..])
  }

  /** At end of file a number still pending after a digit goes to the individual under the cursor, if any. */
  function StartFinish(s: StartScan): (ps: seq<Pos>)
    requires s.cursor <= |s.positions|
    ensures |ps| == |s.positions|
    ensures forall j :: 0 <= j < |ps| && j != s.cursor ==> ps[j] == s.positions[j]
  {
    if s.afterDigit && s.cursor < |s.positions| then
      var p := s.positions[s.cursor];
      s.positions[s.cursor := if !s.wantY then Pos(s.value, p.y) else Pos(p.x, s.value)]
    else s.positions
  }

  /**
   * The positions after reading a start file over the roster `init`; None when
   * there is no population (the first population is dereferenced unchecked)
   * or when a number is ended with no individual left to take it.
   */
  function ParseStart(input: seq<char>, pops: nat, init: seq<Pos>): (r: Option<seq<Pos>>)
    ensures r.Some? ==> |r.value| == |init|
    ensures pops == 0 ==> r == None
  {
    if pops == 0 then None
    else
      match StartRun(StartOf(init), input)
      case None => None
      case Some(s) => Some(StartFinish(s))
  }

  /** Random placement: individual j gets x = draws[2j] mod width, then y = draws[2j+1] mod height. */
  function RandomPlacement(g: Grid, draws: seq<nat>, n: nat): (ps: seq<Pos>)
    requires g.Valid() && |draws| >= 2 * n
    ensures |ps| == n
    ensures forall j :: 0 <= j < n ==> ps[j] == Pos(draws[2 * j] % g.width, draws[2 * j + 1] % g.height)
  {
    seq(n, j requires 0 <= j < n => Pos(draws[2 * j] % g.width, draws[2 * j + 1] % g.height))
  }

  // ---------------------------------------------------------------------------
  // Properties
  // ---------------------------------------------------------------------------

  /** Random placement puts every individual inside the lattice. */
  lemma RandomPlacementInBounds(g: Grid, draws: seq<nat>, n: nat)
    requires g.Valid() && |draws| >= 2 * n
    ensures forall j :: 0 <= j < n ==> g.Contains(RandomPlacement(g, draws, n)[j])
  {
  }

  /**
   * The loop over a prefix of the input, also telling whether it left the loop
   * early (so that the rest of the input is never read).
   */
  function StartRunStops(s: StartScan, input: seq<char>): (r: Option<(StartScan, bool)>)
    requires s.cursor <= |s.positions|
    ensures r.Some? ==> r.value.0.cursor <= |r.value.0.positions|
    ensures r.Some? ==> StartRun(s, input) == Some(r.value.0)
    ensures r.None? <==> StartRun(s, input).None?
    decreases |input|
  {
    if input == [] then Some((s, false))
    else
      match StartStep(s, input[0])
      case Fail => None
      case Break(t) => Some((t, true))
      case Next(t) => StartRunStops(t, input[1..])
  }

  /** Reading a + b: a, then b unless a left the loop. */
  lemma {:induction false} StartStopsConcat(s: StartScan, a: seq<char>, b: seq<char>)
    requires s.cursor <= |s.positions|
    ensures StartRunStops(s, a + b)
         == match StartRunStops(s, a)
            case None => None
            case Some((t, stopped)) => if stopped then Some((t, true)) else StartRunStops(t, b)
    decreases |a|
  {
    if a == [] {
      assert a + b == b;
    } else {
      assert (a + b)[0] == a[0] && (a + b)[1..] == a[1..] + b;
      match StartStep(s, a[0])
      case Fail =>
      case Break(t) =>
      case Next(t) => StartStopsConcat(t, a[1..], b);
    }
  }

  /** Reading a single character is one step of the loop. */
  lemma StartStopsOne(s: StartScan, c: char)
    requires s.cursor <= |s.positions|
    ensures StartRunStops(s, [c])
         == match StartStep(s, c) case Fail => None case Break(t) => Some((t, true)) case Next(t) => Some((t, false))
  {
    assert [c][1..] == [];
  }

  /** The digits of n, read from curr_val 0, accumulate to n and end after a digit. */
  lemma {:induction false} StartRunDigits(s: StartScan, n: nat)
    requires s.cursor <= |s.positions| && s.value == 0
    ensures StartRunStops(s, TableParser.Digits(n)) == Some((s.(value := n, afterDigit := true), false))
    decreases n
  {
    if n < 10 {
      StartStopsOne(s, TableParser.DigitChar(n));
    } else {
      var d := TableParser.DigitChar(n % 10);
      StartRunDigits(s, n / 10);
      StartStopsConcat(s, TableParser.Digits(n / 10), [d]);
      StartStopsOne(s.(value := n / 10, afterDigit := true), d);
    }
  }

  /** One individual's line of a start file: "x\ty\n". */
  function Line(p: Pos): seq<char>
    requires p.x >= 0 && p.y >= 0
  {
    TableParser.Digits(p.x as nat) + ['\t'] + (TableParser.Digits(p.y as nat) + ['\n'])
  }

  /** Positions with non-negative coordinates, as a start file can give them. */
  predicate Natural(ps: seq<Pos>) {
    forall j :: 0 <= j < |ps| ==> ps[j].x >= 0 && ps[j].y >= 0
  }

  /** Positions in the start file's format, one line per individual. */
  function RenderStart(ps: seq<Pos>): seq<char>
    requires Natural(ps)
  {
    if ps == [] then [] else Line(ps[0]) + RenderStart(ps[1..])
  }

  /** No number pending and an x expected next: the state between two lines. */
  predicate Fresh(s: StartScan) {
    s.value == 0 && !s.afterDigit && !s.wantY
  }

  /** An x value ended by a tab goes to the individual under the cursor, and a y is expected next. */
  lemma StartRunX(s: StartScan, n: nat)
    requires Fresh(s) && s.cursor < |s.positions|
    ensures StartRunStops(s, TableParser.Digits(n) + ['\t'])
         == Some((StartScan(0, false, true, s.cursor, s.positions[s.cursor := Pos(n, s.positions[s.cursor].y)]), false))
  {
    StartStopsConcat(s, TableParser.Digits(n), ['\t']);
    StartRunDigits(s, n);
    StartStopsOne(s.(value := n, afterDigit := true), '\t');
  }

  /**
   * A y value ended by a newline goes to the individual under the cursor, and
   * the cursor moves on; after the last individual the loop is left.
   */
  lemma StartRunY(s: StartScan, n: nat)
    requires s.value == 0 && !s.afterDigit && s.wantY && s.cursor < |s.positions|
    ensures var last := s.cursor + 1 == |s.positions|;
      StartRunStops(s, TableParser.Digits(n) + ['\n'])
      == Some((StartScan(0, last, false, s.cursor + 1, s.positions[s.cursor := Pos(s.positions[s.cursor].x, n)]), last))
  {
    StartStopsConcat(s, TableParser.Digits(n), ['\n']);
    StartRunDigits(s, n);
    StartStopsOne(s.(value := n, afterDigit := true), '\n');
  }

  /**
   * One line read from a fresh state gives the individual under the cursor its
   * x and y and moves to the next individual, leaving the loop after the last.
   */
  lemma StartRunLine(s: StartScan, p: Pos)
    requires Fresh(s) && s.cursor < |s.positions| && p.x >= 0 && p.y >= 0
    ensures StartRunStops(s, Line(p))
         == Some((StartScan(0, s.cursor + 1 == |s.positions|, false, s.cursor + 1, s.positions[s.cursor := p]),
                  s.cursor + 1 == |s.positions|))
  {
    var c := s.cursor;
    var last := c + 1 == |s.positions|;
    var xs, ys := TableParser.Digits(p.x as nat) + ['\t'], TableParser.Digits(p.y as nat) + ['\n'];
    var s2 := StartScan(0, false, true, c, s.positions[c := Pos(p.x, s.positions[c].y)]);
    calc {
      StartRunStops(s, Line(p));
      { StartStopsConcat(s, xs, ys); StartRunX(s, p.x as nat); }
      StartRunStops(s2, ys);
      { StartRunY(s2, p.y as nat); }
      Some((StartScan(0, last, false, c + 1, s2.positions[c := Pos(s2.positions[c].x, p.y)]), last));
      { UpdateTwice(s.positions, c, p); }
      Some((StartScan(0, last, false, c + 1, s.positions[c := p]), last));
    }
  }

  /** Setting x and then y of one entry sets the whole position. */
  lemma UpdateTwice(ps: seq<Pos>, c: nat, p: Pos)
    requires c < |ps|
    ensures ps[c := Pos(p.x, ps[c].y)][c := Pos(p.x, p.y)] == ps[c := p]
  {
  }

  /**
   * Reading the lines of ps from a fresh state at cursor c places them over
   * the individuals from c on; the loop is left exactly when the last
   * individual has been given its y.
   */
  lemma {:induction false} StartRunLines(s: StartScan, ps: seq<Pos>)
    requires Fresh(s) && Natural(ps) && s.cursor + |ps| <= |s.positions|
    requires ps != [] || s.cursor < |s.positions|
    ensures var stopped := s.cursor + |ps| == |s.positions|;
      StartRunStops(s, RenderStart(ps))
      == Some((StartScan(0, stopped, false, s.cursor + |ps|, TableParser.Splice(s.positions, s.cursor, ps)), stopped))
    decreases |ps|
  {
    if ps == [] {
      TableParser.SpliceNothing(s.positions, s.cursor);
    } else {
      var c := s.cursor;
      var t := StartScan(0, c + 1 == |s.positions|, false, c + 1, s.positions[c := ps[0]]);
      assert StartRunStops(s, RenderStart(ps))
          == if c + 1 == |s.positions| then Some((t, true)) else StartRunStops(t, RenderStart(ps[1..])) by {
        StartStopsConcat(s, Line(ps[0]), RenderStart(ps[1..]));
        StartRunLine(s, ps[0]);
      }
      TableParser.SpliceFirst(s.positions, c, ps);
      if c + 1 < |s.positions| {
        assert Natural(ps[1..]) by {
          forall j | 0 <= j < |ps[1..]| ensures ps[1..][j].x >= 0 && ps[1..][j].y >= 0 {
            assert ps[1..][j] == ps[j + 1];
          }
        }
        StartRunLines(t, ps[1..]);
      } else {
        assert ps[1..] == [];
        TableParser.SpliceNothing(s.positions[c := ps[0]], c + 1);
      }
    }
  }

  /**
   * Round trip: a start file with a line for each of the first |ps| < n
   * individuals gives them those positions; the others keep where they were
   * (the sentinel set by kcr_indiv_init).
   */
  lemma ParseStartPrefix(ps: seq<Pos>, pops: nat, init: seq<Pos>)
    requires pops > 0 && Natural(ps) && |ps| < |init|
    ensures ParseStart(RenderStart(ps), pops, init) == Some(ps + init[|ps|..])
  {
    StartRunLines(StartOf(init), ps);
    TableParser.SpliceAtStart(init, ps);
  }

  /**
   * Round trip: a start file with a line for every individual gives each its
   * position, and whatever follows the last line is never read.
   */
  lemma ParseStartAll(ps: seq<Pos>, pops: nat, init: seq<Pos>, rest: seq<char>)
    requires pops > 0 && Natural(ps) && |ps| == |init| > 0
    ensures ParseStart(RenderStart(ps) + rest, pops, init) == Some(ps)
  {
    var t := StartScan(0, true, false, |ps|, TableParser.Splice(init, 0, ps));
    assert StartRunStops(StartOf(init), RenderStart(ps) + rest) == Some((t, true)) by {
      StartRunLines(StartOf(init), ps);
      StartStopsConcat(StartOf(init), RenderStart(ps), rest);
    }
    assert StartFinish(t) == ps by {
      TableParser.SpliceAtStart(init, ps);
      assert init[|ps|..] == [];
      assert ps + [] == ps;
    }
  }

  /** Characters other than digits, tabs and newlines are skipped inside a number: "12 34\t5\n" gives x = 1234, y = 5. */
  lemma SkippedCharacterExample()
    ensures ParseStart("12 34\t5\n", 1, [Pos(7, 7)]) == Some([Pos(1234, 5)])
  {
    var s0 := StartOf([Pos(7, 7)]);
    var s1 := StartScan(1, true, false, 0, [Pos(7, 7)]);
    var s2 := StartScan(12, true, false, 0, [Pos(7, 7)]);
    var s3 := StartScan(12, false, false, 0, [Pos(7, 7)]);
    var s4 := StartScan(123, true, false, 0, [Pos(7, 7)]);
    var s5 := StartScan(1234, true, false, 0, [Pos(7, 7)]);
    var s6 := StartScan(0, false, true, 0, [Pos(1234, 7)]);
    var s7 := StartScan(5, true, true, 0, [Pos(1234, 7)]);
    var s8 := StartScan(0, true, false, 1, [Pos(1234, 5)]);
    assert StartRun(s0, "12 34\t5\n") == StartRun(s1, "2 34\t5\n") by {
      assert StartStep(s0, '1') == Next(s1);
    }
    assert StartRun(s1, "2 34\t5\n") == StartRun(s2, " 34\t5\n") by {
      assert StartStep(s1, '2') == Next(s2);
    }
    assert StartRun(s2, " 34\t5\n") == StartRun(s3, "34\t5\n") by {
      assert StartStep(s2, ' ') == Next(s3);
    }
    assert StartRun(s3, "34\t5\n") == StartRun(s4, "4\t5\n") by {
      assert StartStep(s3, '3') == Next(s4);
    }
    assert StartRun(s4, "4\t5\n") == StartRun(s5, "\t5\n") by {
      assert StartStep(s4, '4') == Next(s5);
    }
    assert StartRun(s5, "\t5\n") == StartRun(s6, "5\n") by {
      assert StartStep(s5, '\t') == Next(s6);
    }
    assert StartRun(s6, "5\n") == StartRun(s7, "\n") by {
      assert StartStep(s6, '5') == Next(s7);
    }
    assert StartRun(s7, "\n") == Some(s8) by {
      assert StartStep(s7, '\n') == Break(s8);
    }
  }

  /** With no individuals to take it, the first number ended by a tab or newline fails the assert. */
  lemma NoIndividualsFails(pops: nat, n: nat, sep: char)
    requires pops > 0 && (sep == '\t' || sep == '\n')
    ensures ParseStart(TableParser.Digits(n) + [sep], pops, []) == None
  {
    var s := StartOf([]);
    StartStopsConcat(s, TableParser.Digits(n), [sep]);
    StartRunDigits(s, n);
    StartStopsOne(s.(value := n, afterDigit := true), sep);
  }
}
