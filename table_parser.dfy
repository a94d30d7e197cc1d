/**
 * The character-level reader of kcr_setup_array and kcr_setup_env: numbers
 * separated by tabs, rows ended by newlines, stored into a flat table of
 * cols × rows cells at [x + y·cols]. kcr_setup_array reads the P×P tables of
 * a_ij and δ (cols = rows = P); kcr_setup_env reads the width × height
 * environment grid. Decimal values are the idealised reals the digits denote.
 */
module TableParser {
  import opened Wrappers

  /** What the previous character (prev_char) was, as far as the grammar cares. */
  datatype Previous = Digit | Tab | Other

  predicate IsDigit(c: char) {
    '0' <= c <= '9'
  }

  function DigitValue(c: char): (d: nat)
    requires IsDigit(c)
    ensures d < 10
  {
    c as int - '0' as int
  }

  function Classify(c: char): Previous {
    if IsDigit(c) then Digit else if c == '\t' then Tab else Other
  }

  /** 10^k. */
  function Pow10(k: nat): (p: real)
    ensures p >= 1.0
  {
    if k == 0 then 1.0 else 10.0 * Pow10(k - 1)
  }

  /**
   * The reader's variables: curr_val, digit_after_dec, neg, x_val, y_val,
   * prev_char, and the table being filled.
   */
  datatype Scan = Scan(value: real, decimals: nat, negative: bool, x: nat, y: nat,
                       prev: Previous, table: seq<real>)

  /** The variables before the first character (prev_char taken as neither digit nor tab). */
  function Start(table: seq<real>): Scan {
    Scan(0.0, 0, false, 0, 0, Other, table)
  }

  /** The value of the pending number, with its sign. */
  function Pending(s: Scan): real {
    if s.negative then -s.value else s.value
  }

  /** The cell (x, y) lies in a cols × rows table. */
  lemma CellInTable(x: nat, y: nat, cols: nat, rows: nat)
    requires x < cols && y < rows
    ensures x + y * cols < cols * rows
  {
    RowInTable(y, cols, rows);
  }

  /** A row of cols cells fits below row y of the table. */
  lemma RowInTable(y: nat, cols: nat, rows: nat)
    requires y < rows
    ensures y * cols + cols <= cols * rows
  {
    RowStartIsProduct(y, cols);
    RowStartIsProduct(y + 1, cols);
    RowStartIsProduct(rows, cols);
    RowsFit(y, 1, cols, rows);
  }

  /** The table with the pending value stored at [x + y·cols]. */
  function Stored(s: Scan, cols: nat, rows: nat): (t: seq<real>)
    requires |s.table| == cols * rows && s.x < cols && s.y < rows
    ensures |t| == |s.table|
  {
    CellInTable(s.x, s.y, cols, rows);
    s.table[s.x + s.y * cols := Pending(s)]
  }

  /** The characters on which one of the reader's bounds asserts fails. */
  predicate Overflows(s: Scan, c: char, cols: nat, rows: nat) {
    || (c == '\n' && s.prev == Digit && !(s.x < cols && s.y < rows))
    || (c == '\n' && s.prev == Tab && !(s.y < rows))
    || (c == '\t' && s.prev == Digit && !(s.x < cols && s.y < rows))
  }

  /**
   * One iteration of the reading loop on character c; None when an assert
   * fails. Only the cell [x + y·cols] can change, and prev_char becomes c.
   */
  function Step(s: Scan, c: char, cols: nat, rows: nat): (r: Option<Scan>)
    requires |s.table| == cols * rows
    ensures r.None? <==> Overflows(s, c, cols, rows)
    ensures r.Some? ==> |r.value.table| == cols * rows && r.value.prev == Classify(c)
    ensures r.Some? ==> forall i :: 0 <= i < |s.table| && i != s.x + s.y * cols ==> r.value.table[i] == s.table[i]
  {
    if IsDigit(c) && s.decimals == 0 then
      Some(s.(value := s.value * 10.0 + DigitValue(c) as real, prev := Digit))
    else if IsDigit(c) then
      Some(s.(value := s.value + DigitValue(c) as real / Pow10(s.decimals), decimals := s.decimals + 1, prev := Digit))
    else if c == '-' then
      Some(s.(negative := true, prev := Other))
    else if c == '.' then
      Some(s.(decimals := s.decimals + 1, prev := Other))
    else if c == '\n' && s.prev == Digit then
      if s.x < cols && s.y < rows then Some(Scan(0.0, 0, false, 0, s.y + 1, Other, Stored(s, cols, rows))) else None
    else if c == '\n' && s.prev == Tab then
      if s.y < rows then Some(Scan(0.0, 0, false, 0, s.y + 1, Other, s.table)) else None
    else if c == '\t' && s.prev == Digit then
      if s.x < cols && s.y < rows then Some(Scan(0.0, 0, false, s.x + 1, s.y, Tab, Stored(s, cols, rows))) else None
    else
      Some(s.(prev := Classify(c)))
  }

  /** The reading loop over the whole input, from state s. */
  function Run(s: Scan, input: seq<char>, cols: nat, rows: nat): (r: Option<Scan>)
    requires |s.table| == cols * rows
    ensures r.Some? ==> |r.value.table| == cols * rows
    decreases |input|
  {
    if input == [] then Some(s)
    else
      match Step(s, input[0], cols, rows)
      case None => None
      case Some(s') => Run(s', input[1..], cols, rows)
  }

  /** At end of file a number still pending after a digit is stored. */
  function Finish(s: Scan, cols: nat, rows: nat): (r: Option<seq<real>>)
    requires |s.table| == cols * rows
    ensures r.Some? ==> |r.value| == cols * rows
    ensures r.None? <==> s.prev == Digit && !(s.x < cols && s.y < rows)
  {
    if s.prev == Digit then
      if s.x < cols && s.y < rows then Some(Stored(s, cols, rows)) else None
    else Some(s.table)
  }

  /** The table after reading `input` into `init`; None when a bounds assert fails. */
  function Parse(input: seq<char>, cols: nat, rows: nat, init: seq<real>): (r: Option<seq<real>>)
    requires |init| == cols * rows
    ensures r.Some? ==> |r.value| == cols * rows
  {
    match Run(Start(init), input, cols, rows)
    case None => None
    case Some(s) => Finish(s, cols, rows)
  }

  /**
   * The reading loop of kcr_setup_array and kcr_setup_env over the array `a`
   * (cols × rows cells): false when a bounds assert fails, which ends the
   * program; otherwise `a` holds the parsed table.
   */
  method ReadTable(input: seq<char>, cols: nat, rows: nat, a: array<real>) returns (ok: bool)
    requires a.Length == cols * rows
    modifies a
    ensures ok <==> Parse(input, cols, rows, old(a[..])).Some?
    ensures ok ==> a[..] == Parse(input, cols, rows, old(a[..])).value
  {
    var value, decimals, negative, x, y, prev := 0.0, 0, false, 0, 0, Other;
    var i := 0;
    while i < |input|
      invariant 0 <= i <= |input|
      invariant Run(Start(old(a[..])), input, cols, rows)
             == Run(Scan(value, decimals, negative, x, y, prev, a[..]), input[i..], cols, rows)
    {
      ghost var s := Scan(value, decimals, negative, x, y, prev, a[..]);
      var c := input[i];
      assert input[i..][0] == c && input[i..][1..] == input[i + 1..];
      if IsDigit(c) && decimals == 0 {
        value := value * 10.0 + DigitValue(c) as real;
      } else if IsDigit(c) {
        value := value + DigitValue(c) as real / Pow10(decimals);
        decimals := decimals + 1;
      } else if c == '-' {
        negative := true;
      } else if c == '.' {
        decimals := decimals + 1;
      } else if c == '\n' && prev == Digit {
        if !(x < cols && y < rows) {
          return false;
        }
        CellInTable(x, y, cols, rows);
        a[x + y * cols] := if negative then -value else value;
        value, decimals, negative, x, y := 0.0, 0, false, 0, y + 1;
      } else if c == '\n' && prev == Tab {
        if !(y < rows) {
          return false;
        }
        value, decimals, negative, x, y := 0.0, 0, false, 0, y + 1;
      } else if c == '\t' && prev == Digit {
        if !(x < cols && y < rows) {
          return false;
        }
        CellInTable(x, y, cols, rows);
        a[x + y * cols] := if negative then -value else value;
        value, decimals, negative, x := 0.0, 0, false, x + 1;
      }
      prev := Classify(c);
      assert Step(s, c, cols, rows) == Some(Scan(value, decimals, negative, x, y, prev, a[..]));
      i := i + 1;
    }
    assert input[i..] == [];
    if prev == Digit {
      if !(x < cols && y < rows) {
        return false;
      }
      CellInTable(x, y, cols, rows);
      a[x + y * cols] := if negative then -value else value;
    }
    ok := true;
  }

  /** kcr_setup_array: a P×P table (a_ij or δ) read into the zero-filled array `a`. */
  method SetupArray(input: seq<char>, p: nat, a: array<real>) returns (ok: bool)
    requires a.Length == p * p
    modifies a
    ensures ok <==> Parse(input, p, p, old(a[..])).Some?
    ensures ok ==> a[..] == Parse(input, p, p, old(a[..])).value
  {
    ok := ReadTable(input, p, p, a);
  }

  /** The table of n zeros. */
  function Zeros(n: nat): (z: seq<real>)
    ensures |z| == n && forall i :: 0 <= i < n ==> z[i] == 0.0
  {
    seq(n, _ => 0.0)
  }

  lemma NextCell(x: nat, y: nat, width: nat)
    requires x < width
    ensures y * width + x + 1 <= (y + 1) * width
  {
  }

  /**
   * kcr_setup_env: every cell of the width × height grid is first set to 0,
   * then, when there is an environment file, the file is read into it.
   */
  method SetupEnv(file: Option<seq<char>>, width: nat, height: nat, env: array<real>) returns (ok: bool)
    requires env.Length == width * height
    modifies env
    ensures file.None? ==> ok && env[..] == Zeros(width * height)
    ensures file.Some? ==> (ok <==> Parse(file.value, width, height, Zeros(width * height)).Some?)
    ensures file.Some? && ok ==> env[..] == Parse(file.value, width, height, Zeros(width * height)).value
  {
    var y := 0;
    while y < height
      invariant 0 <= y <= height
      invariant y * width <= width * height
      invariant forall i :: 0 <= i < y * width ==> env[i] == 0.0
    {
      var x := 0;
      while x < width
        invariant 0 <= x <= width
        invariant y * width + x <= width * height
        invariant forall i :: 0 <= i < y * width + x ==> env[i] == 0.0
      {
        CellInTable(x, y, width, height);
        env[y * width + x] := 0.0;
        x := x + 1;
      }
      assert y * width + width == (y + 1) * width;
      y := y + 1;
    }
    assert env[..] == Zeros(width * height);
    if file.None? {
      return true;
    }
    ok := ReadTable(file.value, width, height, env);
  }

  // ---------------------------------------------------------------------------
  // Tables written out in the format the reader expects
  // ---------------------------------------------------------------------------

  function DigitChar(d: nat): (c: char)
    requires d < 10
    ensures IsDigit(c) && DigitValue(c) == d
  {
    ('0' as int + d) as char
  }

  /** The decimal digits of n, most significant first. */
  function Digits(n: nat): (ds: seq<char>)
    ensures ds != [] && AllDigits(ds)
    decreases n
  {
    if n < 10 then [DigitChar(n)] else Digits(n / 10) + [DigitChar(n % 10)]
  }

  predicate AllDigits(ds: seq<char>) {
    forall i :: 0 <= i < |ds| ==> IsDigit(ds[i])
  }

  /** An integer as the reader's input: a '-' for a negative value, then its digits. */
  function Numeral(v: int): seq<char> {
    if v < 0 then ['-'] + Digits(-v) else Digits(v)
  }

  /** One row: the numerals separated by tabs, ended by a newline. */
  function RenderRow(row: seq<int>): seq<char>
    requires row != []
  {
    if |row| == 1 then Numeral(row[0]) + ['\n'] else Numeral(row[0]) + ['\t'] + RenderRow(row[1..])
  }

  /** A matrix of integers, one line per row. */
  function Render(m: seq<seq<int>>): seq<char>
    requires forall i :: 0 <= i < |m| ==> m[i] != []
  {
    if m == [] then [] else RenderRow(m[0]) + Render(m[1..])
  }

  function Reals(row: seq<int>): (r: seq<real>)
    ensures |r| == |row| && forall i :: 0 <= i < |row| ==> r[i] == row[i] as real
  {
    seq(|row|, i requires 0 <= i < |row| => row[i] as real)
  }

  /** The rows of m one after another: the row-major layout [x + y·cols]. */
  function Flatten(m: seq<seq<int>>): seq<real> {
    if m == [] then [] else Reals(m[0]) + Flatten(m[1..])
  }

  /** t with the entries from j on replaced by r: a table's cells, or a roster's positions. */
  function Splice<T>(t: seq<T>, j: nat, r: seq<T>): (u: seq<T>)
    requires j + |r| <= |t|
    ensures |u| == |t|
  {
    t[..j] + r + t[j + |r|..]
  }

  /** Splicing nothing leaves t as it was. */
  lemma SpliceNothing<T>(t: seq<T>, j: nat)
    requires j <= |t|
    ensures Splice(t, j, []) == t
  {
  }

  /** No pending number: curr_val, digit_after_dec and neg as after a store. */
  predicate Fresh(s: Scan) {
    s.value == 0.0 && s.decimals == 0 && !s.negative
  }

  /** Reading a + b is reading a, then reading b from where a left off. */
  lemma {:induction false} RunConcat(s: Scan, a: seq<char>, b: seq<char>, cols: nat, rows: nat)
    requires |s.table| == cols * rows
    ensures Run(s, a + b, cols, rows)
         == match Run(s, a, cols, rows) case None => None case Some(s') => Run(s', b, cols, rows)
    decreases |a|
  {
    if a == [] {
      assert a + b == b;
    } else {
      assert (a + b)[0] == a[0] && (a + b)[1..] == a[1..] + b;
      match Step(s, a[0], cols, rows)
      case None =>
      case Some(s') => RunConcat(s', a[1..], b, cols, rows);
    }
  }

  /** The digits of n, read without a decimal point, accumulate to n. */
  lemma {:induction false} RunDigits(s: Scan, n: nat, cols: nat, rows: nat)
    requires |s.table| == cols * rows && s.value == 0.0 && s.decimals == 0
    ensures Run(s, Digits(n), cols, rows) == Some(s.(value := n as real, prev := Digit))
    decreases n
  {
    if n < 10 {
      assert Run(s, Digits(n), cols, rows) == Run(Step(s, DigitChar(n), cols, rows).value, [], cols, rows);
    } else {
      RunConcat(s, Digits(n / 10), [DigitChar(n % 10)], cols, rows);
      RunDigits(s, n / 10, cols, rows);
      var t := s.(value := (n / 10) as real, prev := Digit);
      assert ((n / 10) as real) * 10.0 + (n % 10) as real == n as real;
      assert Run(t, [DigitChar(n % 10)], cols, rows) == Run(Step(t, DigitChar(n % 10), cols, rows).value, [], cols, rows);
    }
  }

  /** A numeral read from a fresh state leaves its value pending, with its sign. */
  lemma RunNumeral(s: Scan, v: int, cols: nat, rows: nat)
    requires |s.table| == cols * rows && Fresh(s)
    ensures var r := Run(s, Numeral(v), cols, rows);
      && r.Some? && r.value.prev == Digit && Pending(r.value) == v as real
      && r.value.decimals == 0 && r.value.x == s.x && r.value.y == s.y && r.value.table == s.table
  {
    if v < 0 {
      var t := s.(negative := true, prev := Other);
      assert Run(s, Numeral(v), cols, rows) == Run(t, Digits(-v), cols, rows);
      RunDigits(t, -v, cols, rows);
    } else {
      RunDigits(s, v, cols, rows);
    }
  }

  /** Reading a single character is one step of the loop. */
  lemma RunOne(s: Scan, c: char, cols: nat, rows: nat)
    requires |s.table| == cols * rows
    ensures Run(s, [c], cols, rows) == Step(s, c, cols, rows)
  {
    assert [c][1..] == [];
  }

  /**
   * A numeral followed by a tab stores the value in cell (x, y) and moves to
   * column x + 1; followed by a newline it stores it and moves to row y + 1.
   */
  lemma RunCell(s: Scan, v: int, sep: char, cols: nat, rows: nat)
    requires |s.table| == cols * rows && Fresh(s) && s.x < cols && s.y < rows
    requires sep == '\t' || sep == '\n'
    ensures s.x + s.y * cols < |s.table|
    ensures Run(s, Numeral(v) + [sep], cols, rows)
         == Some(if sep == '\t' then Scan(0.0, 0, false, s.x + 1, s.y, Tab, s.table[s.x + s.y * cols := v as real])
                 else Scan(0.0, 0, false, 0, s.y + 1, Other, s.table[s.x + s.y * cols := v as real]))
  {
    CellInTable(s.x, s.y, cols, rows);
    RunNumeral(s, v, cols, rows);
    var t := Run(s, Numeral(v), cols, rows).value;
    RunConcat(s, Numeral(v), [sep], cols, rows);
    RunOne(t, sep, cols, rows);
  }

  /** Reading the first cell of a row that goes on stores it and leaves the rest of the row to column x + 1. */
  lemma CellStep(s: Scan, row: seq<int>, cols: nat, rows: nat)
    requires |s.table| == cols * rows && Fresh(s) && |row| > 1 && s.x < cols && s.y < rows
    ensures s.x + s.y * cols < |s.table|
    ensures Run(s, RenderRow(row), cols, rows)
         == Run(Scan(0.0, 0, false, s.x + 1, s.y, Tab, s.table[s.x + s.y * cols := row[0] as real]),
                RenderRow(row[1..]), cols, rows)
  {
    assert RenderRow(row) == (Numeral(row[0]) + ['\t']) + RenderRow(row[1..]);
    RunConcat(s, Numeral(row[0]) + ['\t'], RenderRow(row[1..]), cols, rows);
    RunCell(s, row[0], '\t', cols, rows);
  }

  /**
   * Reading the remaining cells of a row from column x stores each value in
   * its cell of row y and moves to the start of row y + 1.
   */
  lemma {:induction false} RunRowFrom(s: Scan, row: seq<int>, cols: nat, rows: nat)
    requires |s.table| == cols * rows && Fresh(s) && row != [] && s.x + |row| == cols && s.y < rows
    ensures s.x + s.y * cols + |row| <= |s.table|
    ensures Run(s, RenderRow(row), cols, rows)
         == Some(Scan(0.0, 0, false, 0, s.y + 1, Other, Splice(s.table, s.x + s.y * cols, Reals(row))))
    decreases |row|
  {
    RowInTable(s.y, cols, rows);
    var j := s.x + s.y * cols;
    var r := Reals(row);
    if |row| == 1 {
      RunCell(s, row[0], '\n', cols, rows);
      SpliceOne(s.table, j, r);
    } else {
      var u := Scan(0.0, 0, false, s.x + 1, s.y, Tab, s.table[j := r[0]]);
      assert u.x + u.y * cols == j + 1;
      assert Run(s, RenderRow(row), cols, rows) == Run(u, RenderRow(row[1..]), cols, rows) by {
        CellStep(s, row, cols, rows);
      }
      assert Run(u, RenderRow(row[1..]), cols, rows)
          == Some(Scan(0.0, 0, false, 0, s.y + 1, Other, Splice(u.table, j + 1, Reals(row[1..])))) by {
        RunRowFrom(u, row[1..], cols, rows);
      }
      assert Reals(row[1..]) == r[1..];
      SpliceFirst(s.table, j, r);
    }
  }

  /** Splicing a single entry is updating that entry. */
  lemma SpliceOne<T>(t: seq<T>, j: nat, r: seq<T>)
    requires |r| == 1 && j < |t|
    ensures Splice(t, j, r) == t[j := r[0]]
  {
  }

  /** Splicing r is updating entry j to r[0] and splicing the rest after it. */
  lemma SpliceFirst<T>(t: seq<T>, j: nat, r: seq<T>)
    requires r != [] && j + |r| <= |t|
    ensures Splice(t[j := r[0]], j + 1, r[1..]) == Splice(t, j, r)
  {
  }

  /** Rows of width cols, each row's cells one after another. */
  predicate Rectangular(m: seq<seq<int>>, cols: nat) {
    forall i :: 0 <= i < |m| ==> |m[i]| == cols
  }

  lemma {:induction false} FlattenLength(m: seq<seq<int>>, cols: nat)
    requires Rectangular(m, cols)
    ensures |Flatten(m)| == RowStart(|m|, cols)
  {
    if m != [] {
      FlattenLength(m[1..], cols);
    }
  }

  /** Splicing r1 and then r2 right after it is splicing r1 + r2. */
  lemma SpliceTwice<T>(t: seq<T>, j: nat, r1: seq<T>, r2: seq<T>)
    requires j + |r1| + |r2| <= |t|
    ensures Splice(Splice(t, j, r1), j + |r1|, r2) == Splice(t, j, r1 + r2)
  {
  }

  /** The index of the first cell of row y: y·cols, as a sum of y rows. */
  function RowStart(y: nat, cols: nat): nat {
    if y == 0 then 0 else RowStart(y - 1, cols) + cols
  }

  lemma {:induction false} RowStartIsProduct(y: nat, cols: nat)
    ensures RowStart(y, cols) == y * cols
  {
    if y > 0 {
      RowStartIsProduct(y - 1, cols);
      assert y * cols == (y - 1) * cols + cols;
    }
  }

  /** Row y + k starts no later than row `rows` when y + k <= rows. */
  lemma {:induction false} RowsFit(y: nat, k: nat, cols: nat, rows: nat)
    requires y + k <= rows
    ensures RowStart(y + k, cols) <= RowStart(rows, cols)
    decreases rows
  {
    if y + k < rows {
      RowsFit(y, k, cols, rows - 1);
    }
  }

  lemma {:induction false} RowsAdd(y: nat, k: nat, cols: nat)
    ensures RowStart(y + k, cols) == RowStart(y, cols) + RowStart(k, cols)
    decreases k
  {
    if k > 0 {
      RowsAdd(y, k - 1, cols);
    }
  }

  /** Reading the first row of m from the start of row y leaves the other rows to be read from row y + 1. */
  lemma RowsStep(s: Scan, m: seq<seq<int>>, cols: nat, rows: nat)
    requires |s.table| == cols * rows && Fresh(s) && s.x == 0 && s.prev == Other
    requires Rectangular(m, cols) && m != [] && cols >= 1 && s.y < rows
    ensures s.y * cols + cols <= |s.table|
    ensures Run(s, Render(m), cols, rows)
         == Run(Scan(0.0, 0, false, 0, s.y + 1, Other, Splice(s.table, s.y * cols, Reals(m[0]))),
                Render(m[1..]), cols, rows)
  {
    RunRowFrom(s, m[0], cols, rows);
    assert Render(m) == RenderRow(m[0]) + Render(m[1..]);
    RunConcat(s, RenderRow(m[0]), Render(m[1..]), cols, rows);
  }

  /** Reading whole rows from the start of row y fills those rows in order. */
  lemma {:induction false} RunRows(s: Scan, m: seq<seq<int>>, cols: nat, rows: nat)
    requires |s.table| == cols * rows && Fresh(s) && s.x == 0 && s.prev == Other
    requires cols >= 1 && Rectangular(m, cols) && s.y + |m| <= rows
    requires RowStart(s.y, cols) + |Flatten(m)| <= |s.table|
    ensures Run(s, Render(m), cols, rows)
         == Some(Scan(0.0, 0, false, 0, s.y + |m|, Other, Splice(s.table, RowStart(s.y, cols), Flatten(m))))
    decreases |m|
  {
    var j := RowStart(s.y, cols);
    if m == [] {
      assert Splice(s.table, j, []) == s.table;
    } else {
      RowStartIsProduct(s.y, cols);
      RowsStep(s, m, cols, rows);
      var t := Scan(0.0, 0, false, 0, s.y + 1, Other, Splice(s.table, j, Reals(m[0])));
      assert Flatten(m) == Reals(m[0]) + Flatten(m[1..]);
      RunRows(t, m[1..], cols, rows);
      SpliceTwice(s.table, j, Reals(m[0]), Flatten(m[1..]));
    }
  }

  /** Reading the rendered rows from the start fills the first |m| rows of the table. */
  lemma RunRender(m: seq<seq<int>>, cols: nat, rows: nat, init: seq<real>)
    requires cols >= 1 && Rectangular(m, cols) && |m| <= rows && |init| == cols * rows
    ensures |Flatten(m)| == |m| * cols <= |init|
    ensures Run(Start(init), Render(m), cols, rows)
         == Some(Scan(0.0, 0, false, 0, |m|, Other, Flatten(m) + init[|Flatten(m)|..]))
  {
    FlattenLength(m, cols);
    RowStartIsProduct(|m|, cols);
    RowStartIsProduct(rows, cols);
    RowsFit(0, |m|, cols, rows);
    SpliceAtStart(init, Flatten(m));
    RunRows(Start(init), m, cols, rows);
  }

  lemma SpliceAtStart<T>(t: seq<T>, r: seq<T>)
    requires |r| <= |t|
    ensures Splice(t, 0, r) == r + t[|r|..]
  {
    assert t[..0] == [];
  }

  /**
   * Round trip: a matrix of integers written one row per line, tab-separated,
   * reads back into the first |m| rows of the table; the rows below keep what
   * the table held (zero, as allocated).
   */
  lemma ParseRender(m: seq<seq<int>>, cols: nat, rows: nat, init: seq<real>)
    requires cols >= 1 && Rectangular(m, cols) && |m| <= rows && |init| == cols * rows
    ensures |Flatten(m)| == |m| * cols <= |init|
    ensures Parse(Render(m), cols, rows, init) == Some(Flatten(m) + init[|Flatten(m)|..])
  {
    RunRender(m, cols, rows, init);
  }

  /** One row written with a tab after every cell, the last one included, then a newline. */
  function RenderRowTabbed(row: seq<int>): seq<char> {
    if row == [] then ['\n'] else Numeral(row[0]) + ['\t'] + RenderRowTabbed(row[1..])
  }

  /** A matrix of integers, one line per row, every cell followed by a tab. */
  function RenderTabbed(m: seq<seq<int>>): seq<char> {
    if m == [] then [] else RenderRowTabbed(m[0]) + RenderTabbed(m[1..])
  }

  /**
   * A newline right after a tab ends the row without storing anything, so the
   * remaining cells of a row, each followed by a tab, fill row y from column x
   * just as the newline-ended row does.
   */
  lemma {:induction false} RunRowTabbedFrom(s: Scan, row: seq<int>, cols: nat, rows: nat)
    requires |s.table| == cols * rows && Fresh(s) && row != [] && s.x + |row| == cols && s.y < rows
    ensures s.x + s.y * cols + |row| <= |s.table|
    ensures Run(s, RenderRowTabbed(row), cols, rows)
         == Some(Scan(0.0, 0, false, 0, s.y + 1, Other, Splice(s.table, s.x + s.y * cols, Reals(row))))
    decreases |row|
  {
    RowInTable(s.y, cols, rows);
    var j := s.x + s.y * cols;
    var r := Reals(row);
    var u := Scan(0.0, 0, false, s.x + 1, s.y, Tab, s.table[j := r[0]]);
    assert RenderRowTabbed(row) == (Numeral(row[0]) + ['\t']) + RenderRowTabbed(row[1..]);
    RunConcat(s, Numeral(row[0]) + ['\t'], RenderRowTabbed(row[1..]), cols, rows);
    RunCell(s, row[0], '\t', cols, rows);
    if |row| == 1 {
      assert RenderRowTabbed(row[1..]) == ['\n'];
      RunOne(u, '\n', cols, rows);
      SpliceOne(s.table, j, r);
    } else {
      assert u.x + u.y * cols == j + 1;
      RunRowTabbedFrom(u, row[1..], cols, rows);
      assert Reals(row[1..]) == r[1..];
      SpliceFirst(s.table, j, r);
    }
  }

  /** Whole rows with trailing tabs are read exactly as the same rows without them. */
  lemma {:induction false} RunRowsTabbed(s: Scan, m: seq<seq<int>>, cols: nat, rows: nat)
    requires |s.table| == cols * rows && Fresh(s) && s.x == 0 && s.prev == Other
    requires cols >= 1 && Rectangular(m, cols) && s.y + |m| <= rows
    ensures Run(s, RenderTabbed(m), cols, rows) == Run(s, Render(m), cols, rows)
    decreases |m|
  {
    if m != [] {
      RunRowTabbedFrom(s, m[0], cols, rows);
      RowsStep(s, m, cols, rows);
      var t := Scan(0.0, 0, false, 0, s.y + 1, Other, Splice(s.table, s.y * cols, Reals(m[0])));
      assert RenderTabbed(m) == RenderRowTabbed(m[0]) + RenderTabbed(m[1..]);
      RunConcat(s, RenderRowTabbed(m[0]), RenderTabbed(m[1..]), cols, rows);
      RunRowsTabbed(t, m[1..], cols, rows);
    }
  }

  /**
   * Round trip for rows that end in a tab before the newline: they read back
   * into the first |m| rows of the table exactly as the rows without the tab.
   */
  lemma ParseRenderTabbed(m: seq<seq<int>>, cols: nat, rows: nat, init: seq<real>)
    requires cols >= 1 && Rectangular(m, cols) && |m| <= rows && |init| == cols * rows
    ensures |Flatten(m)| == |m| * cols <= |init|
    ensures Parse(RenderTabbed(m), cols, rows, init) == Some(Flatten(m) + init[|Flatten(m)|..])
  {
    RunRowsTabbed(Start(init), m, cols, rows);
    ParseRender(m, cols, rows, init);
  }

  // ---------------------------------------------------------------------------
  // Signs, decimals and line ends
  // ---------------------------------------------------------------------------

  /** A digit is read the same whatever the previous character was. */
  lemma DigitIgnoresPrev(s: Scan, c: char, p: Previous, cols: nat, rows: nat)
    requires |s.table| == cols * rows && IsDigit(c)
    ensures Step(s.(prev := p), c, cols, rows) == Step(s, c, cols, rows)
  {
  }

  /**
   * Digits never fail and leave the sign, the position and the table alone:
   * reading them with another sign or previous character gives the same state
   * with that sign (and, when there were no digits, that previous character).
   */
  lemma {:induction false} DigitsIgnoreSign(s: Scan, a: seq<char>, n: bool, p: Previous, cols: nat, rows: nat)
    requires |s.table| == cols * rows && AllDigits(a)
    ensures Run(s, a, cols, rows).Some?
    ensures Run(s.(negative := n, prev := p), a, cols, rows)
         == Some(Run(s, a, cols, rows).value.(negative := n, prev := if a == [] then p else Digit))
    decreases |a|
  {
    if a != [] {
      var t := Step(s, a[0], cols, rows).value;
      assert Step(s.(negative := n, prev := p), a[0], cols, rows) == Some(t.(negative := n));
      assert AllDigits(a[1..]) by {
        forall i | 0 <= i < |a[1..]| ensures IsDigit(a[1..][i]) {
          assert a[1..][i] == a[i + 1];
        }
      }
      DigitsIgnoreSign(t, a[1..], n, Digit, cols, rows);
      DigitsIgnoreSign(t, a[1..], t.negative, Digit, cols, rows);
      assert t.(negative := t.negative, prev := Digit) == t;
    }
  }

  /**
   * A '-' anywhere among the digits of a number makes it negative: reading
   * digits a, then '-', then more digits b ends in the state reached by
   * reading the '-' first.
   */
  lemma MinusAnywhere(s: Scan, a: seq<char>, b: seq<char>, cols: nat, rows: nat)
    requires |s.table| == cols * rows && AllDigits(a) && AllDigits(b) && b != []
    ensures Run(s, a + ['-'] + b, cols, rows) == Run(s, ['-'] + a + b, cols, rows)
  {
    var m := s.(negative := true, prev := Other);
    DigitsIgnoreSign(s, a, true, Other, cols, rows);
    var t := Run(s, a, cols, rows).value;
    var t' := Run(m, a, cols, rows).value;
    assert t' == t.(negative := true, prev := t'.prev);
    // Left: a, then '-', then b.
    RunConcat(s, a + ['-'], b, cols, rows);
    RunConcat(s, a, ['-'], cols, rows);
    RunOne(t, '-', cols, rows);
    assert Step(t, '-', cols, rows) == Some(t'.(prev := Other));
    // Right: '-', then a, then b.
    assert ['-'] + a + b == ['-'] + (a + b);
    assert Run(s, ['-'] + (a + b), cols, rows) == Run(m, a + b, cols, rows) by {
      assert (['-'] + (a + b))[1..] == a + b;
    }
    RunConcat(m, a, b, cols, rows);
    // b starts with a digit, which forgets the previous character.
    assert b == [b[0]] + b[1..];
    RunConcat(t'.(prev := Other), [b[0]], b[1..], cols, rows);
    RunConcat(t', [b[0]], b[1..], cols, rows);
    RunOne(t'.(prev := Other), b[0], cols, rows);
    RunOne(t', b[0], cols, rows);
    DigitIgnoresPrev(t', b[0], Other, cols, rows);
  }

  /** The value of digits ds when the first of them is the k-th after the decimal point. */
  function Fraction(ds: seq<char>, k: nat): real
    requires AllDigits(ds)
    decreases |ds|
  {
    if ds == [] then 0.0
    else
      assert AllDigits(ds[1..]) by {
        forall i | 0 <= i < |ds[1..]| ensures IsDigit(ds[1..][i]) {
          assert ds[1..][i] == ds[i + 1];
        }
      }
      DigitValue(ds[0]) as real / Pow10(k) + Fraction(ds[1..], k + 1)
  }

  /** The k-th digit after the decimal point adds d / 10^k. */
  lemma {:induction false} RunFraction(s: Scan, ds: seq<char>, cols: nat, rows: nat)
    requires |s.table| == cols * rows && AllDigits(ds) && s.decimals >= 1
    ensures Run(s, ds, cols, rows)
         == Some(s.(value := s.value + Fraction(ds, s.decimals), decimals := s.decimals + |ds|,
                    prev := if ds == [] then s.prev else Digit))
    decreases |ds|
  {
    if ds != [] {
      var t := Step(s, ds[0], cols, rows).value;
      assert AllDigits(ds[1..]) by {
        forall i | 0 <= i < |ds[1..]| ensures IsDigit(ds[1..][i]) {
          assert ds[1..][i] == ds[i + 1];
        }
      }
      RunFraction(t, ds[1..], cols, rows);
    }
  }

  /** Reading c and then the rest is one step of the loop followed by the rest. */
  lemma RunCons(s: Scan, c: char, rest: seq<char>, cols: nat, rows: nat)
    requires |s.table| == cols * rows
    ensures Run(s, [c] + rest, cols, rows)
         == match Step(s, c, cols, rows) case None => None case Some(t) => Run(t, rest, cols, rows)
  {
    assert ([c] + rest)[0] == c && ([c] + rest)[1..] == rest;
  }

  /** "2.75" read into a one-cell table stores 2.75. */
  lemma DecimalExample()
    ensures Parse("2.75", 1, 1, [0.0]) == Some([2.75])
  {
    var s0 := Start([0.0]);
    var s1 := Scan(2.0, 0, false, 0, 0, Digit, [0.0]);
    var s2 := Scan(2.0, 1, false, 0, 0, Other, [0.0]);
    assert "2.75" == ['2'] + ".75" && ".75" == ['.'] + "75";
    assert AllDigits("75");
    RunCons(s0, '2', ".75", 1, 1);
    assert Step(s0, '2', 1, 1) == Some(s1);
    RunCons(s1, '.', "75", 1, 1);
    assert Step(s1, '.', 1, 1) == Some(s2);
    RunFraction(s2, "75", 1, 1);
    assert "75"[1..] == "5" && "5"[1..] == [];
    assert Fraction("75", 1) == 7.0 / 10.0 + Fraction("5", 2);
    assert Fraction("5", 2) == 5.0 / 100.0;
    var s3 := Scan(2.75, 3, false, 0, 0, Digit, [0.0]);
    assert Run(s0, "2.75", 1, 1) == Some(s3);
    assert [0.0][0 + 0 * 1 := 2.75] == [2.75];
  }

  /**
   * Windows line ends: the '\n' of "\r\n" follows the '\r', not a digit, so it
   * neither stores the number before it nor starts a new row; the next line's
   * digits run on into that number.
   */
  lemma CarriageReturnExample()
    ensures Parse("1\r\n2\n", 1, 2, [0.0, 0.0]) == Some([12.0, 0.0])
  {
    var s0 := Start([0.0, 0.0]);
    var s1 := Scan(1.0, 0, false, 0, 0, Digit, [0.0, 0.0]);
    var s2 := Scan(1.0, 0, false, 0, 0, Other, [0.0, 0.0]);
    var s3 := Scan(12.0, 0, false, 0, 0, Digit, [0.0, 0.0]);
    var s4 := Scan(0.0, 0, false, 0, 1, Other, [12.0, 0.0]);
    assert "1\r\n2\n" == ['1'] + (['\r'] + (['\n'] + (['2'] + ['\n'])));
    RunCons(s0, '1', ['\r'] + (['\n'] + (['2'] + ['\n'])), 1, 2);
    assert Step(s0, '1', 1, 2) == Some(s1);
    RunCons(s1, '\r', ['\n'] + (['2'] + ['\n']), 1, 2);
    assert Step(s1, '\r', 1, 2) == Some(s2);
    RunCons(s2, '\n', ['2'] + ['\n'], 1, 2);
    assert Step(s2, '\n', 1, 2) == Some(s2);
    RunCons(s2, '2', ['\n'], 1, 2);
    assert Step(s2, '2', 1, 2) == Some(s3);
    RunOne(s3, '\n', 1, 2);
    assert [0.0, 0.0][0 + 0 * 1 := 12.0] == [12.0, 0.0];
    assert Step(s3, '\n', 1, 2) == Some(s4);
  }
}
