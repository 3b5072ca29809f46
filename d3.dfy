/**
 * The engine schematic (src/bin/d3.rs): a character grid, the numbers in it
 * (maximal runs of digits within a row), the clipped box of cells around a
 * number, and whether a symbol or a gear lies in that box.
 */
module D3 {
  import opened Text

  datatype Coord = Coord(x: nat, y: nat)

  /** A number of the schematic: its first and last digit and its value. */
  datatype Number = Number(start: Coord, end: Coord, value: nat)

  /** The characters row-major, with the grid's dimensions. */
  datatype Grid = Grid(values: seq<char>, width: nat, height: nat)

  /** Every in-bounds position has a character. */
  predicate Valid(g: Grid) {
    Row(g.width, g.height) <= |g.values|
  }

  /** Truncating division leaves no more than the dividend: h * (a / h) <= a. */
  lemma DivBound(a: nat, h: nat)
    requires h > 0
    ensures Row(a / h, h) <= a
  {
    RowProduct(a / h, h);
    assert a == (a / h) * h + a % h;
  }

  /** `Grid::from_str`: every character of every line; width is the character count over the line count. */
  function FromStr(s: string): (g: Grid)
    requires Lines(s) != []
    ensures Valid(g) && g.height == |Lines(s)| && g.values == Concat(Lines(s))
  {
    var ls := Lines(s);
    var values := Concat(ls);
    Grid(values, Quotient(|values|, |ls|), |ls|)
  }

  /** The truncating division of `from_str`, a count of characters over a count of lines. */
  function Quotient(a: nat, h: nat): (q: nat)
    requires h > 0
    ensures Row(q, h) <= a
  {
    DivBound(a, h);
    a / h
  }

  /** `get_value`: the character at column x of row y; outside the grid is unreachable. */
  function GetValue(g: Grid, x: nat, y: nat): char
    requires Valid(g) && x < g.width && y < g.height
  {
    IndexBound(x, y, g.width, g.height);
    g.values[Row(g.width, y) + x]
  }

  /** On rectangular input the width is the line length and `get_value(x, y)` is character x of line y. */
  lemma FromStrRowMajor(s: string, w: nat)
    requires Lines(s) != [] && Rectangular(Lines(s), w)
    ensures FromStr(s).width == w
    ensures forall x: nat, y: nat :: x < w && y < |Lines(s)| ==> GetValue(FromStr(s), x, y) == Lines(s)[y][x]
  {
    var ls := Lines(s);
    FromStrWidth(s, w);
    forall x: nat, y: nat | x < w && y < |ls| ensures GetValue(FromStr(s), x, y) == ls[y][x] {
      ConcatAt(ls, w, x, y);
    }
  }

  /** On rectangular input the character count over the line count is the line length. */
  lemma FromStrWidth(s: string, w: nat)
    requires Lines(s) != [] && Rectangular(Lines(s), w)
    ensures FromStr(s).width == w
  {
    var ls := Lines(s);
    RectangularLength(ls, w);
    RowQuotient(w, |ls|);
  }

  /** w rows of n cells, divided by n, give w back. */
  lemma RowQuotient(w: nat, n: nat)
    requires n > 0
    ensures Row(w, n) / n == w
  {
    RowProduct(w, n);
    DivMod(0, w, n);
  }

  lemma RowFits(g: Grid, y: nat)
    requires Valid(g) && y < g.height
    ensures Row(g.width, y) + g.width <= |g.values|
  {
    if y + 1 < g.height {
      RowLess(g.width, y + 1, g.height);
    }
  }

  /** Row y of the grid. */
  function RowText(g: Grid, y: nat): (line: string)
    requires Valid(g) && y < g.height
    ensures |line| == g.width && forall x :: 0 <= x < g.width ==> line[x] == GetValue(g, x, y)
  {
    RowFits(g, y);
    g.values[Row(g.width, y)..Row(g.width, y) + g.width]
  }

  // ---------------------------------------------------------------------
  // Numbers
  // ---------------------------------------------------------------------

  predicate DigitsBetween(line: string, a: nat, b: nat)
    requires a <= b <= |line|
  {
    forall i :: a <= i < b ==> IsDigit(line[i])
  }

  /** The end (exclusive) of the digit run starting at x. */
  function RunEnd(line: string, x: nat): (e: nat)
    requires x <= |line|
    ensures x <= e <= |line| && DigitsBetween(line, x, e)
    ensures e == |line| || !IsDigit(line[e])
    decreases |line| - x
  {
    if x == |line| || !IsDigit(line[x]) then x else RunEnd(line, x + 1)
  }

  /** The end of a digit run is determined by any prefix of digits followed by a non-digit. */
  lemma RunEndAt(line: string, x: nat, e: nat)
    requires x <= e <= |line| && DigitsBetween(line, x, e) && (e == |line| || !IsDigit(line[e]))
    ensures RunEnd(line, x) == e
    decreases e - x
  {
    if x < e {
      RunEndAt(line, x + 1, e);
    }
  }

  /**
   * n is a maximal run of digits of row y: it starts after a non-digit or
   * at the left edge, ends before a non-digit or at the right edge, and
   * its value is the decimal value of its digits.
   */
  predicate MaximalRun(line: string, y: nat, n: Number) {
    && n.start.y == y && n.end.y == y && n.start.x <= n.end.x < |line|
    && DigitsBetween(line, n.start.x, n.end.x + 1)
    && (n.start.x == 0 || !IsDigit(line[n.start.x - 1]))
    && (n.end.x + 1 == |line| || !IsDigit(line[n.end.x + 1]))
    && n.value == NatValue(line[n.start.x..n.end.x + 1])
  }

  /**
   * The numbers of row y from column x on, left to right; x is at the left
   * edge or after a non-digit.
   */
  function RunsFrom(line: string, y: nat, x: nat): seq<Number>
    requires x <= |line| && (x == |line| || x == 0 || !IsDigit(line[x - 1]))
    decreases |line| - x
  {
    if x == |line| then []
    else if !IsDigit(line[x]) then RunsFrom(line, y, x + 1)
    else
      var e := RunEnd(line, x);
      [Number(Coord(x, y), Coord(e - 1, y), NatValue(line[x..e]))]
      + (if e == |line| then [] else RunsFrom(line, y, e + 1))
  }

  /** The numbers that follow a run ending (exclusive) at e. */
  function RunsAfter(line: string, y: nat, e: nat): seq<Number>
    requires 0 < e <= |line| && (e == |line| || !IsDigit(line[e]))
  {
    if e == |line| then [] else RunsFrom(line, y, e + 1)
  }

  /** Every number listed is a maximal digit run of the row, at or after x. */
  lemma {:induction false} RunsFromMaximal(line: string, y: nat, x: nat)
    requires x <= |line| && (x == |line| || x == 0 || !IsDigit(line[x - 1]))
    ensures forall k :: 0 <= k < |RunsFrom(line, y, x)| ==>
      MaximalRun(line, y, RunsFrom(line, y, x)[k]) && x <= RunsFrom(line, y, x)[k].start.x
    decreases |line| - x
  {
    if x == |line| {
    } else if !IsDigit(line[x]) {
      RunsFromMaximal(line, y, x + 1);
    } else {
      var e := RunEnd(line, x);
      var head := Number(Coord(x, y), Coord(e - 1, y), NatValue(line[x..e]));
      var tail := if e == |line| then [] else RunsFrom(line, y, e + 1);
      var rs := RunsFrom(line, y, x);
      assert rs == [head] + tail;
      if e < |line| {
        RunsFromMaximal(line, y, e + 1);
      }
      assert MaximalRun(line, y, head);
      forall k | 0 <= k < |rs| ensures MaximalRun(line, y, rs[k]) && x <= rs[k].start.x {
        if k > 0 {
          assert rs[k] == tail[k - 1];
        }
      }
    }
  }

  /** The numbers are listed left to right, each separated from the next by a non-digit. */
  lemma {:induction false} RunsFromOrdered(line: string, y: nat, x: nat)
    requires x <= |line| && (x == |line| || x == 0 || !IsDigit(line[x - 1]))
    ensures forall k :: 0 <= k < |RunsFrom(line, y, x)| - 1 ==>
      RunsFrom(line, y, x)[k].end.x + 1 < RunsFrom(line, y, x)[k + 1].start.x
    decreases |line| - x
  {
    if x == |line| {
    } else if !IsDigit(line[x]) {
      RunsFromOrdered(line, y, x + 1);
    } else {
      var e := RunEnd(line, x);
      if e < |line| {
        RunsFromOrdered(line, y, e + 1);
        RunsFromMaximal(line, y, e + 1);
      }
    }
  }

  /** Column i lies within one of the numbers. */
  predicate Covered(ns: seq<Number>, i: nat) {
    exists k :: 0 <= k < |ns| && ns[k].start.x <= i <= ns[k].end.x
  }

  /** Every digit at or after x belongs to one of the numbers listed. */
  lemma {:induction false} RunsFromCovers(line: string, y: nat, x: nat)
    requires x <= |line| && (x == |line| || x == 0 || !IsDigit(line[x - 1]))
    ensures forall i: nat :: x <= i < |line| && IsDigit(line[i]) ==> Covered(RunsFrom(line, y, x), i)
    decreases |line| - x
  {
    var ns := RunsFrom(line, y, x);
    if x == |line| {
    } else if !IsDigit(line[x]) {
      RunsFromCovers(line, y, x + 1);
    } else {
      var e := RunEnd(line, x);
      if e < |line| {
        RunsFromCovers(line, y, e + 1);
      }
      forall i: nat | x <= i < |line| && IsDigit(line[i]) ensures Covered(ns, i) {
        if i < e {
          assert ns[0].start.x <= i <= ns[0].end.x;
        } else {
          var rest := RunsFrom(line, y, e + 1);
          var k :| 0 <= k < |rest| && rest[k].start.x <= i <= rest[k].end.x;
          assert ns[k + 1] == rest[k];
        }
      }
    }
  }

  /** Two maximal runs of a row sharing a column are the same number. */
  lemma MaximalUnique(line: string, y: nat, n: Number, m: Number, i: nat)
    requires MaximalRun(line, y, n) && MaximalRun(line, y, m)
    requires n.start.x <= i <= n.end.x && m.start.x <= i <= m.end.x
    ensures n == m
  {
    if n.start.x > 0 { assert !IsDigit(line[n.start.x - 1]); }
    if m.start.x > 0 { assert !IsDigit(line[m.start.x - 1]); }
    if n.end.x + 1 < |line| { assert !IsDigit(line[n.end.x + 1]); }
    if m.end.x + 1 < |line| { assert !IsDigit(line[m.end.x + 1]); }
  }

  /** The numbers of a row are exactly its maximal digit runs. */
  lemma RunsAreMaximalRuns(line: string, y: nat)
    ensures forall n :: n in RunsFrom(line, y, 0) <==> MaximalRun(line, y, n)
  {
    var ns := RunsFrom(line, y, 0);
    RunsFromMaximal(line, y, 0);
    RunsFromCovers(line, y, 0);
    forall n | MaximalRun(line, y, n) ensures n in ns {
      assert IsDigit(line[n.start.x]);
      assert Covered(ns, n.start.x);
      var k :| 0 <= k < |ns| && ns[k].start.x <= n.start.x <= ns[k].end.x;
      MaximalUnique(line, y, n, ns[k], n.start.x);
    }
  }

  /** The numbers of rows 0..y-1, row after row. */
  function NumbersUpTo(g: Grid, y: nat): (ns: seq<Number>)
    requires Valid(g) && y <= g.height
    ensures forall n :: n in ns ==> Placed(g, n) && DigitsOn(g, n)
  {
    if y == 0 then []
    else
      RowPlaced(g, y - 1);
      NumbersUpTo(g, y - 1) + RunsFrom(RowText(g, y - 1), y - 1, 0)
  }

  /** The numbers of a row lie inside the grid and consist of digits. */
  lemma RowPlaced(g: Grid, y: nat)
    requires Valid(g) && y < g.height
    ensures forall n :: n in RunsFrom(RowText(g, y), y, 0) ==> Placed(g, n) && DigitsOn(g, n)
  {
    var line := RowText(g, y);
    RunsFromMaximal(line, y, 0);
    forall n | n in RunsFrom(line, y, 0) ensures Placed(g, n) && DigitsOn(g, n) {
      assert MaximalRun(line, y, n);
      forall x | n.start.x <= x <= n.end.x ensures IsDigit(GetValue(g, x, n.start.y)) {
        assert IsDigit(line[x]);
      }
    }
  }

  /** Every number lies in one row, inside the grid, and is a maximal digit run of its row. */
  lemma {:induction false} NumbersInRows(g: Grid, y: nat)
    requires Valid(g) && y <= g.height
    ensures forall k :: 0 <= k < |NumbersUpTo(g, y)| ==>
      var n := NumbersUpTo(g, y)[k]; n.start.y < y && MaximalRun(RowText(g, n.start.y), n.start.y, n)
  {
    if y > 0 {
      NumbersInRows(g, y - 1);
      RunsFromMaximal(RowText(g, y - 1), y - 1, 0);
      var prev := NumbersUpTo(g, y - 1);
      var last := RunsFrom(RowText(g, y - 1), y - 1, 0);
      var all := NumbersUpTo(g, y);
      assert all == prev + last;
      forall k | 0 <= k < |all|
        ensures all[k].start.y < y && MaximalRun(RowText(g, all[k].start.y), all[k].start.y, all[k])
      {
        if k < |prev| {
          assert all[k] == prev[k];
        } else {
          assert all[k] == last[k - |prev|];
        }
      }
    }
  }

  /**
   * The scanner state of `get_numbers` at column x of a row: with no number
   * open, the numbers still to come are those from x; with one open at
   * start, the digits so far are buffered and the open number completes at
   * the end of its run.
   */
  ghost predicate ScanState(line: string, y: nat, x: nat, has: bool, start: nat, s: string,
    found: seq<Number>, goal: seq<Number>)
  {
    && x <= |line|
    && (!has ==> (x == |line| || x == 0 || !IsDigit(line[x - 1])) && s == [] && found + RunsFrom(line, y, x) == goal)
    && (has ==> OpenRun(line, y, x, start, s, found, goal))
  }

  /** A number is open at start; it completes at the end of its run. */
  ghost predicate OpenRun(line: string, y: nat, x: nat, start: nat, s: string, found: seq<Number>, goal: seq<Number>)
    requires x <= |line|
  {
    && start < x < |line| && DigitsBetween(line, start, x) && s == line[start..x]
    && (start == 0 || !IsDigit(line[start - 1]))
    && x <= RunEnd(line, start)
    && found + [Number(Coord(start, y), Coord(RunEnd(line, start) - 1, y), NatValue(line[start..RunEnd(line, start)]))]
       + RunsAfter(line, y, RunEnd(line, start)) == goal
  }

  /** A non-digit with no number open: nothing changes but the column. */
  lemma SkipStep(line: string, y: nat, x: nat, start: nat, found: seq<Number>, goal: seq<Number>)
    requires x < |line| && !IsDigit(line[x]) && ScanState(line, y, x, false, start, [], found, goal)
    ensures ScanState(line, y, x + 1, false, start, [], found, goal)
  {
  }

  /** A digit with no number open starts one here (and completes it at once at the end of the row). */
  lemma OpenStep(line: string, y: nat, x: nat, start: nat, found: seq<Number>, goal: seq<Number>)
    requires x < |line| && IsDigit(line[x]) && ScanState(line, y, x, false, start, [], found, goal)
    ensures x + 1 == |line| ==>
      ScanState(line, y, x + 1, false, x, [], found + [Number(Coord(x, y), Coord(x, y), NatValue([line[x]]))], goal)
    ensures x + 1 < |line| ==> ScanState(line, y, x + 1, true, x, [line[x]], found, goal)
  {
    assert line[x..x + 1] == [line[x]];
    if x + 1 == |line| {
      RunEndAt(line, x, x + 1);
    }
  }

  /** A digit with a number open extends it (and completes it at the end of the row). */
  lemma ExtendStep(line: string, y: nat, x: nat, start: nat, s: string, found: seq<Number>, goal: seq<Number>)
    requires x < |line| && IsDigit(line[x]) && ScanState(line, y, x, true, start, s, found, goal)
    ensures x + 1 == |line| ==>
      ScanState(line, y, x + 1, false, start, [], found + [Number(Coord(start, y), Coord(x, y), NatValue(s + [line[x]]))], goal)
    ensures x + 1 < |line| ==> ScanState(line, y, x + 1, true, start, s + [line[x]], found, goal)
  {
    assert line[start..x + 1] == s + [line[x]];
    if x + 1 == |line| {
      RunEndAt(line, start, x + 1);
    }
  }

  /** A non-digit with a number open completes the number, which ended at the previous column. */
  lemma CloseStep(line: string, y: nat, x: nat, start: nat, s: string, found: seq<Number>, goal: seq<Number>)
    requires x < |line| && !IsDigit(line[x]) && ScanState(line, y, x, true, start, s, found, goal)
    ensures 0 < x && ScanState(line, y, x + 1, false, start, [], found + [Number(Coord(start, y), Coord(x - 1, y), NatValue(s))], goal)
  {
    RunEndAt(line, start, x);
  }

  /** `get_numbers` on one row (the inner loop). */
  method RowNumbers(g: Grid, y: nat, found0: seq<Number>) returns (found: seq<Number>)
    requires Valid(g) && y < g.height
    ensures found == found0 + RunsFrom(RowText(g, y), y, 0)
  {
    ghost var line := RowText(g, y);
    ghost var goal := found0 + RunsFrom(line, y, 0);
    found := found0;
    var s: string := [];
    var start := 0;
    var hasNumber := false;
    for x := 0 to g.width
      invariant ScanState(line, y, x, hasNumber, start, s, found, goal)
    {
      var c := GetValue(g, x, y);
      hasNumber, start, s, found := ScanColumn(line, g.width, y, x, c, hasNumber, start, s, found, goal);
    }
    assert !hasNumber;
  }

  /** One column of `get_numbers`' inner loop: the character c at column x moves the scanner on. */
  method ScanColumn(ghost line: string, width: nat, y: nat, x: nat, c: char, has: bool, start: nat, s: string,
    found: seq<Number>, ghost goal: seq<Number>)
    returns (has': bool, start': nat, s': string, found': seq<Number>)
    requires |line| == width && x < width && c == line[x] && ScanState(line, y, x, has, start, s, found, goal)
    ensures ScanState(line, y, x + 1, has', start', s', found', goal)
  {
    has', start', s', found' := has, start, s, found;
    if !has && !IsDigit(c) {
      SkipStep(line, y, x, start, found, goal);
    } else if !has {
      OpenStep(line, y, x, start, found, goal);
    } else if IsDigit(c) {
      ExtendStep(line, y, x, start, s, found, goal);
    } else {
      CloseStep(line, y, x, start, s, found, goal);
    }
    if !has' && IsDigit(c) {
      has' := true;
      start' := x;
    }
    if has' && IsDigit(c) {
      s' := s' + [c];
    }
    if has' && !IsDigit(c) {
      found' := found' + [Number(Coord(start', y), Coord(x - 1, y), NatValue(s'))];
      s' := [];
      has' := false;
    }
    if has' && IsDigit(c) && x == width - 1 {
      found' := found' + [Number(Coord(start', y), Coord(x, y), NatValue(s'))];
      s' := [];
      has' := false;
    }
  }

  /** `get_numbers`: the maximal digit runs of every row, row by row, left to right. */
  method GetNumbers(g: Grid) returns (numbers: seq<Number>)
    requires Valid(g)
    ensures numbers == NumbersUpTo(g, g.height)
  {
    numbers := [];
    for y := 0 to g.height
      invariant numbers == NumbersUpTo(g, y)
    {
      numbers := RowNumbers(g, y, numbers);
    }
  }

  // ---------------------------------------------------------------------
  // The box around a number
  // ---------------------------------------------------------------------

  /** A number placed inside the grid on one row. */
  predicate Placed(g: Grid, n: Number) {
    n.start.y == n.end.y && n.start.x <= n.end.x < g.width && n.start.y < g.height
  }

  /** The box of `get_surrounding_coords`: one cell beyond the number on every side, clipped to the grid. */
  function MinX(n: Number): nat { if n.start.x == 0 then 0 else n.start.x - 1 }
  function MaxX(g: Grid, n: Number): nat requires g.width > 0 { if n.end.x + 1 < g.width - 1 then n.end.x + 1 else g.width - 1 }
  function MinY(n: Number): nat { if n.start.y == 0 then 0 else n.start.y - 1 }
  function MaxY(g: Grid, n: Number): nat requires g.height > 0 { if n.start.y + 1 < g.height - 1 then n.start.y + 1 else g.height - 1 }

  /** Cells (lo..hi) of row y. */
  function Span(lo: nat, hi: nat, y: nat): (r: seq<Coord>)
    requires lo <= hi + 1
    ensures |r| == hi + 1 - lo && forall k :: 0 <= k < |r| ==> r[k] == Coord(lo + k, y)
  {
    seq(hi + 1 - lo, k requires 0 <= k < hi + 1 - lo => Coord(lo + k, y))
  }

  /** A span holds exactly the cells of its row between its ends. */
  lemma SpanMembers(lo: nat, hi: nat, y: nat)
    requires lo <= hi + 1
    ensures forall c: Coord :: c in Span(lo, hi, y) <==> c.y == y && lo <= c.x <= hi
  {
    var r := Span(lo, hi, y);
    forall c: Coord | c.y == y && lo <= c.x <= hi ensures c in r {
      assert r[c.x - lo] == c;
    }
  }

  /**
   * `get_surrounding_coords`: the top row of the box, its bottom row, then
   * the cells left and right of the number; all inside the grid, and
   * 2 * (box width) + 2 of them.
   */
  function Surrounding(g: Grid, n: Number): (cs: seq<Coord>)
    requires Placed(g, n)
    ensures |cs| == 2 * (MaxX(g, n) - MinX(n) + 1) + 2
    ensures forall k :: 0 <= k < |cs| ==> cs[k].x < g.width && cs[k].y < g.height
    ensures forall c :: c in cs <==>
      ((c.y == MinY(n) || c.y == MaxY(g, n)) && MinX(n) <= c.x <= MaxX(g, n))
      || c == Coord(MinX(n), n.start.y) || c == Coord(MaxX(g, n), n.start.y)
  {
    var top := Span(MinX(n), MaxX(g, n), MinY(n));
    var bot := Span(MinX(n), MaxX(g, n), MaxY(g, n));
    var cs := top + bot + [Coord(MinX(n), n.start.y), Coord(MaxX(g, n), n.start.y)];
    SpanMembers(MinX(n), MaxX(g, n), MinY(n));
    SpanMembers(MinX(n), MaxX(g, n), MaxY(g, n));
    cs
  }

  /** c touches the number: at most one row and one column away from one of its digits, and not a digit of it. */
  predicate Touches(n: Number, c: Coord) {
    && n.start.y <= c.y + 1 && c.y <= n.start.y + 1
    && n.start.x <= c.x + 1 && c.x <= n.end.x + 1
    && !(c.y == n.start.y && n.start.x <= c.x <= n.end.x)
  }

  /** Every in-grid cell touching the number is in its box, and every box cell touches it or is one of its digits. */
  lemma SurroundingIsNeighbourhood(g: Grid, n: Number)
    requires Placed(g, n)
    ensures forall c: Coord :: c.x < g.width && c.y < g.height && Touches(n, c) ==> c in Surrounding(g, n)
    ensures forall c :: c in Surrounding(g, n) ==> Touches(n, c) || (c.y == n.start.y && n.start.x <= c.x <= n.end.x)
  {
  }

  /** The symbols: ASCII punctuation other than '.'. */
  predicate IsPunctuation(c: char) {
    ('!' <= c <= '/') || (':' <= c <= '@') || ('[' <= c <= '`') || ('{' <= c <= '~')
  }

  predicate IsSymbol(c: char) {
    IsPunctuation(c) && c != '.'
  }

  /** `any` over the box: some listed cell holds a symbol. */
  function AnySymbol(g: Grid, cs: seq<Coord>): (b: bool)
    requires Valid(g) && forall k :: 0 <= k < |cs| ==> cs[k].x < g.width && cs[k].y < g.height
    ensures b <==> exists k :: 0 <= k < |cs| && IsSymbol(GetValue(g, cs[k].x, cs[k].y))
  {
    if cs == [] then false
    else IsSymbol(GetValue(g, cs[0].x, cs[0].y)) || AnySymbol(g, cs[1..])
  }

  /** The cells of the number's own digits. */
  predicate OnNumber(n: Number, c: Coord) {
    c.y == n.start.y && n.start.x <= c.x <= n.end.x
  }

  /** The number's cells hold digits (true of every number `get_numbers` finds). */
  predicate DigitsOn(g: Grid, n: Number)
    requires Valid(g) && Placed(g, n)
  {
    forall x :: n.start.x <= x <= n.end.x ==> IsDigit(GetValue(g, x, n.start.y))
  }

  lemma DigitIsNotSymbol(c: char)
    ensures IsDigit(c) ==> !IsSymbol(c)
  {
  }

  /** What `any` over the box finds: a symbol on a touching cell, or on one of the number's own cells. */
  lemma AnySymbolAround(g: Grid, n: Number)
    requires Valid(g) && Placed(g, n)
    ensures (exists c: Coord :: c.x < g.width && c.y < g.height && Touches(n, c) && IsSymbol(GetValue(g, c.x, c.y)))
      ==> AnySymbol(g, Surrounding(g, n))
    ensures AnySymbol(g, Surrounding(g, n)) ==>
      exists c: Coord :: c.x < g.width && c.y < g.height && (Touches(n, c) || OnNumber(n, c)) && IsSymbol(GetValue(g, c.x, c.y))
  {
    var cs := Surrounding(g, n);
    SurroundingIsNeighbourhood(g, n);
    if c: Coord :| c.x < g.width && c.y < g.height && Touches(n, c) && IsSymbol(GetValue(g, c.x, c.y)) {
      var k :| 0 <= k < |cs| && cs[k] == c;
    }
    if AnySymbol(g, cs) {
      var k :| 0 <= k < |cs| && IsSymbol(GetValue(g, cs[k].x, cs[k].y));
      assert cs[k] in cs;
    }
  }

  /**
   * `number_is_near_symbol`: a symbol lies on a cell touching the number;
   * the box also holds the number's own first or last digit where it is
   * clipped, which never counts since a digit is no symbol.
   */
  function NearSymbol(g: Grid, n: Number): (b: bool)
    requires Valid(g) && Placed(g, n)
    ensures DigitsOn(g, n) ==>
      (b <==> exists c: Coord :: c.x < g.width && c.y < g.height && Touches(n, c) && IsSymbol(GetValue(g, c.x, c.y)))
  {
    AnySymbolAround(g, n);
    var b := AnySymbol(g, Surrounding(g, n));
    assert DigitsOn(g, n) && b ==> exists c: Coord :: c.x < g.width && c.y < g.height && Touches(n, c) && IsSymbol(GetValue(g, c.x, c.y)) by {
      if DigitsOn(g, n) && b {
        var c: Coord :| c.x < g.width && c.y < g.height && (Touches(n, c) || OnNumber(n, c)) && IsSymbol(GetValue(g, c.x, c.y));
        DigitIsNotSymbol(GetValue(g, c.x, c.y));
      }
    }
    b
  }

  /** `get_possible_gears`: the box cells holding '*', in box order. */
  function Gears(g: Grid, cs: seq<Coord>): (r: seq<Coord>)
    requires Valid(g) && forall k :: 0 <= k < |cs| ==> cs[k].x < g.width && cs[k].y < g.height
    ensures forall c :: c in r <==> c in cs && GetValue(g, c.x, c.y) == '*'
    ensures |r| <= |cs|
  {
    if cs == [] then []
    else
      var rest := Gears(g, cs[1..]);
      if GetValue(g, cs[0].x, cs[0].y) == '*' then [cs[0]] + rest else rest
  }

  function PossibleGears(g: Grid, n: Number): (r: seq<Coord>)
    requires Valid(g) && Placed(g, n)
    ensures forall c :: c in r <==> c in Surrounding(g, n) && GetValue(g, c.x, c.y) == '*'
  {
    Gears(g, Surrounding(g, n))
  }

  // ---------------------------------------------------------------------
  // Part numbers
  // ---------------------------------------------------------------------

  /** Some cell touching the number holds a symbol. */
  ghost predicate IsPart(g: Grid, n: Number)
    requires Valid(g)
  {
    exists c: Coord :: c.x < g.width && c.y < g.height && Touches(n, c) && IsSymbol(GetValue(g, c.x, c.y))
  }

  /** The filter of `solution1`: the numbers with a symbol next to them, in order. */
  function PartNumbers(g: Grid, ns: seq<Number>): (parts: seq<Number>)
    requires Valid(g) && forall n :: n in ns ==> Placed(g, n) && DigitsOn(g, n)
    ensures forall n :: n in parts <==> n in ns && IsPart(g, n)
    ensures |parts| <= |ns|
  {
    if ns == [] then []
    else
      var rest := PartNumbers(g, ns[1..]);
      if NearSymbol(g, ns[0]) then [ns[0]] + rest else rest
  }

  function SumValues(ns: seq<Number>): nat {
    if ns == [] then 0 else ns[0].value + SumValues(ns[1..])
  }

  /** The part numbers' values add up to no more than all the numbers' values. */
  lemma {:induction false} PartSumBound(g: Grid, ns: seq<Number>)
    requires Valid(g) && forall n :: n in ns ==> Placed(g, n) && DigitsOn(g, n)
    ensures SumValues(PartNumbers(g, ns)) <= SumValues(ns)
    ensures (forall n :: n in ns ==> IsPart(g, n)) ==> SumValues(PartNumbers(g, ns)) == SumValues(ns)
  {
    if ns != [] {
      PartSumBound(g, ns[1..]);
      var rest := PartNumbers(g, ns[1..]);
      if NearSymbol(g, ns[0]) {
        assert PartNumbers(g, ns) == [ns[0]] + rest;
        assert ([ns[0]] + rest)[1..] == rest;
      }
    }
  }

  /** `solution1`: the sum of the part numbers of the schematic. */
  function Solution1(text: string): (sum: nat)
    requires Lines(text) != []
    ensures var g := FromStr(text);
      sum == SumValues(PartNumbers(g, NumbersUpTo(g, g.height))) && sum <= SumValues(NumbersUpTo(g, g.height))
  {
    var g := FromStr(text);
    PartSumBound(g, NumbersUpTo(g, g.height));
    SumValues(PartNumbers(g, NumbersUpTo(g, g.height)))
  }
}
