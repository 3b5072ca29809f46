/**
 * Cosmic expansion (src/bin/d11.rs): the galaxies of an image are listed
 * row by row, every empty column and row is widened by a factor, and the
 * Manhattan distances between all pairs of galaxies are added up.
 */
module D11 {
  import opened Text

  datatype Coord = Coord(x: nat, y: nat)

  // ---------------------------------------------------------------------
  // Reading the image
  // ---------------------------------------------------------------------

  /** An image `Grid::from` accepts: a first line, and nothing but '#' and '.'. */
  predicate WellFormed(ls: seq<string>) {
    |ls| > 0 && forall y, x :: 0 <= y < |ls| && 0 <= x < |ls[y]| ==> ls[y][x] == '#' || ls[y][x] == '.'
  }

  /** The galaxies of one line, left to right. */
  function RowGalaxies(line: string, y: nat): seq<Coord> {
    if line == [] then []
    else RowGalaxies(line[..|line| - 1], y) + (if line[|line| - 1] == '#' then [Coord(|line| - 1, y)] else [])
  }

  /** The galaxies of all lines, top to bottom. */
  function Galaxies(ls: seq<string>): seq<Coord> {
    if ls == [] then []
    else Galaxies(ls[..|ls| - 1]) + RowGalaxies(ls[|ls| - 1], |ls| - 1)
  }

  /** Row-major order: an earlier row, or the same row and an earlier column. */
  predicate Before(a: Coord, b: Coord) {
    a.y < b.y || (a.y == b.y && a.x < b.x)
  }

  predicate RowMajor(gs: seq<Coord>) {
    forall i, j :: 0 <= i < j < |gs| ==> Before(gs[i], gs[j])
  }

  lemma {:induction false} RowGalaxiesMeaning(line: string, y: nat)
    ensures forall c :: c in RowGalaxies(line, y) <==> c.y == y && c.x < |line| && line[c.x] == '#'
    ensures RowMajor(RowGalaxies(line, y))
    decreases |line|
  {
    if line != [] {
      var pre := line[..|line| - 1];
      RowGalaxiesMeaning(pre, y);
      assert forall x :: 0 <= x < |pre| ==> pre[x] == line[x];
    }
  }

  /** A galaxy is listed exactly where the image has a '#', and the list is in row-major order. */
  lemma {:induction false} GalaxiesMeaning(ls: seq<string>)
    ensures forall c :: c in Galaxies(ls) <==> c.y < |ls| && c.x < |ls[c.y]| && ls[c.y][c.x] == '#'
    ensures RowMajor(Galaxies(ls))
    ensures forall c :: c in Galaxies(ls) ==> c.y < |ls|
    decreases |ls|
  {
    if ls != [] {
      var pre := ls[..|ls| - 1];
      var last := |ls| - 1;
      GalaxiesMeaning(pre);
      RowGalaxiesMeaning(ls[last], last);
      assert forall y :: 0 <= y < |pre| ==> pre[y] == ls[y];
      var a, b := Galaxies(pre), RowGalaxies(ls[last], last);
      forall i, j | 0 <= i < j < |a + b| ensures Before((a + b)[i], (a + b)[j]) {
        if i < |a| && j >= |a| {
          assert a[i] in a && b[j - |a|] in b;
        }
      }
    }
  }

  // ---------------------------------------------------------------------
  // Gaps and expansion
  // ---------------------------------------------------------------------

  function Xs(gs: seq<Coord>): (xs: seq<nat>)
    ensures |xs| == |gs| && forall i :: 0 <= i < |gs| ==> xs[i] == gs[i].x
  {
    seq(|gs|, i requires 0 <= i < |gs| => gs[i].x)
  }

  function Ys(gs: seq<Coord>): (ys: seq<nat>)
    ensures |ys| == |gs| && forall i :: 0 <= i < |gs| ==> ys[i] == gs[i].y
  {
    seq(|gs|, i requires 0 <= i < |gs| => gs[i].y)
  }

  /** `x_gaps` / `y_gaps`: the values below n that no galaxy has, in increasing order. */
  function Gaps(vs: seq<nat>, n: nat): (gaps: seq<nat>)
    ensures forall g :: g in gaps <==> 0 <= g < n && g !in vs
    ensures forall i, j :: 0 <= i < j < |gaps| ==> gaps[i] < gaps[j]
    ensures forall i :: 0 <= i < |gaps| ==> gaps[i] < n
  {
    if n == 0 then []
    else if n - 1 in vs then Gaps(vs, n - 1)
    else Gaps(vs, n - 1) + [n - 1]
  }

  /** `filter(|&&gap| v > gap).count()`: the gaps below v. */
  function Below(gaps: seq<nat>, v: nat): (n: nat)
    ensures n <= |gaps|
  {
    if gaps == [] then 0
    else Below(gaps[..|gaps| - 1], v) + (if v > gaps[|gaps| - 1] then 1 else 0)
  }

  /** The gaps g with a <= g < b. */
  function Within(gaps: seq<nat>, a: nat, b: nat): nat {
    if gaps == [] then 0
    else Within(gaps[..|gaps| - 1], a, b) + (if a <= gaps[|gaps| - 1] < b then 1 else 0)
  }

  /** The gaps below b are those below a and those from a up to b. */
  lemma {:induction false} BelowSplit(gaps: seq<nat>, a: nat, b: nat)
    requires a <= b
    ensures Below(gaps, b) == Below(gaps, a) + Within(gaps, a, b)
    decreases |gaps|
  {
    if gaps != [] {
      BelowSplit(gaps[..|gaps| - 1], a, b);
    }
  }

  /** A coordinate moved by `expand`: each gap below it adds expansion - 1. */
  function Shift(gaps: seq<nat>, v: nat, e: nat): nat
    requires e >= 1
  {
    v + Below(gaps, v) * (e - 1)
  }

  function Move(g: Coord, xGaps: seq<nat>, yGaps: seq<nat>, e: nat): Coord
    requires e >= 1
  {
    Coord(Shift(xGaps, g.x, e), Shift(yGaps, g.y, e))
  }

  /** The galaxies after `expand(e)` on an image of the given width and height. */
  function Expanded(gs: seq<Coord>, w: nat, h: nat, e: nat): (r: seq<Coord>)
    requires e >= 1
    ensures |r| == |gs|
  {
    var xGaps, yGaps := Gaps(Xs(gs), w), Gaps(Ys(gs), h);
    seq(|gs|, i requires 0 <= i < |gs| => Move(gs[i], xGaps, yGaps, e))
  }

  /** Moving by a factor preserves strict order, so row-major order and distinctness survive `expand`. */
  lemma ShiftOrder(gaps: seq<nat>, a: nat, b: nat, e: nat)
    requires e >= 1 && a < b
    ensures Shift(gaps, a, e) < Shift(gaps, b, e)
  {
    BelowSplit(gaps, a, b);
    MulLe(Below(gaps, a), Below(gaps, b), e - 1);
  }

  lemma MulAdd(p: nat, q: nat, c: nat)
    ensures (p + q) * c == p * c + q * c
  {
  }

  function AbsDiff(a: nat, b: nat): nat {
    if a <= b then b - a else a - b
  }

  /** The shifted distance is the old one plus expansion - 1 for every gap crossed. */
  lemma ShiftDistance(gaps: seq<nat>, a: nat, b: nat, e: nat)
    requires e >= 1
    ensures a <= b ==> AbsDiff(Shift(gaps, a, e), Shift(gaps, b, e)) == b - a + Within(gaps, a, b) * (e - 1)
    ensures b < a ==> AbsDiff(Shift(gaps, a, e), Shift(gaps, b, e)) == a - b + Within(gaps, b, a) * (e - 1)
  {
    if a <= b {
      ShiftSplit(gaps, a, b, e);
      AbsDiffAbove(Shift(gaps, a, e), Shift(gaps, b, e), b - a + Within(gaps, a, b) * (e - 1));
    } else {
      ShiftSplit(gaps, b, a, e);
      AbsDiffAbove(Shift(gaps, b, e), Shift(gaps, a, e), a - b + Within(gaps, b, a) * (e - 1));
    }
  }

  lemma AbsDiffAbove(x: nat, y: nat, k: nat)
    requires y == x + k
    ensures AbsDiff(x, y) == k && AbsDiff(y, x) == k
  {
  }

  /** Shifting the larger coordinate adds the distance and expansion - 1 per gap in between. */
  lemma ShiftSplit(gaps: seq<nat>, a: nat, b: nat, e: nat)
    requires e >= 1 && a <= b
    ensures Shift(gaps, b, e) == Shift(gaps, a, e) + (b - a) + Within(gaps, a, b) * (e - 1)
  {
    var p, q, c := Below(gaps, a), Within(gaps, a, b), e - 1;
    BelowSplit(gaps, a, b);
    MulAdd(p, q, c);
    assert Shift(gaps, b, e) == b + (p + q) * c;
  }

  /** `expand` keeps the galaxies in row-major order. */
  lemma ExpandKeepsOrder(gs: seq<Coord>, w: nat, h: nat, e: nat)
    requires e >= 1 && RowMajor(gs)
    ensures RowMajor(Expanded(gs, w, h, e))
  {
    var xGaps, yGaps := Gaps(Xs(gs), w), Gaps(Ys(gs), h);
    var r := Expanded(gs, w, h, e);
    forall i, j | 0 <= i < j < |r| ensures Before(r[i], r[j]) {
      assert Before(gs[i], gs[j]);
      if gs[i].y < gs[j].y {
        ShiftOrder(yGaps, gs[i].y, gs[j].y, e);
      } else {
        ShiftOrder(xGaps, gs[i].x, gs[j].x, e);
      }
    }
  }

  /** Expanding by one changes no coordinate. */
  lemma ExpandOne(gs: seq<Coord>, w: nat, h: nat)
    ensures Expanded(gs, w, h, 1) == gs
  {
    forall i | 0 <= i < |gs| ensures Expanded(gs, w, h, 1)[i] == gs[i] {
      var g := gs[i];
      assert Shift(Gaps(Xs(gs), w), g.x, 1) == g.x;
    }
  }

  /** The `iter_mut` pass of `expand`, one galaxy at a time. */
  method MoveAll(gs: seq<Coord>, xGaps: seq<nat>, yGaps: seq<nat>, e: nat) returns (r: seq<Coord>)
    requires e >= 1
    ensures |r| == |gs| && forall k :: 0 <= k < |gs| ==> r[k] == Move(gs[k], xGaps, yGaps, e)
  {
    r := gs;
    for i := 0 to |r|
      invariant |r| == |gs|
      invariant forall k :: 0 <= k < i ==> r[k] == Move(gs[k], xGaps, yGaps, e)
      invariant forall k :: i <= k < |gs| ==> r[k] == gs[k]
    {
      var g := r[i];
      r := r[i := Coord(g.x + Below(xGaps, g.x) * (e - 1), g.y + Below(yGaps, g.y) * (e - 1))];
    }
  }

  // ---------------------------------------------------------------------
  // The grid
  // ---------------------------------------------------------------------

  class Grid {
    var galaxies: seq<Coord>
    var width: nat
    var height: nat

    /** `Grid::from`: the '#' cells row by row; the first line's length; the number of lines. */
    constructor (text: string)
      requires WellFormed(Lines(text))
      ensures galaxies == Galaxies(Lines(text))
      ensures width == |Lines(text)[0]| && height == |Lines(text)|
    {
      var ls := Lines(text);
      var gs: seq<Coord> := [];
      var h := 0;
      for y := 0 to |ls|
        invariant gs == Galaxies(ls[..y]) && h == y
      {
        var line := ls[y];
        for x := 0 to |line|
          invariant gs == Galaxies(ls[..y]) + RowGalaxies(line[..x], y)
        {
          assert line[..x + 1][..x] == line[..x];
          if line[x] == '#' {
            gs := gs + [Coord(x, y)];
          } else {
            assert line[x] == '.';
          }
        }
        assert line[..|line|] == line;
        assert ls[..y + 1][..y] == ls[..y];
        h := h + 1;
      }
      assert ls[..|ls|] == ls;
      galaxies := gs;
      width := |ls[0]|;
      height := h;
    }

    /**
     * `expand`: every galaxy moves right by expansion - 1 per empty column to
     * its left and down likewise per empty row above it; width and height
     * grow by the number of empty columns and rows.
     */
    method Expand(e: nat)
      requires e >= 1
      modifies this
      ensures galaxies == Expanded(old(galaxies), old(width), old(height), e)
      ensures width == old(width) + |Gaps(Xs(old(galaxies)), old(width))|
      ensures height == old(height) + |Gaps(Ys(old(galaxies)), old(height))|
    {
      var xGaps := Gaps(Xs(galaxies), width);
      var yGaps := Gaps(Ys(galaxies), height);
      galaxies := MoveAll(galaxies, xGaps, yGaps, e);
      width := width + |xGaps|;
      height := height + |yGaps|;
    }
  }

  // ---------------------------------------------------------------------
  // Distances
  // ---------------------------------------------------------------------

  /** `abs_diff` of the x and of the y coordinates, added. */
  function Dist(a: Coord, b: Coord): nat {
    AbsDiff(a.x, b.x) + AbsDiff(a.y, b.y)
  }

  /** The distances from galaxy i to galaxies i..j-1: the inner loop. */
  function RowTotal(gs: seq<Coord>, i: nat, j: nat): nat
    requires i <= j <= |gs|
    decreases j
  {
    if j == i then 0 else RowTotal(gs, i, j - 1) + Dist(gs[i], gs[j - 1])
  }

  /** The first n rounds of the outer loop. */
  function LoopTotal(gs: seq<Coord>, n: nat): nat
    requires n <= |gs|
  {
    if n == 0 then 0 else LoopTotal(gs, n - 1) + RowTotal(gs, n - 1, |gs|)
  }

  /** The distances from galaxy m to the first k galaxies. */
  function ToEarlier(gs: seq<Coord>, k: nat, m: nat): nat
    requires k <= m < |gs|
  {
    if k == 0 then 0 else ToEarlier(gs, k - 1, m) + Dist(gs[k - 1], gs[m])
  }

  /** Every unordered pair of distinct positions once: each galaxy with every earlier one. */
  function PairSum(gs: seq<Coord>): nat {
    if gs == [] then 0 else PairSum(gs[..|gs| - 1]) + ToEarlier(gs, |gs| - 1, |gs| - 1)
  }

  lemma {:induction false} RowTotalPrefix(gs: seq<Coord>, i: nat, j: nat, m: nat)
    requires i <= j <= m < |gs|
    ensures RowTotal(gs, i, j) == RowTotal(gs[..m], i, j)
    decreases j
  {
    if j > i {
      RowTotalPrefix(gs, i, j - 1, m);
    }
  }

  lemma {:induction false} ToEarlierPrefix(gs: seq<Coord>, k: nat, m: nat, n: nat)
    requires k <= m < n <= |gs|
    ensures ToEarlier(gs, k, m) == ToEarlier(gs[..n], k, m)
    decreases k
  {
    if k > 0 {
      ToEarlierPrefix(gs, k - 1, m, n);
    }
  }

  /** Adding the last galaxy adds one term to every earlier row of the loop. */
  lemma {:induction false} LoopTotalSnoc(gs: seq<Coord>, k: nat)
    requires 0 < |gs| && k <= |gs| - 1
    ensures LoopTotal(gs, k) == LoopTotal(gs[..|gs| - 1], k) + ToEarlier(gs, k, |gs| - 1)
    decreases k
  {
    if k > 0 {
      var m := |gs| - 1;
      var pre := gs[..m];
      LoopTotalSnoc(gs, k - 1);
      RowTotalPrefix(gs, k - 1, m, m);
      assert LoopTotal(pre, k) == LoopTotal(pre, k - 1) + RowTotal(pre, k - 1, m);
      assert RowTotal(gs, k - 1, |gs|) == RowTotal(gs, k - 1, m) + Dist(gs[k - 1], gs[m]);
      assert ToEarlier(gs, k, m) == ToEarlier(gs, k - 1, m) + Dist(gs[k - 1], gs[m]);
    }
  }

  /** The loop over i <= j counts every unordered pair of galaxies exactly once (the i == j terms are 0). */
  lemma {:induction false} LoopIsPairs(gs: seq<Coord>)
    ensures LoopTotal(gs, |gs|) == PairSum(gs)
    decreases |gs|
  {
    if gs != [] {
      var m := |gs| - 1;
      var pre := gs[..m];
      LoopIsPairs(pre);
      LoopTotalSnoc(gs, m);
      assert RowTotal(gs, m, |gs|) == 0;
    }
  }

  /** The nested loops of `solution_1` / `solution_2`. */
  method TotalDistance(gs: seq<Coord>) returns (total: nat)
    ensures total == PairSum(gs)
  {
    total := 0;
    for i := 0 to |gs|
      invariant total == LoopTotal(gs, i)
    {
      for j := i to |gs|
        invariant total == LoopTotal(gs, i) + RowTotal(gs, i, j)
      {
        var g0 := gs[i];
        var g1 := gs[j];
        total := total + AbsDiff(g0.x, g1.x) + AbsDiff(g0.y, g1.y);
      }
    }
    LoopIsPairs(gs);
  }

  /** `solution_1` (e = 2) and `solution_2` (e = 1000000): the pairwise distances after expansion. */
  method Solution(text: string, e: nat) returns (total: nat)
    requires WellFormed(Lines(text)) && e >= 1
    ensures var ls := Lines(text);
      total == PairSum(Expanded(Galaxies(ls), |ls[0]|, |ls|, e))
  {
    var grid := new Grid(text);
    grid.Expand(e);
    total := TotalDistance(grid.galaxies);
  }

  // ---------------------------------------------------------------------
  // The width after expansion
  // ---------------------------------------------------------------------

  /** The width `expand` leaves: one more column per gap, whatever the factor. */
  function WidthAsWritten(w: nat, gaps: seq<nat>): nat {
    w + |gaps|
  }

  /** The width of the expanded image: each gap column becomes e columns. */
  function ExpandedWidth(w: nat, gaps: seq<nat>, e: nat): nat
    requires e >= 1
  {
    w + |gaps| * (e - 1)
  }

  lemma ExampleGalaxies()
    ensures Galaxies(["..#"]) == [Coord(2, 0)]
  {
    var line := "..#";
    assert line[..2] == ".." && line[..2][..1] == "." && line[..2][..1][..0] == [];
    assert RowGalaxies(".", 0) == [];
    assert RowGalaxies("..", 0) == [];
    assert RowGalaxies(line, 0) == [Coord(2, 0)];
    var ls: seq<string> := [line];
    assert ls[..0] == [];
    assert Galaxies(ls) == Galaxies(ls[..0]) + RowGalaxies(line, 0);
  }

  lemma ExampleGaps()
    ensures Gaps([2], 3) == [0, 1] && Below([0, 1], 2) == 2
  {
    assert Gaps([2], 1) == [0];
    assert Gaps([2], 2) == [0, 1];
    assert [0, 1][..1] == [0];
    assert [0][..0] == [];
  }

  /** The image "..#" expanded by 3: its galaxy moves to column 6, past the width 5 that `expand` records. */
  lemma WidthLagsGalaxies()
    ensures var gs := Galaxies(["..#"]);
      var g := Expanded(gs, 3, 1, 3)[0];
      g.x == 6 && g.x >= WidthAsWritten(3, Gaps(Xs(gs), 3))
  {
    var gs := Galaxies(["..#"]);
    ExampleGalaxies();
    assert Xs(gs) == [2];
    ExampleGaps();
    var gaps := Gaps(Xs(gs), 3);
    assert Expanded(gs, 3, 1, 3)[0].x == Shift(gaps, 2, 3);
    assert Shift(gaps, 2, 3) == 6;
  }

  /** With the scaled width, every expanded galaxy lies inside the expanded image. */
  lemma ExpandedInBounds(gs: seq<Coord>, w: nat, h: nat, e: nat)
    requires e >= 1 && forall i :: 0 <= i < |gs| ==> gs[i].x < w
    ensures forall i :: 0 <= i < |gs| ==> Expanded(gs, w, h, e)[i].x < ExpandedWidth(w, Gaps(Xs(gs), w), e)
  {
    var gaps := Gaps(Xs(gs), w);
    forall i | 0 <= i < |gs| ensures Expanded(gs, w, h, e)[i].x < ExpandedWidth(w, gaps, e) {
      MulLe(Below(gaps, gs[i].x), |gaps|, e - 1);
    }
  }
}
