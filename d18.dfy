/**
 * Lavaduct lagoon (src/bin/d18.rs): a dig plan walks a closed path of
 * axis-aligned moves from the origin; the vertices become the perimeter
 * segments of a polygon, a point is inside when it lies on a segment or
 * a ray to its left crosses an odd number of them, and the plane is cut
 * into cells by the vertices' x and y values.
 */
module D18 {
  import opened Text

  datatype Coord = Coord(x: int, y: int)

  /** `Seg(min x, max x, min y, max y)`. */
  datatype Seg = Seg(x0: int, x1: int, y0: int, y1: int)

  /** `Rect(x0, x1, y0, y1)`. */
  datatype Rect = Rect(x0: int, x1: int, y0: int, y1: int)

  datatype Grid = Grid(bounds: Rect, perimSegs: seq<Seg>, vertices: seq<Coord>)

  // ---------------------------------------------------------------------
  // Segments
  // ---------------------------------------------------------------------

  function Min(a: int, b: int): int {
    if a <= b then a else b
  }

  function Max(a: int, b: int): int {
    if a <= b then b else a
  }

  function Abs(a: int): nat {
    if a < 0 then -a else a
  }

  /** Both coordinate ranges are in order. */
  predicate Normal(s: Seg) {
    s.x0 <= s.x1 && s.y0 <= s.y1
  }

  /** `Seg::new`: the smaller and larger x, then the smaller and larger y, whatever the argument order. */
  function NewSeg(x0: int, x1: int, y0: int, y1: int): (s: Seg)
    ensures Normal(s)
    ensures (s.x0 == x0 && s.x1 == x1) || (s.x0 == x1 && s.x1 == x0)
    ensures (s.y0 == y0 && s.y1 == y1) || (s.y0 == y1 && s.y1 == y0)
  {
    Seg(Min(x0, x1), Max(x0, x1), Min(y0, y1), Max(y0, y1))
  }

  /** The argument order does not matter, and a segment already in order is kept as it is. */
  lemma NewSegOrderFree(x0: int, x1: int, y0: int, y1: int)
    ensures NewSeg(x0, x1, y0, y1) == NewSeg(x1, x0, y0, y1) == NewSeg(x0, x1, y1, y0)
    ensures x0 <= x1 && y0 <= y1 ==> NewSeg(x0, x1, y0, y1) == Seg(x0, x1, y0, y1)
  {
  }

  /** `Seg::from_coords`: the smallest box holding both points. */
  function FromCoords(c0: Coord, c1: Coord): (s: Seg)
    ensures Normal(s) && OnSeg(c0, s) && OnSeg(c1, s)
    ensures forall t :: Normal(t) && OnSeg(c0, t) && OnSeg(c1, t) ==>
      t.x0 <= s.x0 && s.x1 <= t.x1 && t.y0 <= s.y0 && s.y1 <= t.y1
  {
    NewSeg(c0.x, c1.x, c0.y, c1.y)
  }

  /** The lattice point lies in the segment's box. */
  predicate OnSeg(c: Coord, s: Seg) {
    s.x0 <= c.x <= s.x1 && s.y0 <= c.y <= s.y1
  }

  /** The segment is the same from either end. */
  lemma FromCoordsSymmetric(c0: Coord, c1: Coord)
    ensures FromCoords(c0, c1) == FromCoords(c1, c0)
  {
  }

  /** Horizontal or vertical. */
  predicate AxisAligned(s: Seg) {
    s.x0 == s.x1 || s.y0 == s.y1
  }

  /** `Seg::len`: a segment holds at least its one end point. */
  function Len(s: Seg): (n: int)
    ensures n >= 1
  {
    if s.x0 == s.x1 then Abs(s.y1 - s.y0) + 1 else Abs(s.x1 - s.x0) + 1
  }

  /** The lattice points of an axis-aligned segment, from its low end. */
  function Points(s: Seg): (ps: seq<Coord>)
    requires Normal(s) && AxisAligned(s)
  {
    if s.x0 == s.x1 then seq(s.y1 - s.y0 + 1, i requires 0 <= i <= s.y1 - s.y0 => Coord(s.x0, s.y0 + i))
    else seq(s.x1 - s.x0 + 1, i requires 0 <= i <= s.x1 - s.x0 => Coord(s.x0 + i, s.y0))
  }

  /** `len` counts the lattice points of a normalised axis-aligned segment: each once, and no other. */
  lemma LenCountsPoints(s: Seg)
    requires Normal(s) && AxisAligned(s)
    ensures |Points(s)| == Len(s)
    ensures forall i, j :: 0 <= i < j < |Points(s)| ==> Points(s)[i] != Points(s)[j]
    ensures forall c :: c in Points(s) <==> OnSeg(c, s)
  {
    var ps := Points(s);
    forall c | OnSeg(c, s) ensures c in ps {
      if s.x0 == s.x1 {
        assert ps[c.y - s.y0] == c;
      } else {
        assert ps[c.x - s.x0] == c;
      }
    }
  }

  // ---------------------------------------------------------------------
  // The dig plan
  // ---------------------------------------------------------------------

  datatype Dir = R | L | D | U

  datatype Move = Move(dir: Dir, val: int)

  /**
   * One move of `get_vertices_1` / `get_vertices_2`: R and L change x, U and
   * D change y, so the move digs an axis-aligned segment of |val| + 1 lattice points.
   */
  function Step(c: Coord, m: Move): (e: Coord)
    ensures AxisAligned(FromCoords(c, e)) && Len(FromCoords(c, e)) == Abs(m.val) + 1
  {
    match m.dir
    case R => Coord(c.x + m.val, c.y)
    case L => Coord(c.x - m.val, c.y)
    case D => Coord(c.x, c.y - m.val)
    case U => Coord(c.x, c.y + m.val)
  }

  /** Where the walk stands before the next move: the origin, or the last vertex. */
  function Current(vs: seq<Coord>): Coord {
    if vs == [] then Coord(0, 0) else vs[|vs| - 1]
  }

  /** The vertices after each move, starting from the origin (which is not listed). */
  function Trace(moves: seq<Move>): (vs: seq<Coord>)
    ensures |vs| == |moves|
  {
    if moves == [] then []
    else
      var pre := Trace(moves[..|moves| - 1]);
      pre + [Step(Current(pre), moves[|moves| - 1])]
  }

  /** The vertex before move i: the origin for the first move. */
  function Before(vs: seq<Coord>, i: nat): Coord
    requires i < |vs|
  {
    if i == 0 then Coord(0, 0) else vs[i - 1]
  }

  /** Vertex i is the one before it moved by move i. */
  lemma {:induction false} TraceSteps(moves: seq<Move>)
    ensures forall i :: 0 <= i < |moves| ==> Trace(moves)[i] == Step(Before(Trace(moves), i), moves[i])
    decreases |moves|
  {
    if moves != [] {
      var n := |moves| - 1;
      var pre := moves[..n];
      TraceSteps(pre);
      var vs := Trace(moves);
      assert vs[..n] == Trace(pre);
      forall i | 0 <= i < n ensures vs[i] == Step(Before(vs, i), moves[i]) {
        assert pre[i] == moves[i] && Trace(pre)[i] == Step(Before(Trace(pre), i), pre[i]);
        assert Before(vs, i) == Before(Trace(pre), i);
      }
    }
  }

  /** Every dig step of the plan, from the origin on, is such a segment. */
  lemma TraceSegments(moves: seq<Move>)
    ensures forall i :: 0 <= i < |moves| ==>
      AxisAligned(FromCoords(Before(Trace(moves), i), Trace(moves)[i])) &&
      Len(FromCoords(Before(Trace(moves), i), Trace(moves)[i])) == Abs(moves[i].val) + 1
  {
    TraceSteps(moves);
  }

  predicate IsHexDigit(c: char) {
    '0' <= c <= '9' || 'a' <= c <= 'f' || 'A' <= c <= 'F'
  }

  function HexDigitValue(c: char): (v: nat)
    requires IsHexDigit(c)
    ensures v < 16
  {
    if '0' <= c <= '9' then (c - '0') as nat
    else if 'a' <= c <= 'f' then (c - 'a') as nat + 10
    else (c - 'A') as nat + 10
  }

  /** 16 to the power n. */
  function Pow16(n: nat): (p: nat)
    ensures p >= 1
  {
    if n == 0 then 1 else 16 * Pow16(n - 1)
  }

  /** `i64::from_str_radix(_, 16)` on a run of hex digits: n digits write a number below 16^n. */
  function HexValue(s: string): (v: nat)
    requires forall k :: 0 <= k < |s| ==> IsHexDigit(s[k])
    ensures v < Pow16(|s|)
  {
    if s == [] then 0
    else
      var high := HexValue(s[..|s| - 1]);
      assert high * 16 <= (Pow16(|s| - 1) - 1) * 16;
      high * 16 + HexDigitValue(s[|s| - 1])
  }

  /** A line `get_vertices_1` reads: a direction word R, L, D or U, then an integer. */
  predicate WellFormed1(line: string) {
    var ws := Words(line);
    |ws| >= 2 && ws[0] in {"R", "L", "D", "U"} && IsInt(ws[1])
  }

  /** A line `get_vertices_2` reads: a third word with five hex digits at 2..7 and a direction digit 0-3 at 7. */
  predicate WellFormed2(line: string) {
    var ws := Words(line);
    |ws| >= 3 && |ws[2]| >= 8 &&
    (forall k :: 2 <= k < 7 ==> IsHexDigit(ws[2][k])) && '0' <= ws[2][7] <= '3'
  }

  /** The direction letter of part 1. */
  function Letter(d: Dir): string {
    match d
    case R => "R"
    case L => "L"
    case D => "D"
    case U => "U"
  }

  /** The direction digit of part 2. */
  function Code(d: Dir): char {
    match d
    case R => '0'
    case D => '1'
    case L => '2'
    case U => '3'
  }

  /** A part 1 move: the direction named by the first word, the distance written by the second. */
  function Move1(line: string): (m: Move)
    requires WellFormed1(line)
    ensures Letter(m.dir) == Words(line)[0] && m.val == IntValue(Words(line)[1])
  {
    var ws := Words(line);
    var dir := if ws[0] == "R" then R else if ws[0] == "L" then L else if ws[0] == "D" then D else U;
    Move(dir, IntValue(ws[1]))
  }

  /** A part 2 move: the direction coded by the digit after the colour, a distance below 16^5 from its five hex digits. */
  function Move2(line: string): (m: Move)
    requires WellFormed2(line)
    ensures Code(m.dir) == Words(line)[2][7] && 0 <= m.val < Pow16(5)
  {
    var s := Words(line)[2];
    var hex := s[2..7];
    assert forall k :: 0 <= k < 5 ==> hex[k] == s[k + 2];
    var dir := match s[7]
      case '0' => R
      case '1' => D
      case '2' => L
      case _ => U;
    Move(dir, HexValue(hex))
  }

  predicate AllWellFormed(ls: seq<string>, part2: bool) {
    forall k :: 0 <= k < |ls| ==> if part2 then WellFormed2(ls[k]) else WellFormed1(ls[k])
  }

  function Moves(ls: seq<string>, part2: bool): (ms: seq<Move>)
    requires AllWellFormed(ls, part2)
    ensures |ms| == |ls|
  {
    seq(|ls|, k requires 0 <= k < |ls| => if part2 then Move2(ls[k]) else Move1(ls[k]))
  }

  /** One more move appends its end point to the trace. */
  lemma TraceSnoc(moves: seq<Move>, k: nat)
    requires k < |moves|
    ensures Trace(moves[..k + 1]) == Trace(moves[..k]) + [Step(Current(Trace(moves[..k])), moves[k])]
  {
    assert moves[..k + 1][..k] == moves[..k];
  }

  /** `get_vertices_1` (part2 false) and `get_vertices_2` (part2 true). */
  method GetVertices(ls: seq<string>, part2: bool) returns (vertices: seq<Coord>)
    requires AllWellFormed(ls, part2)
    ensures vertices == Trace(Moves(ls, part2))
  {
    var moves := Moves(ls, part2);
    vertices := [];
    var currentCoord := Coord(0, 0);
    for k := 0 to |ls|
      invariant vertices == Trace(moves[..k]) && currentCoord == Current(vertices)
    {
      var m := if part2 then Move2(ls[k]) else Move1(ls[k]);
      assert m == moves[k];
      TraceSnoc(moves, k);
      currentCoord := Step(currentCoord, m);
      vertices := vertices + [currentCoord];
    }
    assert moves[..|ls|] == moves;
  }

  // ---------------------------------------------------------------------
  // The polygon
  // ---------------------------------------------------------------------

  /** The segments between consecutive vertices, then the one from the first vertex to the last. */
  function Perimeter(vs: seq<Coord>): (segs: seq<Seg>)
    requires |vs| >= 1
    ensures |segs| == |vs| && segs[|vs| - 1] == FromCoords(vs[0], vs[|vs| - 1])
    ensures forall k :: 0 <= k < |vs| - 1 ==> segs[k] == FromCoords(vs[k], vs[k + 1])
  {
    Links(vs, |vs| - 1) + [FromCoords(vs[0], vs[|vs| - 1])]
  }

  /** The segments joining the first n + 1 vertices in order. */
  function Links(vs: seq<Coord>, n: nat): (segs: seq<Seg>)
    requires n < |vs|
    ensures |segs| == n && forall k :: 0 <= k < n ==> segs[k] == FromCoords(vs[k], vs[k + 1])
  {
    if n == 0 then [] else Links(vs, n - 1) + [FromCoords(vs[n - 1], vs[n])]
  }

  /** Every vertex is an end of the segment before it and of the segment after it, the closing one included. */
  lemma PerimeterJoins(vs: seq<Coord>)
    requires |vs| >= 1
    ensures forall i :: 0 <= i < |vs| - 1 ==> OnSeg(vs[i], Perimeter(vs)[i]) && OnSeg(vs[i + 1], Perimeter(vs)[i])
    ensures OnSeg(vs[0], Perimeter(vs)[|vs| - 1]) && OnSeg(vs[|vs| - 1], Perimeter(vs)[|vs| - 1])
  {
    forall i | 0 <= i < |vs| - 1 ensures OnSeg(vs[i], Perimeter(vs)[i]) && OnSeg(vs[i + 1], Perimeter(vs)[i]) {
      FromCoordsSymmetric(vs[i], vs[i + 1]);
    }
    FromCoordsSymmetric(vs[0], vs[|vs| - 1]);
  }

  /** `iter().map(|c| c.0).min().unwrap()` and the like. */
  function MinX(vs: seq<Coord>): (m: int)
    requires |vs| >= 1
    ensures (forall i :: 0 <= i < |vs| ==> m <= vs[i].x) && exists i :: 0 <= i < |vs| && vs[i].x == m
  {
    if |vs| == 1 then vs[0].x else Min(MinX(vs[..|vs| - 1]), vs[|vs| - 1].x)
  }

  function MaxX(vs: seq<Coord>): (m: int)
    requires |vs| >= 1
    ensures (forall i :: 0 <= i < |vs| ==> vs[i].x <= m) && exists i :: 0 <= i < |vs| && vs[i].x == m
  {
    if |vs| == 1 then vs[0].x else Max(MaxX(vs[..|vs| - 1]), vs[|vs| - 1].x)
  }

  function MinY(vs: seq<Coord>): (m: int)
    requires |vs| >= 1
    ensures (forall i :: 0 <= i < |vs| ==> m <= vs[i].y) && exists i :: 0 <= i < |vs| && vs[i].y == m
  {
    if |vs| == 1 then vs[0].y else Min(MinY(vs[..|vs| - 1]), vs[|vs| - 1].y)
  }

  function MaxY(vs: seq<Coord>): (m: int)
    requires |vs| >= 1
    ensures (forall i :: 0 <= i < |vs| ==> vs[i].y <= m) && exists i :: 0 <= i < |vs| && vs[i].y == m
  {
    if |vs| == 1 then vs[0].y else Max(MaxY(vs[..|vs| - 1]), vs[|vs| - 1].y)
  }

  /** `from_vertices`: one segment per vertex and the vertices' bounding box. */
  method FromVertices(vertices: seq<Coord>) returns (grid: Grid)
    requires |vertices| >= 1
    ensures grid.perimSegs == Perimeter(vertices) && grid.vertices == vertices
    ensures grid.bounds == Bounds(vertices)
  {
    var n := |vertices|;
    var perimSegs: seq<Seg> := [];
    for i := 0 to n - 1
      invariant perimSegs == Links(vertices, i)
    {
      perimSegs := perimSegs + [FromCoords(vertices[i], vertices[i + 1])];
    }
    perimSegs := perimSegs + [FromCoords(vertices[0], vertices[n - 1])];
    grid := Grid(Rect(MinX(vertices), MaxX(vertices), MinY(vertices), MaxY(vertices)), perimSegs, vertices);
  }

  /** The bounding box of two vertices holds the segment between them. */
  lemma SegInBounds(vs: seq<Coord>, k: nat, l: nat)
    requires k < |vs| && l < |vs|
    ensures var s := FromCoords(vs[k], vs[l]);
      MinX(vs) <= s.x0 && s.x1 <= MaxX(vs) && MinY(vs) <= s.y0 && s.y1 <= MaxY(vs)
  {
  }

  /** The vertices' bounding box, as `from_vertices` stores it. */
  function Bounds(vs: seq<Coord>): Rect
    requires |vs| >= 1
  {
    Rect(MinX(vs), MaxX(vs), MinY(vs), MaxY(vs))
  }

  /** The segment is in order and inside the box. */
  predicate InBox(s: Seg, b: Rect) {
    Normal(s) && b.x0 <= s.x0 && s.x1 <= b.x1 && b.y0 <= s.y0 && s.y1 <= b.y1
  }

  /** Every perimeter segment lies in the bounding box. */
  lemma PerimeterInBounds(vs: seq<Coord>)
    requires |vs| >= 1
    ensures forall k :: 0 <= k < |vs| ==> InBox(Perimeter(vs)[k], Bounds(vs))
  {
    var segs := Perimeter(vs);
    forall k | 0 <= k < |vs| ensures InBox(segs[k], Bounds(vs)) {
      if k < |vs| - 1 {
        SegInBounds(vs, k, k + 1);
      } else {
        SegInBounds(vs, 0, k);
      }
    }
  }

  // ---------------------------------------------------------------------
  // Inside the polygon
  // ---------------------------------------------------------------------

  /** The two tests of `is_edge` for one segment. */
  predicate EdgeMatch(p: Seg, c: Coord) {
    var horizontal := (p.y0 == p.y1 && p.y0 == c.y) && (c.x >= p.x0 && c.x <= p.x1);
    var vertical := (p.x0 == p.x1 && p.x0 == c.x) && c.y >= p.y0 && c.y <= p.y1;
    vertical || horizontal
  }

  /** On an axis-aligned segment the edge test is exactly "the point lies on the segment". */
  lemma EdgeMatchMeaning(p: Seg, c: Coord)
    requires AxisAligned(p)
    ensures EdgeMatch(p, c) <==> OnSeg(c, p)
  {
  }

  /** The filter of `intersects`: the segment lies wholly left of the point and spans its row, bottom inclusive. */
  predicate Crosses(s: Seg, c: Coord) {
    s.x1 < c.x && s.y0 <= c.y && s.y1 > c.y
  }

  /** Only a segment with a vertical extent can be crossed, so a horizontal one never counts. */
  lemma CrossesVertical(s: Seg, c: Coord)
    requires AxisAligned(s)
    ensures Crosses(s, c) ==> s.y0 < s.y1 && s.x0 == s.x1
  {
  }

  function IsEdge(segs: seq<Seg>, c: Coord): bool {
    exists k :: 0 <= k < |segs| && EdgeMatch(segs[k], c)
  }

  /** The number of segments crossed by the ray to the left of c. */
  function Crossings(segs: seq<Seg>, c: Coord): (n: nat)
    ensures n <= |segs|
  {
    if segs == [] then 0
    else Crossings(segs[..|segs| - 1], c) + (if Crosses(segs[|segs| - 1], c) then 1 else 0)
  }

  /** `Coord::is_within`. */
  function IsWithin(c: Coord, grid: Grid): bool {
    var intersects := Crossings(grid.perimSegs, c);
    IsEdge(grid.perimSegs, c) || (intersects > 0 && intersects % 2 == 1)
  }

  /** No segment crossed: every segment lies right of the point or outside its row. */
  lemma {:induction false} NoCrossings(segs: seq<Seg>, c: Coord)
    requires forall k :: 0 <= k < |segs| ==> !Crosses(segs[k], c)
    ensures Crossings(segs, c) == 0
    decreases |segs|
  {
    if segs != [] {
      NoCrossings(segs[..|segs| - 1], c);
    }
  }

  /** A point inside a polygon whose segments all lie in a box is right of the box's left side and between its bottom and top. */
  lemma WithinBox(g: Grid, c: Coord)
    requires forall k :: 0 <= k < |g.perimSegs| ==> InBox(g.perimSegs[k], g.bounds)
    ensures IsWithin(c, g) ==> g.bounds.x0 <= c.x && g.bounds.y0 <= c.y <= g.bounds.y1
  {
    if c.x < g.bounds.x0 || c.y < g.bounds.y0 || g.bounds.y1 < c.y {
      forall k | 0 <= k < |g.perimSegs| ensures !Crosses(g.perimSegs[k], c) {
        assert InBox(g.perimSegs[k], g.bounds);
      }
      NoCrossings(g.perimSegs, c);
    }
  }

  /** So a point inside the polygon `from_vertices` builds lies right of its least x and between its least and greatest y. */
  lemma {:induction false} WithinBounds(vs: seq<Coord>, c: Coord)
    requires |vs| >= 1
    requires IsWithin(c, Grid(Bounds(vs), Perimeter(vs), vs))
    ensures MinX(vs) <= c.x && MinY(vs) <= c.y <= MaxY(vs)
  {
    PerimeterInBounds(vs);
    WithinBox(Grid(Bounds(vs), Perimeter(vs), vs), c);
  }

  /** Every segment of the perimeter is axis-aligned. */
  predicate AllAxisAligned(segs: seq<Seg>) {
    forall k :: 0 <= k < |segs| ==> AxisAligned(segs[k])
  }

  /** A dig plan that ends back at the origin gives an axis-aligned perimeter, the closing segment included. */
  lemma {:induction false} ClosedPlanAxisAligned(moves: seq<Move>)
    requires |moves| >= 1 && Trace(moves)[|moves| - 1] == Coord(0, 0)
    ensures AllAxisAligned(Perimeter(Trace(moves)))
  {
    var vs := Trace(moves);
    var segs := Perimeter(vs);
    TraceSegments(moves);
    forall k | 0 <= k < |segs| ensures AxisAligned(segs[k]) {
      if k < |vs| - 1 {
        assert Before(vs, k + 1) == vs[k];
      } else {
        FromCoordsSymmetric(vs[0], vs[k]);
        assert Before(vs, 0) == vs[k];
      }
    }
  }

  /** On an axis-aligned perimeter, `is_within` means: on some segment, or an odd number of crossings to the left. */
  lemma WithinMeaning(g: Grid, c: Coord)
    requires AllAxisAligned(g.perimSegs)
    ensures IsWithin(c, g) <==>
      (exists k :: 0 <= k < |g.perimSegs| && OnSeg(c, g.perimSegs[k])) || Crossings(g.perimSegs, c) % 2 == 1
  {
    forall k | 0 <= k < |g.perimSegs| ensures EdgeMatch(g.perimSegs[k], c) <==> OnSeg(c, g.perimSegs[k]) {
      EdgeMatchMeaning(g.perimSegs[k], c);
    }
  }

  /** The vertical segments with some height, in order. */
  function Verticals(segs: seq<Seg>): (vs: seq<Seg>)
    ensures |vs| <= |segs| && forall k :: 0 <= k < |vs| ==> vs[k].x0 == vs[k].x1 && vs[k].y0 < vs[k].y1
  {
    if segs == [] then []
    else
      var last := segs[|segs| - 1];
      Verticals(segs[..|segs| - 1]) + if last.x0 == last.x1 && last.y0 < last.y1 then [last] else []
  }

  /** Filtering the perimeter down to its vertical segments changes no crossing count. */
  lemma CrossingsSnoc(segs: seq<Seg>, s: Seg, c: Coord)
    ensures Crossings(segs + [s], c) == Crossings(segs, c) + if Crosses(s, c) then 1 else 0
  {
    assert (segs + [s])[..|segs|] == segs;
  }

  lemma {:induction false} CrossingsVerticalOnly(segs: seq<Seg>, c: Coord)
    requires AllAxisAligned(segs)
    ensures Crossings(segs, c) == Crossings(Verticals(segs), c)
    decreases |segs|
  {
    if segs != [] {
      var pre := segs[..|segs| - 1];
      var last := segs[|segs| - 1];
      assert AllAxisAligned(pre) by {
        forall k | 0 <= k < |pre| ensures AxisAligned(pre[k]) {
          assert pre[k] == segs[k];
        }
      }
      CrossingsVerticalOnly(pre, c);
      assert AxisAligned(last);
      CrossesVertical(last, c);
      var vpre := Verticals(pre);
      if last.x0 == last.x1 && last.y0 < last.y1 {
        assert Verticals(segs) == vpre + [last];
        CrossingsSnoc(vpre, last, c);
      } else {
        assert Verticals(segs) == vpre;
        assert !Crosses(last, c);
      }
    }
  }

  /** The square with corners (0, 0) and (2, 2), walked R 2, U 2, L 2, D 2. */
  function Square(): seq<Coord> {
    [Coord(2, 0), Coord(2, 2), Coord(0, 2), Coord(0, 0)]
  }

  lemma SquareTrace()
    ensures Trace([Move(R, 2), Move(U, 2), Move(L, 2), Move(D, 2)]) == Square()
  {
    var m1 := [Move(R, 2)];
    var m2 := m1 + [Move(U, 2)];
    var m3 := m2 + [Move(L, 2)];
    var m4 := m3 + [Move(D, 2)];
    assert m2[..1] == m1 && m3[..2] == m2 && m4[..3] == m3;
    assert Trace(m1) == [Coord(2, 0)];
    assert Trace(m2) == [Coord(2, 0), Coord(2, 2)];
    assert Trace(m3) == [Coord(2, 0), Coord(2, 2), Coord(0, 2)];
    assert m4 == [Move(R, 2), Move(U, 2), Move(L, 2), Move(D, 2)];
  }

  /** The centre of the square is inside, (3, 1) is outside, and the corner (0, 0) is on the edge. */
  lemma SquareInside()
    ensures var g := Grid(Rect(0, 2, 0, 2), Perimeter(Square()), Square());
      IsWithin(Coord(1, 1), g) && !IsWithin(Coord(3, 1), g) && IsWithin(Coord(0, 0), g)
  {
    var s4 := SquareSides();
    SquarePerimeter();
    SquareCrossings();
    assert EdgeMatch(s4[2], Coord(0, 0));
    assert !IsEdge(s4, Coord(1, 1)) && !IsEdge(s4, Coord(3, 1));
  }

  /** The four sides of the 2-by-2 square, in the order the digging instructions lay them. */
  function SquareSides(): seq<Seg> {
    [Seg(2, 2, 0, 2), Seg(0, 2, 2, 2), Seg(0, 0, 0, 2), Seg(0, 2, 0, 0)]
  }

  lemma SquarePerimeter()
    ensures Perimeter(Square()) == SquareSides()
  {
    var s1 := [Seg(2, 2, 0, 2)];
    var s2 := s1 + [Seg(0, 2, 2, 2)];
    var s3 := s2 + [Seg(0, 0, 0, 2)];
    var s4 := s3 + [Seg(0, 2, 0, 0)];
    assert s2[..1] == s1 && s3[..2] == s2 && s4[..3] == s3;
    assert Perimeter(Square()) == s4;
  }

  /** The ray from the centre crosses one side; the ray from (3, 1) crosses two. */
  lemma SquareCrossings()
    ensures Crossings(SquareSides(), Coord(1, 1)) == 1 && Crossings(SquareSides(), Coord(3, 1)) == 2
  {
    var s4 := SquareSides();
    var s2 := [Seg(2, 2, 0, 2), Seg(0, 2, 2, 2)];
    var s3 := s2 + [Seg(0, 0, 0, 2)];
    assert s4[..3] == s3 && s3[..2] == s2 && s2[..1] == [Seg(2, 2, 0, 2)];
    assert Crossings(s2, Coord(1, 1)) == 0;
    assert Crossings(s2, Coord(3, 1)) == 1;
  }

  // ---------------------------------------------------------------------
  // Breakpoints and cells
  // ---------------------------------------------------------------------

  predicate Increasing(r: seq<int>) {
    forall i, j :: 0 <= i < j < |r| ==> r[i] < r[j]
  }

  /** Inserting v into a strictly increasing sequence, skipping it when present. */
  function Insert(r: seq<int>, v: int): (t: seq<int>)
    requires Increasing(r)
    ensures Increasing(t) && forall u :: u in t <==> u in r || u == v
  {
    if r == [] then [v]
    else if v < r[0] then [v] + r
    else if v == r[0] then r
    else
      var rest := Insert(r[1..], v);
      assert forall u :: u in r[1..] ==> r[0] < u;
      assert forall k :: 0 <= k < |rest| ==> r[0] < rest[k] by {
        forall k | 0 <= k < |rest| ensures r[0] < rest[k] {
          assert rest[k] in rest;
        }
      }
      [r[0]] + rest
  }

  /** `sort` then `dedup`: the distinct values in increasing order. */
  function SortedDistinct(vals: seq<int>): (r: seq<int>)
    ensures Increasing(r) && forall u :: u in r <==> u in vals
  {
    if vals == [] then [] else Insert(SortedDistinct(vals[..|vals| - 1]), vals[|vals| - 1])
  }

  /** Two strictly increasing sequences with the same elements are equal, so `sort` + `dedup` has one result. */
  lemma {:induction false} IncreasingUnique(a: seq<int>, b: seq<int>)
    requires Increasing(a) && Increasing(b) && forall u :: u in a <==> u in b
    ensures a == b
    decreases |a|
  {
    if a != [] {
      assert a[0] in a;
      assert b != [];
    }
    if b != [] {
      assert b[0] in b;
      assert a != [];
    }
    if a != [] {
      assert a[0] in b && b[0] in a;
      assert b[0] <= a[0] && a[0] <= b[0];
      forall u ensures u in a[1..] <==> u in b[1..] {
        if u in a[1..] {
          assert u in b && u != b[0];
        }
        if u in b[1..] {
          assert u in a && u != a[0];
        }
      }
      IncreasingUnique(a[1..], b[1..]);
      assert a == [a[0]] + a[1..] && b == [b[0]] + b[1..];
    }
  }

  function Xs(vs: seq<Coord>): (xs: seq<int>)
    ensures |xs| == |vs| && forall i :: 0 <= i < |vs| ==> xs[i] == vs[i].x
  {
    seq(|vs|, i requires 0 <= i < |vs| => vs[i].x)
  }

  function Ys(vs: seq<Coord>): (ys: seq<int>)
    ensures |ys| == |vs| && forall i :: 0 <= i < |vs| ==> ys[i] == vs[i].y
  {
    seq(|vs|, i requires 0 <= i < |vs| => vs[i].y)
  }

  /** The cells of one window of xs: one per window of ys. */
  function CellRow(x0: int, x1: int, ys: seq<int>): (row: seq<Rect>)
    ensures |row| == if |ys| < 2 then 0 else |ys| - 1
    ensures forall j :: 0 <= j < |row| ==> row[j] == Rect(x0, x1, ys[j], ys[j + 1])
  {
    if |ys| < 2 then []
    else
      var pre := ys[..|ys| - 1];
      assert forall j :: 0 <= j < |pre| ==> pre[j] == ys[j];
      CellRow(x0, x1, pre) + [Rect(x0, x1, ys[|ys| - 2], ys[|ys| - 1])]
  }

  /** `rects` before `retain`: the cells between consecutive breakpoints, x window by x window. */
  function Cells(xs: seq<int>, ys: seq<int>): seq<Rect>
    decreases |xs|
  {
    if |xs| < 2 then [] else Cells(xs[..|xs| - 1], ys) + CellRow(xs[|xs| - 2], xs[|xs| - 1], ys)
  }

  /** There are (|xs| - 1)(|ys| - 1) cells. */
  lemma {:induction false} CellsLength(xs: seq<int>, ys: seq<int>)
    requires |xs| >= 1 && |ys| >= 1
    ensures |Cells(xs, ys)| == Row(|ys| - 1, |xs| - 1)
    decreases |xs|
  {
    if |xs| >= 2 {
      CellsLength(xs[..|xs| - 1], ys);
    }
  }

  /** Cell (i, j) sits at index i (|ys| - 1) + j and spans the i-th x window and the j-th y window. */
  lemma {:induction false} CellAt(xs: seq<int>, ys: seq<int>, i: nat, j: nat)
    requires i < |xs| - 1 && j < |ys| - 1
    ensures Row(|ys| - 1, i) + j < |Cells(xs, ys)|
    ensures Cells(xs, ys)[Row(|ys| - 1, i) + j] == Rect(xs[i], xs[i + 1], ys[j], ys[j + 1])
    decreases |xs|
  {
    var pre := xs[..|xs| - 1];
    var row := CellRow(xs[|xs| - 2], xs[|xs| - 1], ys);
    assert Cells(xs, ys) == Cells(pre, ys) + row;
    CellsLength(pre, ys);
    if i < |xs| - 2 {
      CellAt(pre, ys, i, j);
      assert pre[i] == xs[i] && pre[i + 1] == xs[i + 1];
    } else {
      assert row[j] == Rect(xs[i], xs[i + 1], ys[j], ys[j + 1]);
    }
  }

  /** Cells between strictly increasing breakpoints have positive width and height and no breakpoint inside. */
  lemma CellsBetween(xs: seq<int>, ys: seq<int>, i: nat, j: nat)
    requires Increasing(xs) && Increasing(ys)
    requires i < |xs| - 1 && j < |ys| - 1
    ensures var r := Rect(xs[i], xs[i + 1], ys[j], ys[j + 1]);
      r.x0 < r.x1 && r.y0 < r.y1 &&
      (forall k :: 0 <= k < |xs| ==> !(r.x0 < xs[k] < r.x1)) &&
      (forall k :: 0 <= k < |ys| ==> !(r.y0 < ys[k] < r.y1))
  {
    forall k | 0 <= k < |xs| ensures !(xs[i] < xs[k] < xs[i + 1]) {
      if k <= i {
        assert k == i || xs[k] < xs[i];
      } else {
        assert k == i + 1 || xs[i + 1] < xs[k];
      }
    }
    forall k | 0 <= k < |ys| ensures !(ys[j] < ys[k] < ys[j + 1]) {
      if k <= j {
        assert k == j || ys[k] < ys[j];
      } else {
        assert k == j + 1 || ys[j + 1] < ys[k];
      }
    }
  }

  /** The breakpoints and the nested `windows(2)` loops of `solution` that build `rects`. */
  method Breakpoints(grid: Grid) returns (xs: seq<int>, ys: seq<int>, rects: seq<Rect>)
    requires |grid.vertices| >= 1
    ensures xs == SortedDistinct(Xs(grid.vertices)) && ys == SortedDistinct(Ys(grid.vertices))
    ensures rects == Cells(xs, ys)
  {
    xs := SortedDistinct(Xs(grid.vertices));
    ys := SortedDistinct(Ys(grid.vertices));
    assert Xs(grid.vertices)[0] in xs;
    rects := [];
    for i := 0 to |xs| - 1
      invariant rects == Cells(xs[..i + 1], ys)
    {
      rects := AddCellRow(rects, xs[i], xs[i + 1], ys);
      assert xs[..i + 2][..i + 1] == xs[..i + 1];
    }
    assert xs[..|xs|] == xs;
  }

  /** The inner loop: one cell per window of ys. */
  method AddCellRow(rects0: seq<Rect>, x0: int, x1: int, ys: seq<int>) returns (rects: seq<Rect>)
    ensures rects == rects0 + CellRow(x0, x1, ys)
  {
    rects := rects0;
    if |ys| > 0 {
      for j := 0 to |ys| - 1
        invariant rects == rects0 + CellRow(x0, x1, ys[..j + 1])
      {
        rects := rects + [Rect(x0, x1, ys[j], ys[j + 1])];
        assert ys[..j + 2][..j + 1] == ys[..j + 1];
      }
      assert ys[..|ys|] == ys;
    }
  }

  /** `get_vertices_*` followed by `from_vertices`. */
  method BuildGrid(ls: seq<string>, part2: bool) returns (grid: Grid)
    requires AllWellFormed(ls, part2) && |ls| >= 1
    ensures grid.vertices == Trace(Moves(ls, part2)) && grid.perimSegs == Perimeter(grid.vertices)
  {
    var vertices := GetVertices(ls, part2);
    grid := FromVertices(vertices);
  }
}
