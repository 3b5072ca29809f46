/**
 * The pipe maze (src/bin/d10.rs): distances along connected pipes from the
 * start tile, and the count of tiles enclosed by the loop, found by a
 * parity scan of each row.
 */
module D10 {
  import opened Text

  datatype Tile = Vertical | Horizontal | NorthEast | NorthWest | SouthEast | SouthWest | Empty | Start

  /** The source's `Coord` without its distance cell, which lives in `Grid.dist`. */
  datatype Cell = Cell(x: nat, y: nat, tile: Tile)

  predicate IsPipeChar(c: char) {
    c == '.' || c == '|' || c == '-' || c == 'F' || c == 'L' || c == 'J' || c == '7' || c == 'S'
  }

  predicate AllPipeChars(s: string) {
    forall i :: 0 <= i < |s| ==> IsPipeChar(s[i])
  }

  /** The character match of `Grid::from`; any other character is unreachable. */
  function TileOf(c: char): Tile
    requires IsPipeChar(c)
  {
    match c
    case '.' => Empty
    case '|' => Vertical
    case '-' => Horizontal
    case 'F' => SouthEast
    case 'L' => NorthEast
    case 'J' => NorthWest
    case '7' => SouthWest
    case _ => Start
  }

  datatype Side = North | South | East | West

  function Flip(d: Side): Side {
    match d
    case North => South
    case South => North
    case East => West
    case West => East
  }

  /** The two sides each pipe opens to; the ground and the start open to none. */
  predicate Opens(t: Tile, d: Side) {
    match t
    case Vertical => d == North || d == South
    case Horizontal => d == East || d == West
    case NorthEast => d == North || d == East
    case NorthWest => d == North || d == West
    case SouthEast => d == South || d == East
    case SouthWest => d == South || d == West
    case _ => false
  }

  /** The position one step from a cell toward side d (y grows southward). */
  function Toward(c: Cell, d: Side): (int, int) {
    match d
    case North => (c.x, c.y - 1)
    case South => (c.x, c.y + 1)
    case East => (c.x + 1, c.y)
    case West => (c.x - 1, c.y)
  }

  /** v lies on side d of u, u opens toward it (the start counts as open on every side) and v opens back. */
  ghost predicate JoinsOn(coords: seq<Cell>, u: nat, v: nat, d: Side)
    requires u < |coords| && v < |coords|
  {
    Toward(coords[u], d) == (coords[v].x, coords[v].y)
    && (coords[u].tile == Start || Opens(coords[u].tile, d)) && Opens(coords[v].tile, Flip(d))
  }

  /** The reference connection between two cells. */
  ghost predicate Joins(coords: seq<Cell>, u: nat, v: nat) {
    u < |coords| && v < |coords| && exists d: Side :: JoinsOn(coords, u, v, d)
  }

  /** `y * width + x`. */
  function Index(w: nat, x: nat, y: nat): nat {
    Row(w, y) + x
  }

  /** Cells stored row-major, each knowing its own position. */
  ghost predicate Laid(coords: seq<Cell>, w: nat) {
    w >= 1 && |coords| == Row(w, |coords| / w) &&
    forall i :: 0 <= i < |coords| ==> coords[i].x < w && Index(w, coords[i].x, coords[i].y) == i
  }

  /** The cell stored for a position inside the grid is the cell at that position. */
  lemma LaidAt(coords: seq<Cell>, w: nat, x: nat, y: nat)
    requires Laid(coords, w) && x < w && y < |coords| / w
    ensures Index(w, x, y) < |coords| && coords[Index(w, x, y)].x == x && coords[Index(w, x, y)].y == y
  {
    IndexBound(x, y, w, |coords| / w);
    var c := coords[Index(w, x, y)];
    RowUnique(w, c.x, c.y, x, y);
  }

  /** Every stored cell lies inside the grid. */
  lemma LaidInside(coords: seq<Cell>, w: nat, i: nat)
    requires Laid(coords, w) && i < |coords|
    ensures coords[i].y < |coords| / w
  {
    if coords[i].y >= |coords| / w {
      if coords[i].y > |coords| / w {
        RowLess(w, |coords| / w, coords[i].y);
      }
    }
  }

  /** A stored cell at (x, y) has index `Index(w, x, y)`. */
  lemma LaidIndex(coords: seq<Cell>, w: nat, v: nat)
    requires Laid(coords, w) && v < |coords|
    ensures v == Index(w, coords[v].x, coords[v].y) && coords[v].x < w && coords[v].y < |coords| / w
  {
    LaidInside(coords, w, v);
  }

  /** The left arm of `neighbours`. */
  function LookWest(coords: seq<Cell>, w: nat, u: nat): (r: seq<nat>)
    requires Laid(coords, w) && u < |coords|
    ensures |r| <= 1
    ensures forall v: nat :: v in r <==> v < |coords| && JoinsOn(coords, u, v, West)
  {
    var c := coords[u];
    LaidIndex(coords, w, u);
    if c.x > 0 then
      LaidAt(coords, w, c.x - 1, c.y);
      var i := Index(w, c.x - 1, c.y);
      assert forall v: nat :: v < |coords| && JoinsOn(coords, u, v, West) ==> v == i by {
        forall v: nat | v < |coords| && JoinsOn(coords, u, v, West) ensures v == i { LaidIndex(coords, w, v); }
      }
      if (c.tile == Start || c.tile == Horizontal || c.tile == NorthWest || c.tile == SouthWest)
        && (coords[i].tile == Horizontal || coords[i].tile == NorthEast || coords[i].tile == SouthEast)
      then [i] else []
    else
      assert forall v: nat :: v < |coords| ==> !JoinsOn(coords, u, v, West);
      []
  }

  /** The right arm of `neighbours`. */
  function LookEast(coords: seq<Cell>, w: nat, u: nat): (r: seq<nat>)
    requires Laid(coords, w) && u < |coords|
    ensures |r| <= 1
    ensures forall v: nat :: v in r <==> v < |coords| && JoinsOn(coords, u, v, East)
  {
    var c := coords[u];
    LaidIndex(coords, w, u);
    if c.x < w - 1 then
      LaidAt(coords, w, c.x + 1, c.y);
      var i := Index(w, c.x + 1, c.y);
      assert forall v: nat :: v < |coords| && JoinsOn(coords, u, v, East) ==> v == i by {
        forall v: nat | v < |coords| && JoinsOn(coords, u, v, East) ensures v == i { LaidIndex(coords, w, v); }
      }
      if (c.tile == Start || c.tile == Horizontal || c.tile == NorthEast || c.tile == SouthEast)
        && (coords[i].tile == Horizontal || coords[i].tile == NorthWest || coords[i].tile == SouthWest)
      then [i] else []
    else
      assert forall v: nat :: v < |coords| ==> !JoinsOn(coords, u, v, East) by {
        forall v: nat | v < |coords| ensures !JoinsOn(coords, u, v, East) { LaidIndex(coords, w, v); }
      }
      []
  }

  /** The top arm of `neighbours`. */
  function LookNorth(coords: seq<Cell>, w: nat, u: nat): (r: seq<nat>)
    requires Laid(coords, w) && u < |coords|
    ensures |r| <= 1
    ensures forall v: nat :: v in r <==> v < |coords| && JoinsOn(coords, u, v, North)
  {
    var c := coords[u];
    LaidIndex(coords, w, u);
    if c.y > 0 then
      LaidAt(coords, w, c.x, c.y - 1);
      var i := Index(w, c.x, c.y - 1);
      assert forall v: nat :: v < |coords| && JoinsOn(coords, u, v, North) ==> v == i by {
        forall v: nat | v < |coords| && JoinsOn(coords, u, v, North) ensures v == i { LaidIndex(coords, w, v); }
      }
      if (c.tile == Start || c.tile == Vertical || c.tile == NorthEast || c.tile == NorthWest)
        && (coords[i].tile == Vertical || coords[i].tile == SouthEast || coords[i].tile == SouthWest)
      then [i] else []
    else
      assert forall v: nat :: v < |coords| ==> !JoinsOn(coords, u, v, North);
      []
  }

  /** The bottom arm of `neighbours`, bounded by `height() - 1`. */
  function LookSouth(coords: seq<Cell>, w: nat, u: nat): (r: seq<nat>)
    requires Laid(coords, w) && u < |coords|
    ensures |r| <= 1
    ensures forall v: nat :: v in r <==> v < |coords| && JoinsOn(coords, u, v, South)
  {
    var c := coords[u];
    LaidIndex(coords, w, u);
    if c.y < |coords| / w - 1 then
      LaidAt(coords, w, c.x, c.y + 1);
      var i := Index(w, c.x, c.y + 1);
      assert forall v: nat :: v < |coords| && JoinsOn(coords, u, v, South) ==> v == i by {
        forall v: nat | v < |coords| && JoinsOn(coords, u, v, South) ensures v == i { LaidIndex(coords, w, v); }
      }
      if (c.tile == Start || c.tile == Vertical || c.tile == SouthEast || c.tile == SouthWest)
        && (coords[i].tile == Vertical || coords[i].tile == NorthEast || coords[i].tile == NorthWest)
      then [i] else []
    else
      assert forall v: nat :: v < |coords| ==> !JoinsOn(coords, u, v, South) by {
        forall v: nat | v < |coords| ensures !JoinsOn(coords, u, v, South) { LaidIndex(coords, w, v); }
      }
      []
  }

  /**
   * `Grid::neighbours` of the cell with index u, as indices in the order
   * left, right, top, bottom: exactly the cells u joins, none of them the
   * start.
   */
  function Adjacent(coords: seq<Cell>, w: nat, u: nat): (r: seq<nat>)
    requires Laid(coords, w) && u < |coords|
    ensures |r| <= 4
    ensures forall v :: v in r ==> v < |coords| && coords[v].tile != Start
    ensures forall v: nat :: v in r <==> Joins(coords, u, v)
  {
    var r := LookWest(coords, w, u) + LookEast(coords, w, u) + LookNorth(coords, w, u) + LookSouth(coords, w, u);
    ArmsJoin(coords, w, u);
    r
  }

  /** The four arms together list exactly the cells u joins; none is the start. */
  lemma ArmsJoin(coords: seq<Cell>, w: nat, u: nat)
    requires Laid(coords, w) && u < |coords|
    ensures var r := LookWest(coords, w, u) + LookEast(coords, w, u) + LookNorth(coords, w, u) + LookSouth(coords, w, u);
      |r| <= 4 && (forall v :: v in r ==> v < |coords| && coords[v].tile != Start) &&
      forall v: nat :: v in r <==> Joins(coords, u, v)
  {
    var a, b, c, d := LookWest(coords, w, u), LookEast(coords, w, u), LookNorth(coords, w, u), LookSouth(coords, w, u);
    var r := a + b + c + d;
    assert forall v :: v in r <==> v in a || v in b || v in c || v in d;
    forall v: nat | Joins(coords, u, v) ensures v in r {
      JoinsSide(coords, u, v);
    }
    forall v | v in r ensures v < |coords| && coords[v].tile != Start {
      JoinsNotStart(coords, u, v);
    }
  }

  /** The start opens to no side, so no cell joins it. */
  lemma JoinsNotStart(coords: seq<Cell>, u: nat, v: nat)
    requires Joins(coords, u, v)
    ensures coords[v].tile != Start
  {
    var d: Side :| JoinsOn(coords, u, v, d);
  }

  /** A connection is made on one of the four sides. */
  lemma JoinsSide(coords: seq<Cell>, u: nat, v: nat)
    requires Joins(coords, u, v)
    ensures JoinsOn(coords, u, v, West) || JoinsOn(coords, u, v, East)
      || JoinsOn(coords, u, v, North) || JoinsOn(coords, u, v, South)
  {
    var d: Side :| JoinsOn(coords, u, v, d);
  }

  /** Step i of p moves from a cell to one of its neighbours. */
  ghost predicate Hop(coords: seq<Cell>, w: nat, p: seq<nat>, i: nat)
    requires i + 1 < |p|
  {
    Joins(coords, p[i], p[i + 1])
  }

  /** p is a walk from s to v along connected pipes. */
  ghost predicate Walk(coords: seq<Cell>, w: nat, s: nat, v: nat, p: seq<nat>) {
    |p| > 0 && p[0] == s && p[|p| - 1] == v && forall i: nat :: i + 1 < |p| ==> Hop(coords, w, p, i)
  }

  ghost predicate Reaches(coords: seq<Cell>, w: nat, s: nat, v: nat) {
    exists p :: Walk(coords, w, s, v, p)
  }

  /** The reference distance: the fewest steps of any walk from s to v is d. */
  ghost predicate Shortest(coords: seq<Cell>, w: nat, s: nat, v: nat, d: nat) {
    (exists p :: Walk(coords, w, s, v, p) && |p| == d + 1)
    && forall p :: Walk(coords, w, s, v, p) ==> |p| >= d + 1
  }

  predicate Distinct(p: seq<nat>) {
    forall i, j :: 0 <= i < j < |p| ==> p[i] != p[j]
  }

  /** Pigeonhole: distinct values below n number at most n. */
  lemma {:induction false} DistinctBound(p: seq<nat>, n: nat)
    requires Distinct(p) && forall i :: 0 <= i < |p| ==> p[i] < n
    ensures |p| <= n
  {
    if |p| == 0 {
    } else if k :| 0 <= k < |p| && p[k] == n - 1 {
      var q := p[..k] + p[k + 1..];
      assert forall i :: 0 <= i < |q| ==> q[i] == (if i < k then p[i] else p[i + 1]);
      DistinctBound(q, n - 1);
    } else {
      assert p[0] < n;
      DistinctBound(p, n - 1);
    }
  }

  /**
   * The ghost record kept for every cell with a distance: a walk from s of
   * that length through distinct cells, each of which now has a distance no
   * larger than its position on the walk.
   */
  ghost predicate Witness(coords: seq<Cell>, w: nat, s: nat, dist: seq<Option<nat>>, p: seq<nat>, v: nat)
    requires |dist| == |coords| && v < |coords|
  {
    Walk(coords, w, s, v, p) && Distinct(p) && dist[v].Some? && |p| == dist[v].value + 1
    && forall i :: 0 <= i < |p| ==> p[i] < |coords| && dist[p[i]].Some? && dist[p[i]].value <= i
  }

  /** Every neighbour of u has a distance at most one more than u's. */
  ghost predicate Settled(coords: seq<Cell>, w: nat, dist: seq<Option<nat>>, u: nat)
    requires Laid(coords, w) && |dist| == |coords| && u < |coords| && dist[u].Some?
  {
    forall v: nat :: Joins(coords, u, v) ==> dist[v].Some? && dist[v].value <= dist[u].value + 1
  }

  /** The invariant of `populate_distances`, with pending the cells still to expand. */
  ghost predicate Inv(coords: seq<Cell>, w: nat, s: nat, dist: seq<Option<nat>>, pending: seq<nat>, paths: seq<seq<nat>>) {
    && Laid(coords, w) && |dist| == |coords| && |paths| == |coords| && s < |coords| && dist[s] == Some(0)
    && (forall k :: 0 <= k < |pending| ==> pending[k] < |coords| && dist[pending[k]].Some?)
    && (forall v {:trigger paths[v]} :: 0 <= v < |coords| && dist[v].Some? ==> Witness(coords, w, s, dist, paths[v], v))
    && (forall u :: 0 <= u < |coords| && dist[u].Some? && u !in pending ==> Settled(coords, w, dist, u))
  }

  lemma InitInv(coords: seq<Cell>, w: nat, s: nat, dist: seq<Option<nat>>, paths: seq<seq<nat>>)
    requires Laid(coords, w) && s < |coords| && |dist| == |coords| && |paths| == |coords|
    requires dist[s] == Some(0) && paths[s] == [s]
    requires forall v :: 0 <= v < |dist| && v != s ==> dist[v].None?
    ensures Inv(coords, w, s, dist, [s], paths)
  {
    assert Walk(coords, w, s, s, [s]);
  }

  /** Only membership in the pending list matters. */
  lemma InvPending(coords: seq<Cell>, w: nat, s: nat, dist: seq<Option<nat>>, p1: seq<nat>, p2: seq<nat>, paths: seq<seq<nat>>)
    requires Inv(coords, w, s, dist, p1, paths)
    requires forall x :: x in p1 <==> x in p2
    ensures Inv(coords, w, s, dist, p2, paths)
  {
    forall k | 0 <= k < |p2| ensures p2[k] < |coords| && dist[p2[k]].Some? {
      assert p2[k] in p1;
    }
  }

  /** Taking entry k out of the pending list and putting it last keeps the invariant; the queue loses its weight. */
  lemma PopInv(coords: seq<Cell>, w: nat, s: nat, dist: seq<Option<nat>>, queue: seq<nat>, k: nat, paths: seq<seq<nat>>)
    requires Inv(coords, w, s, dist, queue, paths) && k < |queue|
    ensures var rest := queue[..k] + queue[k + 1..];
      && Inv(coords, w, s, dist, rest + [queue[k]], paths)
      && QW(queue, dist, |dist|) == QW(rest, dist, |dist|) + Weight(dist[queue[k]], |dist|)
  {
    var rest := queue[..k] + queue[k + 1..];
    QWPop(queue, k, dist, |dist|);
    PopMembers(queue, k);
    InvPending(coords, w, s, dist, queue, rest + [queue[k]], paths);
  }

  lemma PopMembers(queue: seq<nat>, k: nat)
    requires k < |queue|
    ensures forall x :: x in queue <==> x in queue[..k] + queue[k + 1..] + [queue[k]]
  {
    assert queue == queue[..k] + [queue[k]] + queue[k + 1..];
  }

  /** A cell with a distance is at most |coords| - 1 steps from s. */
  lemma WitnessBound(coords: seq<Cell>, w: nat, s: nat, dist: seq<Option<nat>>, paths: seq<seq<nat>>, v: nat)
    requires Inv(coords, w, s, dist, [], paths) || exists q :: Inv(coords, w, s, dist, q, paths)
    requires v < |coords| && dist[v].Some?
    ensures dist[v].value < |coords|
  {
    var q :| Inv(coords, w, s, dist, q, paths);
    DistinctBound(paths[v], |coords|);
  }

  /** The walk to u extended by its neighbour v is a witness for v's new distance. */
  lemma ExtendWitness(coords: seq<Cell>, w: nat, s: nat, dist: seq<Option<nat>>, pu: seq<nat>, u: nat, v: nat)
    requires Laid(coords, w) && |dist| == |coords| && u < |coords| && Witness(coords, w, s, dist, pu, u)
    requires Joins(coords, u, v)
    requires dist[v].None? || dist[v].value > dist[u].value
    ensures dist[u].value + 1 < |coords|
    ensures Witness(coords, w, s, dist[v := Some(dist[u].value + 1)], pu + [v], v)
  {
    var du := dist[u].value;
    var dist' := dist[v := Some(du + 1)];
    var pv := pu + [v];
    forall i | 0 <= i < |pu| ensures pu[i] != v {
      assert dist[pu[i]].Some? && dist[pu[i]].value <= i <= du;
    }
    assert Walk(coords, w, s, v, pv) by {
      forall i: nat | i + 1 < |pv| ensures Hop(coords, w, pv, i) {
        if i + 1 < |pu| {
          assert Hop(coords, w, pu, i);
        }
      }
    }
    forall i | 0 <= i < |pv| ensures pv[i] < |coords| && dist'[pv[i]].Some? && dist'[pv[i]].value <= i {
      if i < |pu| {
        assert pv[i] == pu[i] != v;
      }
    }
    DistinctBound(pv, |coords|);
  }

  /** Lowering one distance keeps every other cell's witness. */
  lemma KeepWitness(coords: seq<Cell>, w: nat, s: nat, dist: seq<Option<nat>>, pt: seq<nat>, t: nat, v: nat, d: nat)
    requires |dist| == |coords| && t < |coords| && v < |coords| && t != v
    requires Witness(coords, w, s, dist, pt, t)
    requires dist[v].None? || dist[v].value >= d
    ensures Witness(coords, w, s, dist[v := Some(d)], pt, t)
  {
    var dist' := dist[v := Some(d)];
    assert forall i :: 0 <= i < |pt| ==> dist'[pt[i]].Some? && dist'[pt[i]].value <= dist[pt[i]].value;
  }

  /**
   * Relaxing neighbour v of u: when v has no distance or a larger one than
   * u's, it gets u's plus one and is pushed. The invariant is kept, and the
   * new distance is below the cell count.
   */
  /** After the relaxation every cell with a distance still has a witness walk. */
  lemma RelaxWitnesses(coords: seq<Cell>, w: nat, s: nat, dist: seq<Option<nat>>, pending: seq<nat>, paths: seq<seq<nat>>, u: nat, v: nat)
    requires Inv(coords, w, s, dist, pending, paths)
    requires u < |coords| && dist[u].Some? && Joins(coords, u, v)
    requires dist[v].None? || dist[v].value > dist[u].value
    ensures var dist', paths' := dist[v := Some(dist[u].value + 1)], paths[v := paths[u] + [v]];
      forall t {:trigger paths'[t]} :: 0 <= t < |coords| && dist'[t].Some? ==> Witness(coords, w, s, dist', paths'[t], t)
  {
    var du := dist[u].value;
    var dist' := dist[v := Some(du + 1)];
    var paths' := paths[v := paths[u] + [v]];
    ExtendWitness(coords, w, s, dist, paths[u], u, v);
    forall t | 0 <= t < |coords| && dist'[t].Some?
      ensures Witness(coords, w, s, dist', paths'[t], t)
    {
      if t != v {
        KeepWitness(coords, w, s, dist, paths[t], t, v, du + 1);
      }
    }
  }

  /** Lowering v's distance and queueing v keeps every unqueued cell settled. */
  lemma RelaxSettled(coords: seq<Cell>, w: nat, s: nat, dist: seq<Option<nat>>, pending: seq<nat>, paths: seq<seq<nat>>, u: nat, v: nat)
    requires Inv(coords, w, s, dist, pending, paths)
    requires u < |coords| && dist[u].Some? && Joins(coords, u, v)
    requires dist[v].None? || dist[v].value > dist[u].value
    ensures var dist' := dist[v := Some(dist[u].value + 1)];
      forall t :: 0 <= t < |coords| && dist'[t].Some? && t !in pending + [v] ==> Settled(coords, w, dist', t)
  {
    var dist' := dist[v := Some(dist[u].value + 1)];
    forall t | 0 <= t < |coords| && dist'[t].Some? && t !in pending + [v]
      ensures Settled(coords, w, dist', t)
    {
      assert Settled(coords, w, dist, t);
    }
  }

  lemma RelaxStep(coords: seq<Cell>, w: nat, s: nat, dist: seq<Option<nat>>, pending: seq<nat>, paths: seq<seq<nat>>, u: nat, du: nat, v: nat)
    requires Inv(coords, w, s, dist, pending, paths)
    requires u < |coords| && dist[u] == Some(du) && Joins(coords, u, v)
    requires dist[v].None? || dist[v].value > du
    ensures du + 1 < |coords|
    ensures Inv(coords, w, s, dist[v := Some(du + 1)], pending + [v], paths[v := paths[u] + [v]])
  {
    var dist' := dist[v := Some(du + 1)];
    var paths' := paths[v := paths[u] + [v]];
    ExtendWitness(coords, w, s, dist, paths[u], u, v);
    RelaxWitnesses(coords, w, s, dist, pending, paths, u, v);
    RelaxSettled(coords, w, s, dist, pending, paths, u, v);
    var pending' := pending + [v];
    forall k | 0 <= k < |pending'| ensures pending'[k] < |coords| && dist'[pending'[k]].Some? {
      if k < |pending| {
        assert pending'[k] == pending[k];
      }
    }
  }

  /** No cell loses its distance and none gets a larger one. */
  ghost predicate NoneGrew(d0: seq<Option<nat>>, d1: seq<Option<nat>>) {
    |d0| == |d1| && forall t :: 0 <= t < |d0| && d0[t].Some? ==> d1[t].Some? && d1[t].value <= d0[t].value
  }

  /**
   * Everything one relaxation of v from u (at distance du) establishes: the
   * invariant with v pushed, no distance grown, and progress: the labelling
   * is unchanged and the queue one step-weight heavier (same), or the
   * potential drops.
   */
  lemma RelaxFacts(coords: seq<Cell>, w: nat, s: nat, dist: seq<Option<nat>>, queue: seq<nat>, paths: seq<seq<nat>>, u: nat, du: nat, v: nat)
    returns (same: bool)
    requires Inv(coords, w, s, dist, queue + [u], paths)
    requires u < |coords| && dist[u] == Some(du) && du < |dist| && Joins(coords, u, v)
    requires dist[v].None? || dist[v].value > du
    ensures var dist' := dist[v := Some(du + 1)];
      && Inv(coords, w, s, dist', queue + [v] + [u], paths[v := paths[u] + [v]])
      && dist'[u] == Some(du) && NoneGrew(dist, dist')
      && (same ==> dist' == dist && QW(queue + [v], dist', |dist|) <= QW(queue, dist, |dist|) + Pow5(|dist| - du - 1))
      && (!same ==> Pot(dist', |dist|) < Pot(dist, |dist|))
  {
    same := dist[v] == Some(du + 1);
    RelaxRequeue(coords, w, s, dist, queue, paths, u, du, v);
    NoneGrewRelax(dist, v, du + 1);
    if same {
      RelaxUnchanged(queue, v, dist, du);
    } else {
      PotRelax(dist, v, du + 1);
    }
  }

  /** Setting v to a distance no larger than its old one grows no distance. */
  lemma NoneGrewRelax(dist: seq<Option<nat>>, v: nat, d: nat)
    requires v < |dist| && (dist[v].None? || dist[v].value >= d)
    ensures NoneGrew(dist, dist[v := Some(d)])
  {
  }

  /** After relaxing v, v joins the pending cells ahead of u. */
  lemma RelaxRequeue(coords: seq<Cell>, w: nat, s: nat, dist: seq<Option<nat>>, queue: seq<nat>, paths: seq<seq<nat>>, u: nat, du: nat, v: nat)
    requires Inv(coords, w, s, dist, queue + [u], paths)
    requires u < |coords| && dist[u] == Some(du) && Joins(coords, u, v)
    requires dist[v].None? || dist[v].value > du
    ensures du + 1 < |dist|
    ensures Inv(coords, w, s, dist[v := Some(du + 1)], queue + [v] + [u], paths[v := paths[u] + [v]])
  {
    RelaxStep(coords, w, s, dist, queue + [u], paths, u, du, v);
    InvPending(coords, w, s, dist[v := Some(du + 1)], queue + [u] + [v], queue + [v] + [u], paths[v := paths[u] + [v]]);
  }


  /** Relaxing to the distance already stored changes nothing and adds v's weight to the queue. */
  lemma RelaxUnchanged(queue: seq<nat>, v: nat, dist: seq<Option<nat>>, du: nat)
    requires v < |dist| && du < |dist|
    ensures dist[v] == Some(du + 1) ==>
      (dist[v := Some(du + 1)] == dist && QW(queue + [v], dist, |dist|) <= QW(queue, dist, |dist|) + Pow5(|dist| - du - 1))
  {
    if dist[v] == Some(du + 1) {
      QWPush(queue, v, dist, |dist|);
    }
  }

  /** nbrs lists exactly the cells joined to u, all inside the grid. */
  ghost predicate Lists(coords: seq<Cell>, u: nat, nbrs: seq<nat>) {
    && (forall v: nat :: v in nbrs <==> Joins(coords, u, v))
    && (forall i :: 0 <= i < |nbrs| ==> nbrs[i] < |coords|)
  }

  /**
   * The inner-loop invariant after j neighbours of u: the invariant with u
   * pending, the first j neighbours close enough, and progress measured
   * against the labelling d0 before the loop.
   */
  ghost predicate Progress(coords: seq<Cell>, w: nat, s: nat, d0: seq<Option<nat>>, d: seq<Option<nat>>,
    queue0: seq<nat>, queue: seq<nat>, paths: seq<seq<nat>>, u: nat, du: nat, nbrs: seq<nat>, j: nat, same: bool)
  {
    && Inv(coords, w, s, d, queue + [u], paths) && u < |coords| && d[u] == Some(du) && du < |d|
    && |d0| == |d| && j <= |nbrs| <= 4 && Lists(coords, u, nbrs)
    && (forall i :: 0 <= i < j ==> d[nbrs[i]].Some? && d[nbrs[i]].value <= du + 1)
    && (same ==> d == d0 && QW(queue, d, |d|) <= QW(queue0, d0, |d|) + Row(Pow5(|d| - du - 1), j))
    && (!same ==> Pot(d, |d|) < Pot(d0, |d|))
  }

  lemma ExpandStart(coords: seq<Cell>, w: nat, s: nat, d: seq<Option<nat>>, queue: seq<nat>, paths: seq<seq<nat>>, u: nat, du: nat, nbrs: seq<nat>)
    requires Inv(coords, w, s, d, queue + [u], paths) && u < |coords| && d[u] == Some(du) && du < |d|
    requires Lists(coords, u, nbrs) && |nbrs| <= 4
    ensures Progress(coords, w, s, d, d, queue, queue, paths, u, du, nbrs, 0, true)
  {
  }

  /** Relaxing neighbour j keeps the inner-loop invariant. */
  lemma RelaxProgress(coords: seq<Cell>, w: nat, s: nat, d0: seq<Option<nat>>, d: seq<Option<nat>>,
    queue0: seq<nat>, queue: seq<nat>, paths: seq<seq<nat>>, u: nat, du: nat, nbrs: seq<nat>, j: nat, same: bool)
    returns (kept: bool)
    requires Progress(coords, w, s, d0, d, queue0, queue, paths, u, du, nbrs, j, same) && j < |nbrs|
    requires d[nbrs[j]].None? || d[nbrs[j]].value > du
    ensures var v := nbrs[j];
      Progress(coords, w, s, d0, d[v := Some(du + 1)], queue0, queue + [v], paths[v := paths[u] + [v]], u, du, nbrs, j + 1, same && kept)
  {
    var v := nbrs[j];
    assert v in nbrs;
    kept := RelaxFacts(coords, w, s, d, queue, paths, u, du, v);
    var d' := d[v := Some(du + 1)];
    ProcessedStep(d, d', nbrs, j, du);
    MeasureStep(d0, d, d', queue0, queue, queue + [v], du, j, same, kept);
    ProgressIntro(coords, w, s, d0, d', queue0, queue + [v], paths[v := paths[u] + [v]], u, du, nbrs, j + 1, same && kept);
  }

  /** The inner-loop invariant, from its parts. */
  lemma ProgressIntro(coords: seq<Cell>, w: nat, s: nat, d0: seq<Option<nat>>, d: seq<Option<nat>>,
    queue0: seq<nat>, queue: seq<nat>, paths: seq<seq<nat>>, u: nat, du: nat, nbrs: seq<nat>, j: nat, same: bool)
    requires Inv(coords, w, s, d, queue + [u], paths) && u < |coords| && d[u] == Some(du) && du < |d|
    requires |d0| == |d| && j <= |nbrs| <= 4 && Lists(coords, u, nbrs)
    requires forall i :: 0 <= i < j ==> d[nbrs[i]].Some? && d[nbrs[i]].value <= du + 1
    requires same ==> d == d0 && QW(queue, d, |d|) <= QW(queue0, d0, |d|) + Row(Pow5(|d| - du - 1), j)
    requires !same ==> Pot(d, |d|) < Pot(d0, |d|)
    ensures Progress(coords, w, s, d0, d, queue0, queue, paths, u, du, nbrs, j, same)
  {
  }

  /** The neighbours handled so far stay close enough when no distance grows. */
  lemma ProcessedStep(d: seq<Option<nat>>, d': seq<Option<nat>>, nbrs: seq<nat>, j: nat, du: nat)
    requires j < |nbrs| && NoneGrew(d, d') && nbrs[j] < |d'| && d'[nbrs[j]] == Some(du + 1)
    requires forall i :: 0 <= i < j ==> nbrs[i] < |d| && d[nbrs[i]].Some? && d[nbrs[i]].value <= du + 1
    ensures forall i :: 0 <= i < j + 1 ==> d'[nbrs[i]].Some? && d'[nbrs[i]].value <= du + 1
  {
  }

  /** The measure part of the inner-loop invariant after one relaxation. */
  lemma MeasureStep(d0: seq<Option<nat>>, d: seq<Option<nat>>, d': seq<Option<nat>>,
    queue0: seq<nat>, queue: seq<nat>, queue': seq<nat>, du: nat, j: nat, same: bool, kept: bool)
    requires |d0| == |d| == |d'| && du < |d|
    requires same ==> d == d0 && QW(queue, d, |d|) <= QW(queue0, d0, |d|) + Row(Pow5(|d| - du - 1), j)
    requires !same ==> Pot(d, |d|) < Pot(d0, |d|)
    requires kept ==> d' == d && QW(queue', d', |d|) <= QW(queue, d, |d|) + Pow5(|d| - du - 1)
    requires !kept ==> Pot(d', |d|) < Pot(d, |d|)
    ensures same && kept ==> d' == d0 && QW(queue', d', |d'|) <= QW(queue0, d0, |d'|) + Row(Pow5(|d'| - du - 1), j + 1)
    ensures !(same && kept) ==> Pot(d', |d'|) < Pot(d0, |d'|)
  {
  }

  /** Skipping a neighbour already close enough keeps the inner-loop invariant. */
  lemma SkipProgress(coords: seq<Cell>, w: nat, s: nat, d0: seq<Option<nat>>, d: seq<Option<nat>>,
    queue0: seq<nat>, queue: seq<nat>, paths: seq<seq<nat>>, u: nat, du: nat, nbrs: seq<nat>, j: nat, same: bool)
    requires Progress(coords, w, s, d0, d, queue0, queue, paths, u, du, nbrs, j, same) && j < |nbrs|
    requires nbrs[j] < |d| && d[nbrs[j]].Some? && d[nbrs[j]].value <= du
    ensures Progress(coords, w, s, d0, d, queue0, queue, paths, u, du, nbrs, j + 1, same)
  {
  }

  /** After all neighbours, u is settled and leaves the pending list; the measure has dropped. */
  lemma ExpandDone(coords: seq<Cell>, w: nat, s: nat, d0: seq<Option<nat>>, d: seq<Option<nat>>,
    queue0: seq<nat>, queue: seq<nat>, paths: seq<seq<nat>>, u: nat, du: nat, nbrs: seq<nat>, same: bool)
    requires Progress(coords, w, s, d0, d, queue0, queue, paths, u, du, nbrs, |nbrs|, same)
    ensures Inv(coords, w, s, d, queue, paths)
    ensures same ==> d == d0 && QW(queue, d, |d|) < QW(queue0, d0, |d|) + Weight(d0[u], |d|)
    ensures !same ==> Pot(d, |d|) < Pot(d0, |d|)
  {
    ListedSettled(coords, w, d, u, du, nbrs);
    DropSettled(coords, w, s, d, queue, paths, u);
    if same {
      ExpandWeight(QW(queue, d, |d|), QW(queue0, d0, |d|), |nbrs|, du, |d|);
    }
  }

  /** Once every listed neighbour of u is within one step, u is settled. */
  lemma ListedSettled(coords: seq<Cell>, w: nat, d: seq<Option<nat>>, u: nat, du: nat, nbrs: seq<nat>)
    requires Laid(coords, w) && |d| == |coords| && u < |coords| && d[u] == Some(du) && Lists(coords, u, nbrs)
    requires forall i :: 0 <= i < |nbrs| ==> d[nbrs[i]].Some? && d[nbrs[i]].value <= du + 1
    ensures Settled(coords, w, d, u)
  {
    forall v: nat | Joins(coords, u, v) ensures d[v].Some? && d[v].value <= du + 1 {
      assert v in nbrs;
    }
  }

  /** At most four pushes one step further away weigh less than u itself. */
  lemma ExpandWeight(q: nat, q0: nat, m: nat, du: nat, n: nat)
    requires m <= 4 && du < n && q <= q0 + Row(Pow5(n - du - 1), m)
    ensures q < q0 + Weight(Some(du), n)
  {
    var step := Pow5(n - du - 1);
    RowLess(step, m, 5);
    RowProduct(step, 5);
    WeightStep(du, n);
  }

  /** Once every neighbour of u is close enough, u no longer needs to be pending. */
  lemma DropSettled(coords: seq<Cell>, w: nat, s: nat, dist: seq<Option<nat>>, queue: seq<nat>, paths: seq<seq<nat>>, u: nat)
    requires Inv(coords, w, s, dist, queue + [u], paths) && u < |coords| && dist[u].Some?
    requires Settled(coords, w, dist, u)
    ensures Inv(coords, w, s, dist, queue, paths)
  {
    forall k | 0 <= k < |queue| ensures queue[k] < |coords| && dist[queue[k]].Some? {
      assert queue[k] == (queue + [u])[k];
    }
  }

  /** Nothing pending: the start has distance 0 and every cell with a distance is settled. */
  ghost predicate Closed(coords: seq<Cell>, w: nat, s: nat, dist: seq<Option<nat>>) {
    && Laid(coords, w) && |dist| == |coords| && s < |coords| && dist[s] == Some(0)
    && forall u :: 0 <= u < |coords| && dist[u].Some? ==> Settled(coords, w, dist, u)
  }

  /** In a closed labelling, no walk from s is shorter than a cell's distance, and every cell on a walk has one. */
  lemma {:induction false} WalkBound(coords: seq<Cell>, w: nat, s: nat, dist: seq<Option<nat>>, v: nat, p: seq<nat>)
    requires Closed(coords, w, s, dist) && Walk(coords, w, s, v, p)
    ensures v < |coords| && dist[v].Some? && dist[v].value + 1 <= |p|
    decreases |p|
  {
    if |p| > 1 {
      var p' := p[..|p| - 1];
      var u := p[|p| - 2];
      assert Walk(coords, w, s, u, p') by {
        forall i: nat | i + 1 < |p'| ensures Hop(coords, w, p', i) {
          assert Hop(coords, w, p, i);
        }
      }
      WalkBound(coords, w, s, dist, u, p');
      assert Hop(coords, w, p, |p| - 2);
      assert Settled(coords, w, dist, u);
    }
  }

  /** When nothing is pending, every distance is the reference distance and exactly the reachable cells have one. */
  lemma Finished(coords: seq<Cell>, w: nat, s: nat, dist: seq<Option<nat>>, paths: seq<seq<nat>>)
    requires Inv(coords, w, s, dist, [], paths)
    ensures forall v :: 0 <= v < |coords| ==> (dist[v].Some? <==> Reaches(coords, w, s, v))
    ensures forall v :: 0 <= v < |coords| && dist[v].Some? ==> Shortest(coords, w, s, v, dist[v].value)
  {
    assert Closed(coords, w, s, dist);
    forall v | 0 <= v < |coords| && Reaches(coords, w, s, v)
      ensures dist[v].Some?
    {
      var p :| Walk(coords, w, s, v, p);
      WalkBound(coords, w, s, dist, v, p);
    }
    forall v | 0 <= v < |coords| && dist[v].Some?
      ensures Reaches(coords, w, s, v) && Shortest(coords, w, s, v, dist[v].value)
    {
      assert Witness(coords, w, s, dist, paths[v], v);
      forall p | Walk(coords, w, s, v, p) ensures |p| >= dist[v].value + 1 {
        WalkBound(coords, w, s, dist, v, p);
      }
    }
  }

  /** 5^n, the weight base of the termination measure. */
  function Pow5(n: nat): (r: nat)
    ensures r >= 1
  {
    if n == 0 then 1 else 5 * Pow5(n - 1)
  }

  /** An unset distance counts n, a set one its value: each relaxation that changes a distance lowers the sum. */
  function Potential(o: Option<nat>, n: nat): nat {
    if o.None? then n else o.value
  }

  function Pot(dist: seq<Option<nat>>, n: nat): nat {
    if dist == [] then 0 else Pot(dist[..|dist| - 1], n) + Potential(dist[|dist| - 1], n)
  }

  lemma {:induction false} PotUpdate(dist: seq<Option<nat>>, n: nat, v: nat, o: Option<nat>)
    requires v < |dist|
    ensures Pot(dist[v := o], n) + Potential(dist[v], n) == Pot(dist, n) + Potential(o, n)
  {
    var m := |dist| - 1;
    if v < m {
      assert dist[v := o][..m] == dist[..m][v := o];
      PotUpdate(dist[..m], n, v, o);
    } else {
      assert dist[v := o][..m] == dist[..m];
    }
  }

  /** A queue entry weighs 5^(n - its cell's distance): expanding it pushes at most four lighter entries. */
  function Weight(o: Option<nat>, n: nat): nat {
    if o.None? || o.value > n then 0 else Pow5(n - o.value)
  }

  function QW(queue: seq<nat>, dist: seq<Option<nat>>, n: nat): nat {
    if queue == [] then 0
    else
      var v := queue[|queue| - 1];
      QW(queue[..|queue| - 1], dist, n) + (if v < |dist| then Weight(dist[v], n) else 0)
  }

  lemma {:induction false} QWConcat(a: seq<nat>, b: seq<nat>, dist: seq<Option<nat>>, n: nat)
    ensures QW(a + b, dist, n) == QW(a, dist, n) + QW(b, dist, n)
  {
    if b != [] {
      var m := |b| - 1;
      assert (a + b)[..|a + b| - 1] == a + b[..m];
      QWConcat(a, b[..m], dist, n);
    } else {
      assert a + b == a;
    }
  }

  /** `Ord for Coord`: no distance sorts below any distance, distances by value. */
  function CompareDist(a: Option<nat>, b: Option<nat>): (r: Ordering)
    ensures r == Equal <==> a == b
    ensures r == Less <==> (a.None? && b.Some?) || (a.Some? && b.Some? && a.value < b.value)
    ensures r == Greater <==> (a.Some? && b.None?) || (a.Some? && b.Some? && a.value > b.value)
  {
    match (a, b)
    case (Some(d1), Some(d2)) => if d1 < d2 then Less else if d1 == d2 then Equal else Greater
    case (Some(_), None) => Greater
    case (None, Some(_)) => Less
    case (None, None) => Equal
  }

  /** The heap's pop: the index of an entry whose cell compares greatest. */
  function MaxEntry(queue: seq<nat>, dist: seq<Option<nat>>): (k: nat)
    requires |queue| > 0 && forall j :: 0 <= j < |queue| ==> queue[j] < |dist|
    ensures k < |queue|
    ensures forall j :: 0 <= j < |queue| ==> CompareDist(dist[queue[j]], dist[queue[k]]) != Greater
  {
    if |queue| == 1 then 0
    else
      var k := MaxEntry(queue[..|queue| - 1], dist);
      assert forall j :: 0 <= j < |queue| - 1 ==> queue[..|queue| - 1][j] == queue[j];
      if CompareDist(dist[queue[|queue| - 1]], dist[queue[k]]) == Greater then |queue| - 1 else k
  }

  /** The first index holding the start tile (`start_pos`). */
  function FirstStart(coords: seq<Cell>, from: nat): (i: Option<nat>)
    requires from <= |coords|
    ensures i.Some? ==> from <= i.value < |coords| && coords[i.value].tile == Start
    ensures i.Some? ==> forall j :: from <= j < i.value ==> coords[j].tile != Start
    ensures i.None? ==> forall j :: from <= j < |coords| ==> coords[j].tile != Start
    decreases |coords| - from
  {
    if from == |coords| then None
    else if coords[from].tile == Start then Some(from)
    else FirstStart(coords, from + 1)
  }

  predicate HasStart(coords: seq<Cell>) {
    exists i :: 0 <= i < |coords| && coords[i].tile == Start
  }

  /** The reference distance is unique. */
  lemma ShortestUnique(coords: seq<Cell>, w: nat, s: nat, v: nat, d1: nat, d2: nat)
    requires Shortest(coords, w, s, v, d1) && Shortest(coords, w, s, v, d2)
    ensures d1 == d2
  {
    var p1 :| Walk(coords, w, s, v, p1) && |p1| == d1 + 1;
    var p2 :| Walk(coords, w, s, v, p2) && |p2| == d2 + 1;
  }

  /** Weight of the pushed neighbour: a fifth of the expanded cell's. */
  lemma WeightStep(du: nat, n: nat)
    requires du < n
    ensures Weight(Some(du), n) == 5 * Weight(Some(du + 1), n)
  {
  }

  lemma QWPush(queue: seq<nat>, v: nat, dist: seq<Option<nat>>, n: nat)
    requires v < |dist|
    ensures QW(queue + [v], dist, n) == QW(queue, dist, n) + Weight(dist[v], n)
  {
    assert (queue + [v])[..|queue|] == queue;
  }

  lemma QWPop(queue: seq<nat>, k: nat, dist: seq<Option<nat>>, n: nat)
    requires k < |queue| && queue[k] < |dist|
    ensures QW(queue, dist, n) == QW(queue[..k] + queue[k + 1..], dist, n) + Weight(dist[queue[k]], n)
  {
    assert queue == queue[..k] + [queue[k]] + queue[k + 1..];
    QWConcat(queue[..k] + [queue[k]], queue[k + 1..], dist, n);
    QWConcat(queue[..k], queue[k + 1..], dist, n);
    QWPush(queue[..k], queue[k], dist, n);
  }

  /** Relaxing v either leaves the labelling unchanged or lowers the potential. */
  lemma PotRelax(dist: seq<Option<nat>>, v: nat, d: nat)
    requires v < |dist| && d < |dist|
    requires dist[v].None? || dist[v].value >= d
    ensures dist[v] == Some(d) || Pot(dist[v := Some(d)], |dist|) < Pot(dist, |dist|)
  {
    PotUpdate(dist, |dist|, v, Some(d));
  }

  // ---------------------------------------------------------------------
  // Parsing and the grid
  // ---------------------------------------------------------------------

  predicate PipeLines(ls: seq<string>) {
    forall k :: 0 <= k < |ls| ==> AllPipeChars(ls[k])
  }

  /** The cells `Grid::from` pushes for line y. */
  function RowCells(line: string, y: nat): (r: seq<Cell>)
    requires AllPipeChars(line)
    ensures |r| == |line| && forall x :: 0 <= x < |line| ==> r[x] == Cell(x, y, TileOf(line[x]))
  {
    seq(|line|, x requires 0 <= x < |line| => Cell(x, y, TileOf(line[x])))
  }

  /** All cells of the input, row after row. */
  function Cells(ls: seq<string>): seq<Cell>
    requires PipeLines(ls)
  {
    if ls == [] then [] else Cells(ls[..|ls| - 1]) + RowCells(ls[|ls| - 1], |ls| - 1)
  }

  /** Cell (x, y) of a rectangular input sits at `Index(w, x, y)` and carries line y's character x. */
  lemma {:induction false} CellsIndexed(ls: seq<string>, w: nat)
    requires PipeLines(ls) && Rectangular(ls, w)
    ensures |Cells(ls)| == Row(w, |ls|)
    ensures forall i :: 0 <= i < |Cells(ls)| ==>
      Cells(ls)[i].x < w && Cells(ls)[i].y < |ls| && Index(w, Cells(ls)[i].x, Cells(ls)[i].y) == i
    ensures forall i :: 0 <= i < |Cells(ls)| ==>
      Cells(ls)[i].tile == TileOf(ls[Cells(ls)[i].y][Cells(ls)[i].x])
  {
    if ls != [] {
      var n := |ls| - 1;
      var init := ls[..n];
      assert PipeLines(init) && Rectangular(init, w);
      CellsIndexed(init, w);
      var c := Cells(ls);
      assert forall i :: 0 <= i < |Cells(init)| ==> c[i] == Cells(init)[i] && init[c[i].y] == ls[c[i].y];
    }
  }

  lemma CellsLaid(ls: seq<string>, w: nat)
    requires PipeLines(ls) && Rectangular(ls, w) && w >= 1
    ensures Laid(Cells(ls), w) && |Cells(ls)| / w == |ls|
  {
    CellsIndexed(ls, w);
    RowProduct(w, |ls|);
    DivMod(0, |ls|, w);
  }

  /** The grid's input: at least one non-empty line, all of the same length, pipe characters only. */
  predicate WellFormed(ls: seq<string>) {
    ls != [] && |ls[0]| > 0 && Rectangular(ls, |ls[0]|) && PipeLines(ls)
  }

  /** The start cell (`start_pos`): the first with the start tile. */
  function StartOf(coords: seq<Cell>): (i: nat)
    requires HasStart(coords)
    ensures i < |coords| && coords[i].tile == Start
    ensures forall j :: 0 <= j < i ==> coords[j].tile != Start
  {
    FirstStart(coords, 0).value
  }

  /** The grid: cells in row-major order; each cell's distance cell is an entry of `dist`. */
  class Grid {
    const coords: seq<Cell>
    const width: nat
    var dist: seq<Option<nat>>

    ghost predicate Valid()
      reads this
    {
      Laid(coords, width) && |dist| == |coords|
    }

    /** `Grid::from`: every cell with its position and tile, no distances yet. */
    constructor (text: string)
      requires WellFormed(Lines(text))
      ensures width == |Lines(text)[0]| && coords == Cells(Lines(text))
      ensures Valid() && Height() == |Lines(text)|
      ensures forall v :: 0 <= v < |dist| ==> dist[v].None?
    {
      var ls := Lines(text);
      var cs: seq<Cell> := [];
      for y := 0 to |ls|
        invariant cs == Cells(ls[..y])
      {
        assert ls[..y + 1][..y] == ls[..y] && ls[..y + 1][y] == ls[y];
        ghost var before := cs;
        for x := 0 to |ls[y]|
          invariant cs == before + RowCells(ls[y][..x], y)
        {
          assert ls[y][..x + 1][..x] == ls[y][..x];
          cs := cs + [Cell(x, y, TileOf(ls[y][x]))];
        }
        assert ls[y][..|ls[y]|] == ls[y];
      }
      assert ls[..|ls|] == ls;
      coords := cs;
      width := |ls[0]|;
      dist := Repeat(None, |cs|);
      CellsLaid(ls, |ls[0]|);
    }

    /** `Grid::height`: the number of rows. */
    function Height(): (h: nat)
      requires width >= 1
      ensures Laid(coords, width) ==> Row(width, h) == |coords|
    {
      |coords| / width
    }

    /** `Grid::get`: the cell at column x of row y. */
    function Get(x: nat, y: nat): (c: Cell)
      requires Laid(coords, width) && x < width && y < Height()
      ensures c.x == x && c.y == y && c in coords
    {
      LaidAt(coords, width, x, y);
      coords[Index(width, x, y)]
    }

    /** `Grid::start_pos`. */
    function StartPos(): (i: nat)
      requires HasStart(coords)
      ensures i < |coords| && coords[i].tile == Start
      ensures forall j :: 0 <= j < i ==> coords[j].tile != Start
    {
      StartOf(coords)
    }

    /** `Grid::neighbours`: the cells whose pipes connect with u's. */
    method Neighbours(u: nat) returns (nbrs: seq<nat>)
      requires Laid(coords, width) && u < |coords|
      ensures Lists(coords, u, nbrs) && |nbrs| <= 4
    {
      nbrs := Adjacent(coords, width, u);
      assert forall i :: 0 <= i < |nbrs| ==> nbrs[i] in nbrs;
    }

    /**
     * The inner loop of `populate_distances`: relax every neighbour of the
     * popped cell u. A neighbour with no distance, or a larger one than u's,
     * gets u's distance plus one and is pushed. Afterwards u is settled;
     * the labelling is either the same, with the queue lighter than before
     * the pop, or has a lower potential.
     */
    method Expand(s: nat, u: nat, queue: seq<nat>, ghost paths: seq<seq<nat>>)
      returns (queue': seq<nat>, ghost paths': seq<seq<nat>>, ghost same: bool)
      requires Valid() && Inv(coords, width, s, dist, queue + [u], paths) && u < |coords| && dist[u].Some?
      modifies this
      ensures Valid() && Inv(coords, width, s, dist, queue', paths')
      ensures same ==> dist == old(dist) && QW(queue', dist, |dist|) < QW(queue, dist, |dist|) + Weight(dist[u], |dist|)
      ensures !same ==> Pot(dist, |dist|) < Pot(old(dist), |dist|)
    {
      var d := dist;
      ghost var d0 := dist;
      var du := d[u].value;
      WitnessBound(coords, width, s, d, paths, u);
      var nbrs := Neighbours(u);
      ExpandStart(coords, width, s, d, queue, paths, u, du, nbrs);
      queue', paths', same := queue, paths, true;
      for j := 0 to |nbrs|
        invariant Progress(coords, width, s, d0, d, queue, queue', paths', u, du, nbrs, j, same)
      {
        var v := nbrs[j];
        var relax := match d[v] case Some(val) => val > du case None => true;
        if relax {
          ghost var kept := RelaxProgress(coords, width, s, d0, d, queue, queue', paths', u, du, nbrs, j, same);
          d := d[v := Some(du + 1)];
          paths' := paths'[v := paths'[u] + [v]];
          queue' := queue' + [v];
          same := same && kept;
        } else {
          SkipProgress(coords, width, s, d0, d, queue, queue', paths', u, du, nbrs, j, same);
        }
      }
      ExpandDone(coords, width, s, d0, d, queue, queue', paths', u, du, nbrs, same);
      dist := d;
    }

    /**
     * `populate_distances`: from the start at distance 0, pop a cell of
     * greatest distance and relax its neighbours until the queue is empty.
     * Afterwards exactly the cells reachable from the start have a
     * distance, and it is their shortest walk length.
     */
    method PopulateDistances()
      requires Valid() && HasStart(coords)
      requires forall v :: 0 <= v < |dist| ==> dist[v].None?
      modifies this
      ensures Valid() && dist[StartPos()] == Some(0)
      ensures forall v :: 0 <= v < |coords| ==> (dist[v].Some? <==> Reaches(coords, width, StartPos(), v))
      ensures forall v :: 0 <= v < |coords| && dist[v].Some? ==> Shortest(coords, width, StartPos(), v, dist[v].value)
    {
      ghost var n := |coords|;
      var s := StartPos();
      dist := dist[s := Some(0)];
      ghost var paths: seq<seq<nat>> := Repeat([s], n);
      InitInv(coords, width, s, dist, paths);
      var queue := [s];
      while queue != []
        invariant Valid() && Inv(coords, width, s, dist, queue, paths)
        decreases Pot(dist, n), QW(queue, dist, n)
      {
        var k := MaxEntry(queue, dist);
        var u := queue[k];
        ghost var queue0 := queue;
        queue := queue[..k] + queue[k + 1..];
        PopInv(coords, width, s, dist, queue0, k, paths);
        ghost var same;
        queue, paths, same := Expand(s, u, queue, paths);
      }
      Finished(coords, width, s, dist, paths);
    }
  }

  /** `max_by_key` on the distances: an entry no other compares greater than. */
  method MaxDist(dist: seq<Option<nat>>) returns (m: Option<nat>)
    requires dist != []
    ensures m in dist
    ensures forall k :: 0 <= k < |dist| ==> CompareDist(dist[k], m) != Greater
  {
    m := dist[0];
    for k := 1 to |dist|
      invariant m in dist
      invariant forall i :: 0 <= i < k ==> CompareDist(dist[i], m) != Greater
    {
      if CompareDist(dist[k], m) != Less {
        m := dist[k];
      }
    }
  }

  /** The reference answer of part 1: the largest shortest distance of a cell reachable from the start. */
  ghost predicate Farthest(coords: seq<Cell>, w: nat, s: nat, far: nat) {
    (exists v :: 0 <= v < |coords| && Shortest(coords, w, s, v, far))
    && forall v, d: nat :: 0 <= v < |coords| && Shortest(coords, w, s, v, d) ==> d <= far
  }

  /** `solution_1`: the greatest distance after `populate_distances`. */
  method Solution1(text: string) returns (far: nat)
    requires WellFormed(Lines(text)) && HasStart(Cells(Lines(text)))
    ensures Farthest(Cells(Lines(text)), |Lines(text)[0]|, StartOf(Cells(Lines(text))), far)
  {
    var grid := new Grid(text);
    grid.PopulateDistances();
    var m := MaxDist(grid.dist);
    var s := grid.StartPos();
    assert CompareDist(grid.dist[s], m) != Greater;
    far := m.value;
    var coords, w := grid.coords, grid.width;
    var v :| 0 <= v < |grid.dist| && grid.dist[v] == m;
    forall t, d: nat | 0 <= t < |coords| && Shortest(coords, w, s, t, d) ensures d <= far {
      var p :| Walk(coords, w, s, t, p) && |p| == d + 1;
      assert Reaches(coords, w, s, t);
      assert CompareDist(grid.dist[t], m) != Greater;
      ShortestUnique(coords, w, s, t, d, grid.dist[t].value);
    }
  }

  // ---------------------------------------------------------------------
  // The enclosed-tile scan (`solution_2`)
  // ---------------------------------------------------------------------

  /** What the scan sees of a cell: its tile and whether it received a distance. */
  datatype Seen = Seen(tile: Tile, reached: bool)

  /**
   * The run after a corner: skip horizontal pipes and the start, then
   * consume one more cell; the crossing flips when that cell is the
   * closing corner. Returns the position after the run and the flip.
   */
  function RunEnd(row: seq<Seen>, j: nat, closer: Tile): (r: (nat, bool))
    requires j <= |row|
    ensures j <= r.0 <= |row|
    ensures r.1 ==> j < r.0 && row[r.0 - 1].tile == closer
    ensures forall k :: j <= k < r.0 - 1 ==> row[k].tile == Horizontal || row[k].tile == Start
    decreases |row| - j
  {
    if j == |row| then (j, false)
    else if row[j].tile == Horizontal || row[j].tile == Start then RunEnd(row, j + 1, closer)
    else (j + 1, row[j].tile == closer)
  }

  /** The number of cells without a distance in row[i..]. */
  function Unreached(row: seq<Seen>, i: nat): (n: nat)
    requires i <= |row|
    ensures n <= |row| - i
    decreases |row| - i
  {
    if i == |row| then 0 else (if row[i].reached then 0 else 1) + Unreached(row, i + 1)
  }

  /**
   * The scan of `solution_2` from position i with the given parity: a cell
   * without a distance counts when inside; a reached `|` flips the parity,
   * a reached `L` or `F` flips it when its run ends in `7` or `J`.
   */
  function Scan(row: seq<Seen>, i: nat, inLoop: bool): (n: nat)
    requires i <= |row|
    decreases |row| - i
  {
    if i == |row| then 0
    else
      var c := row[i];
      if !c.reached then (if inLoop then 1 else 0) + Scan(row, i + 1, inLoop)
      else
        match c.tile
        case Vertical => Scan(row, i + 1, !inLoop)
        case NorthEast => var r := RunEnd(row, i + 1, SouthWest); Scan(row, r.0, inLoop != r.1)
        case SouthEast => var r := RunEnd(row, i + 1, NorthWest); Scan(row, r.0, inLoop != r.1)
        case _ => Scan(row, i + 1, inLoop)
  }

  /** Counted under `L`/`F` runs, the cells of a run are never counted. */
  lemma {:induction false} RunSkipsUnreached(row: seq<Seen>, j: nat, closer: Tile)
    requires j <= |row|
    ensures Unreached(row, j) >= Unreached(row, RunEnd(row, j, closer).0)
    decreases |row| - j
  {
    if j < |row| && (row[j].tile == Horizontal || row[j].tile == Start) {
      RunSkipsUnreached(row, j + 1, closer);
    }
  }

  /**
   * Scanning from inside and from outside counts complementary cells: the
   * two scans visit the same positions with opposite parity, so between
   * them they count every unreached cell they visit exactly once, and
   * together never more than all unreached cells.
   */
  lemma {:induction false} ScanComplement(row: seq<Seen>, i: nat)
    requires i <= |row|
    ensures Scan(row, i, true) + Scan(row, i, false) <= Unreached(row, i)
    ensures (forall k :: i <= k < |row| ==> row[k].tile != NorthEast && row[k].tile != SouthEast)
      ==> Scan(row, i, true) + Scan(row, i, false) == Unreached(row, i)
    decreases |row| - i
  {
    if i < |row| {
      var c := row[i];
      if !c.reached {
        ScanComplement(row, i + 1);
      } else if c.tile == NorthEast || c.tile == SouthEast {
        var r := RunEnd(row, i + 1, if c.tile == NorthEast then SouthWest else NorthWest);
        ScanComplement(row, r.0);
        RunSkipsUnreached(row, i + 1, if c.tile == NorthEast then SouthWest else NorthWest);
      } else {
        ScanComplement(row, i + 1);
      }
    }
  }

  /** A row no pipe of the loop crosses encloses nothing when entered from outside. */
  lemma {:induction false} ScanOutside(row: seq<Seen>, i: nat)
    requires i <= |row|
    requires forall k :: i <= k < |row| ==> !row[k].reached
    ensures Scan(row, i, false) == 0 && Scan(row, i, true) == Unreached(row, i) == |row| - i
    decreases |row| - i
  {
    if i < |row| {
      ScanOutside(row, i + 1);
    }
  }

  /** The run-skipping inner loop of `solution_2` (after `L`, closer `7`; after `F`, closer `J`). */
  method SkipRun(row: seq<Seen>, i: nat, closer: Tile, inLoop: bool) returns (k: nat, inLoop': bool)
    requires i <= |row|
    ensures k == RunEnd(row, i, closer).0 && inLoop' == (inLoop != RunEnd(row, i, closer).1)
  {
    k, inLoop' := i, inLoop;
    while k < |row|
      invariant i <= k <= |row| && RunEnd(row, k, closer) == RunEnd(row, i, closer) && inLoop' == inLoop
      decreases |row| - k
    {
      var c := row[k];
      k := k + 1;
      if c.tile == Horizontal || c.tile == Start {
        continue;
      }
      if c.tile == closer {
        inLoop' := !inLoop';
      }
      break;
    }
  }

  /** One row of `solution_2`: the cells without a distance between crossings of the loop. */
  method CountRow(row: seq<Seen>) returns (n: nat)
    ensures n == Scan(row, 0, false)
  {
    n := 0;
    var inLoop := false;
    var i := 0;
    while i < |row|
      invariant i <= |row| && n + Scan(row, i, inLoop) == Scan(row, 0, false)
      decreases |row| - i
    {
      var c := row[i];
      i := i + 1;
      if !c.reached && inLoop {
        n := n + 1;
      }
      if !c.reached {
        continue;
      }
      match c.tile {
        case Vertical => inLoop := !inLoop;
        case NorthEast => i, inLoop := SkipRun(row, i, SouthWest, inLoop);
        case SouthEast => i, inLoop := SkipRun(row, i, NorthWest, inLoop);
        case _ =>
      }
    }
  }

  /** Row y as the scan sees it, given which cells have a distance. */
  function SeenRow(coords: seq<Cell>, w: nat, reached: seq<bool>, y: nat): (r: seq<Seen>)
    requires Laid(coords, w) && |reached| == |coords| && y < |coords| / w
    ensures |r| == w
    ensures forall x :: 0 <= x < w ==> Index(w, x, y) < |coords| && r[x] == Seen(coords[Index(w, x, y)].tile, reached[Index(w, x, y)])
  {
    assert forall x :: 0 <= x < w ==> Index(w, x, y) < |coords| by {
      forall x | 0 <= x < w ensures Index(w, x, y) < |coords| {
        IndexBound(x, y, w, |coords| / w);
      }
    }
    seq(w, x requires 0 <= x < w => Seen(coords[Index(w, x, y)].tile, reached[Index(w, x, y)]))
  }

  /** The enclosed count of rows y..h-1. */
  function EnclosedFrom(coords: seq<Cell>, w: nat, reached: seq<bool>, y: nat): nat
    requires Laid(coords, w) && |reached| == |coords| && y <= |coords| / w
    decreases |coords| / w - y
  {
    if y == |coords| / w then 0 else Scan(SeenRow(coords, w, reached, y), 0, false) + EnclosedFrom(coords, w, reached, y + 1)
  }

  /** The cells reachable from the start, by the reference connection. */
  ghost function ReachedSet(coords: seq<Cell>, w: nat, s: nat): (r: seq<bool>)
    ensures |r| == |coords| && forall v :: 0 <= v < |coords| ==> (r[v] <==> Reaches(coords, w, s, v))
  {
    seq(|coords|, v requires 0 <= v < |coords| => Reaches(coords, w, s, v))
  }

  /** The reference answer of part 2: the scan counts over all rows, with the reachable cells as the loop. */
  ghost function Enclosed(coords: seq<Cell>, w: nat, s: nat): (n: nat)
    requires Laid(coords, w)
    ensures n <= |coords|
  {
    EnclosedBound(coords, w, ReachedSet(coords, w, s), 0);
    EnclosedFrom(coords, w, ReachedSet(coords, w, s), 0)
  }

  /** The part-2 answer for a well-formed input with a start tile. */
  ghost function EnclosedIn(ls: seq<string>): (n: nat)
    requires WellFormed(ls) && HasStart(Cells(ls))
    ensures n <= |Cells(ls)|
  {
    CellsLaid(ls, |ls[0]|);
    Enclosed(Cells(ls), |ls[0]|, StartOf(Cells(ls)))
  }

  /** No row counts more than its own cells: the total is at most the cell count. */
  lemma {:induction false} EnclosedBound(coords: seq<Cell>, w: nat, reached: seq<bool>, y: nat)
    requires Laid(coords, w) && |reached| == |coords| && y <= |coords| / w
    ensures Row(w, y) + EnclosedFrom(coords, w, reached, y) <= |coords|
    decreases |coords| / w - y
  {
    if y < |coords| / w {
      var row := SeenRow(coords, w, reached, y);
      ScanComplement(row, 0);
      EnclosedBound(coords, w, reached, y + 1);
    } else {
      assert Row(w, |coords| / w) == |coords|;
    }
  }

  /** The row loop of `solution_2`: the scan counts of all rows, summed. */
  method ScanRows(coords: seq<Cell>, w: nat, reached: seq<bool>) returns (total: nat)
    requires Laid(coords, w) && |reached| == |coords|
    ensures total == EnclosedFrom(coords, w, reached, 0)
  {
    total := 0;
    var h := |coords| / w;
    for y := 0 to h
      invariant total + EnclosedFrom(coords, w, reached, y) == EnclosedFrom(coords, w, reached, 0)
    {
      var row := SeenRow(coords, w, reached, y);
      var n := CountRow(row);
      total := total + n;
    }
  }

  /** `solution_2`: the scan over every row after `populate_distances`. */
  method Solution2(text: string) returns (total: nat)
    requires WellFormed(Lines(text)) && HasStart(Cells(Lines(text)))
    ensures total == EnclosedIn(Lines(text))
  {
    var grid := new Grid(text);
    grid.PopulateDistances();
    var coords, w, dist := grid.coords, grid.width, grid.dist;
    var reached := seq(|dist|, k requires 0 <= k < |dist| => dist[k].Some?);
    ghost var s := StartOf(coords);
    forall k | 0 <= k < |coords| ensures reached[k] == ReachedSet(coords, w, s)[k] {
      assert reached[k] == dist[k].Some?;
    }
    assert reached == ReachedSet(coords, w, s);
    total := ScanRows(coords, w, reached);
  }
}
