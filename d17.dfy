/**
 * Minimum heat loss of a crucible that moves in straight runs whose length
 * lies in `first(rng)..=last(rng)` and turns 90 degrees after every run
 * (src/bin/d17.rs).
 *
 * A search node is a tile `(x, y, d)`: the crucible stands on cell (x, y)
 * and arrived by a run along axis `d`.  Each cell has a horizontal tile (in
 * `hTiles`) and a vertical tile (in `vTiles`), both indexed by
 * `Index(width, x, y)`.  An edge is one whole run along the other axis; its loss is
 * the sum of the cells entered, the source cell excluded.
 */
module D17 {
  import opened Text

  datatype Axis = Horizontal | Vertical

  datatype Coord = Coord(x: nat, y: nat, d: Axis)

  datatype Tile = Tile(coord: Coord, loss: nat, totalLoss: nat)

  /** A candidate run: the tile it ends on and the heat lost on the way. */
  datatype Step = Step(tile: Coord, loss: nat)

  /** A heap entry: a tile and its `total_loss` at the time it was pushed. */
  datatype Entry = Entry(snapshot: nat, node: Coord)

  /** `usize::MAX`, the "not reached yet" total loss. */
  const UsizeMax: nat := 0xFFFF_FFFF_FFFF_FFFF

  /** The run lengths `main` searches with: `1..=3` and `4..=10`. */
  const Part1Range: seq<int> := [1, 2, 3]
  const Part2Range: seq<int> := [4, 5, 6, 7, 8, 9, 10]

  /** `rng.first().unwrap()` and `rng.last().unwrap()`. */
  function First(rng: seq<int>): int
    requires |rng| > 0
  {
    rng[0]
  }

  function Last(rng: seq<int>): int
    requires |rng| > 0
  {
    rng[|rng| - 1]
  }

  function Flip(a: Axis): Axis {
    if a == Horizontal then Vertical else Horizontal
  }

  /** The heat-loss digits, row-major, with the grid's dimensions. */
  datatype Costs = Costs(cells: seq<nat>, width: nat, height: nat) {
    predicate Valid() {
      |cells| == Row(width, height)
    }

    predicate InGrid(c: Coord) {
      c.x < width && c.y < height
    }

    function At(x: nat, y: nat): nat
      requires Valid() && x < width && y < height
    {
      IndexBound(x, y, width, height);
      cells[Index(width, x, y)]
    }
  }

  /** The row-major index of cell (x, y) in a grid of width w. */
  function Index(w: nat, x: nat, y: nat): nat {
    Row(w, y) + x
  }

  /** Each tile of `ts` carries the coordinate of its row-major position, on axis d. */
  ghost predicate Laid(ts: seq<Tile>, w: nat, d: Axis) {
    forall x: nat, y: nat :: x < w && Index(w, x, y) < |ts| ==> ts[Index(w, x, y)].coord == Coord(x, y, d)
  }

  // ---------------------------------------------------------------------
  // The graph, defined independently of the search.
  // ---------------------------------------------------------------------

  function Shift(v: nat, sign: int, n: nat): int {
    if sign < 0 then v - n else v + n
  }

  /** The cell n cells from (x, y) along `move` in direction `sign` (possibly outside). */
  function Reach(x: nat, y: nat, move: Axis, sign: int, n: nat): (int, int) {
    if move == Horizontal then (Shift(x, sign, n), y as int) else (x as int, Shift(y, sign, n))
  }

  predicate Inside(g: Costs, p: (int, int)) {
    0 <= p.0 < g.width && 0 <= p.1 < g.height
  }

  /** A run that ends inside the grid stays inside it all the way. */
  lemma InsideShorter(g: Costs, x: nat, y: nat, move: Axis, sign: int, n: nat)
    requires x < g.width && y < g.height && n >= 1 && Inside(g, Reach(x, y, move, sign, n))
    ensures Inside(g, Reach(x, y, move, sign, n - 1))
  {
  }

  /** Heat lost entering cells 1..n of a run: source excluded, destination included. */
  function RunLoss(g: Costs, x: nat, y: nat, move: Axis, sign: int, n: nat): nat
    requires g.Valid() && x < g.width && y < g.height
    requires Inside(g, Reach(x, y, move, sign, n))
  {
    if n == 0 then 0
    else
      var p := Reach(x, y, move, sign, n);
      RunLoss(g, x, y, move, sign, n - 1) + g.At(p.0, p.1)
  }

  function Dist(u: nat, v: nat): nat {
    if u <= v then v - u else u - v
  }

  /** b lies on the same row (b is horizontal) or column (b is vertical) as a. */
  predicate Aligned(g: Costs, a: Coord, b: Coord) {
    g.InGrid(a) && g.InGrid(b) && (if b.d == Horizontal then b.y == a.y else b.x == a.x)
  }

  /**
   * An edge a -> b: a run along the axis other than a's, of a length in
   * [lo, hi], ending on b inside the grid; b is tagged with the run's axis.
   */
  predicate Edge(g: Costs, lo: int, hi: int, a: Coord, b: Coord) {
    Aligned(g, a, b) && b.d == Flip(a.d) &&
    var n := if b.d == Horizontal then Dist(a.x, b.x) else Dist(a.y, b.y);
    n >= 1 && lo <= n <= hi
  }

  /** The heat lost on the run from a to b. */
  function Weight(g: Costs, a: Coord, b: Coord): nat
    requires g.Valid() && Aligned(g, a, b)
  {
    if b.d == Horizontal then
      RunLoss(g, a.x, a.y, Horizontal, if b.x < a.x then -1 else 1, Dist(a.x, b.x))
    else
      RunLoss(g, a.x, a.y, Vertical, if b.y < a.y then -1 else 1, Dist(a.y, b.y))
  }

  predicate IsOrigin(c: Coord) {
    c.x == 0 && c.y == 0
  }

  /** A walk: a non-empty sequence of tiles, each joined to the next by an edge. */
  predicate IsWalk(g: Costs, lo: int, hi: int, p: seq<Coord>) {
    |p| >= 1 && (forall i :: 0 <= i < |p| ==> g.InGrid(p[i])) &&
    forall i :: 0 <= i < |p| - 1 ==> Edge(g, lo, hi, p[i], p[i + 1])
  }

  function WalkCost(g: Costs, lo: int, hi: int, p: seq<Coord>): nat
    requires g.Valid() && IsWalk(g, lo, hi, p)
    decreases |p|
  {
    if |p| == 1 then 0
    else
      WalkPrefix(g, lo, hi, p);
      WalkCost(g, lo, hi, p[..|p| - 1]) + Weight(g, p[|p| - 2], p[|p| - 1])
  }

  lemma WalkPrefix(g: Costs, lo: int, hi: int, p: seq<Coord>)
    requires IsWalk(g, lo, hi, p) && |p| > 1
    ensures IsWalk(g, lo, hi, p[..|p| - 1])
  {
    var q := p[..|p| - 1];
    forall i | 0 <= i < |q| - 1 ensures Edge(g, lo, hi, q[i], q[i + 1]) {
      assert Edge(g, lo, hi, p[i], p[i + 1]);
    }
  }

  lemma WalkExtend(g: Costs, lo: int, hi: int, p: seq<Coord>, b: Coord)
    requires g.Valid() && IsWalk(g, lo, hi, p) && Edge(g, lo, hi, p[|p| - 1], b)
    ensures IsWalk(g, lo, hi, p + [b]) && (p + [b])[0] == p[0]
    ensures WalkCost(g, lo, hi, p + [b]) == WalkCost(g, lo, hi, p) + Weight(g, p[|p| - 1], b)
  {
    var q := p + [b];
    forall i | 0 <= i < |q| - 1 ensures Edge(g, lo, hi, q[i], q[i + 1]) {
      if i < |p| - 1 {
        assert Edge(g, lo, hi, p[i], p[i + 1]);
      }
    }
    assert q[..|q| - 1] == p;
  }

  // ---------------------------------------------------------------------
  // The runs that get_horizontal / get_vertical enumerate.
  // ---------------------------------------------------------------------

  /** The steps of lengths 1..n in one direction, in increasing length. */
  function RunSteps(g: Costs, x: nat, y: nat, move: Axis, sign: int, lo: int, n: nat): seq<Step>
    requires g.Valid() && x < g.width && y < g.height
  {
    if n == 0 then []
    else
      var p := Reach(x, y, move, sign, n);
      RunSteps(g, x, y, move, sign, lo, n - 1) +
      (if Inside(g, p) && n >= lo
       then [Step(Coord(p.0 as nat, p.1 as nat, move), RunLoss(g, x, y, move, sign, n))]
       else [])
  }

  function Top(hi: int): nat {
    if hi < 0 then 0 else hi
  }

  /** Step n of a run: the cell it reaches, when inside the grid, adds its loss and, from lo on, one step. */
  lemma RunSnoc(g: Costs, x: nat, y: nat, move: Axis, sign: int, lo: int, n: nat)
    requires g.Valid() && x < g.width && y < g.height && n >= 1
    ensures var p := Reach(x, y, move, sign, n);
      && (!Inside(g, p) ==> RunSteps(g, x, y, move, sign, lo, n) == RunSteps(g, x, y, move, sign, lo, n - 1))
      && (Inside(g, p) && n < lo ==> RunSteps(g, x, y, move, sign, lo, n) == RunSteps(g, x, y, move, sign, lo, n - 1))
      && (Inside(g, p) ==>
            && Inside(g, Reach(x, y, move, sign, n - 1))
            && RunLoss(g, x, y, move, sign, n) == RunLoss(g, x, y, move, sign, n - 1) + g.At(p.0, p.1))
      && (Inside(g, p) && n >= lo ==>
            RunSteps(g, x, y, move, sign, lo, n)
              == RunSteps(g, x, y, move, sign, lo, n - 1) + [Step(Coord(p.0 as nat, p.1 as nat, move), RunLoss(g, x, y, move, sign, n))])
  {
    if Inside(g, Reach(x, y, move, sign, n)) {
      InsideShorter(g, x, y, move, sign, n);
    }
  }

  /** All steps from (x, y) along `move`: first towards smaller, then towards larger coordinates. */
  function Steps(g: Costs, x: nat, y: nat, move: Axis, lo: int, hi: int): seq<Step>
    requires g.Valid() && x < g.width && y < g.height
  {
    RunSteps(g, x, y, move, -1, lo, Top(hi)) + RunSteps(g, x, y, move, 1, lo, Top(hi))
  }

  lemma {:induction false} RunStepsSound(g: Costs, x: nat, y: nat, move: Axis, sign: int, lo: int, hi: int, n: nat, s: Step)
    requires g.Valid() && x < g.width && y < g.height && (sign == -1 || sign == 1)
    requires n <= Top(hi) && s in RunSteps(g, x, y, move, sign, lo, n)
    ensures Edge(g, lo, hi, Coord(x, y, Flip(move)), s.tile)
    ensures s.loss == Weight(g, Coord(x, y, Flip(move)), s.tile)
  {
    var p := Reach(x, y, move, sign, n);
    if s in RunSteps(g, x, y, move, sign, lo, n - 1) {
      RunStepsSound(g, x, y, move, sign, lo, hi, n - 1, s);
    } else {
      assert Inside(g, p) && n >= lo;
      assert s == Step(Coord(p.0 as nat, p.1 as nat, move), RunLoss(g, x, y, move, sign, n));
    }
  }

  /** Every step get_horizontal / get_vertical produce is an edge of the graph, with its weight. */
  lemma StepsSound(g: Costs, a: Coord, lo: int, hi: int, s: Step)
    requires g.Valid() && g.InGrid(a) && s in Steps(g, a.x, a.y, Flip(a.d), lo, hi)
    ensures Edge(g, lo, hi, a, s.tile) && s.tile.d == Flip(a.d)
    ensures s.loss == Weight(g, a, s.tile)
  {
    assert Flip(Flip(a.d)) == a.d;
    if s in RunSteps(g, a.x, a.y, Flip(a.d), -1, lo, Top(hi)) {
      RunStepsSound(g, a.x, a.y, Flip(a.d), -1, lo, hi, Top(hi), s);
    } else {
      RunStepsSound(g, a.x, a.y, Flip(a.d), 1, lo, hi, Top(hi), s);
    }
  }

  lemma {:induction false} RunStepsComplete(g: Costs, x: nat, y: nat, move: Axis, sign: int, lo: int, n: nat, k: nat)
    requires g.Valid() && x < g.width && y < g.height
    requires 1 <= k <= n && k >= lo && Inside(g, Reach(x, y, move, sign, k))
    ensures var p := Reach(x, y, move, sign, k);
      Step(Coord(p.0 as nat, p.1 as nat, move), RunLoss(g, x, y, move, sign, k))
        in RunSteps(g, x, y, move, sign, lo, n)
  {
    if k < n {
      RunStepsComplete(g, x, y, move, sign, lo, n - 1, k);
    }
  }

  /** Every edge of the graph is among the steps enumerated for its source tile. */
  lemma StepsComplete(g: Costs, a: Coord, b: Coord, lo: int, hi: int)
    requires g.Valid() && Edge(g, lo, hi, a, b)
    ensures Step(b, Weight(g, a, b)) in Steps(g, a.x, a.y, Flip(a.d), lo, hi)
  {
    var move := b.d;
    var sign := if move == Horizontal then (if b.x < a.x then -1 else 1) else (if b.y < a.y then -1 else 1);
    var k := if move == Horizontal then Dist(a.x, b.x) else Dist(a.y, b.y);
    var p := Reach(a.x, a.y, move, sign, k);
    assert p == (b.x as int, b.y as int);
    assert Step(b, Weight(g, a, b)) == Step(Coord(p.0 as nat, p.1 as nat, move), RunLoss(g, a.x, a.y, move, sign, k));
    RunStepsComplete(g, a.x, a.y, move, sign, lo, Top(hi), k);
  }

  lemma {:induction false} RunStepsCount(g: Costs, x: nat, y: nat, move: Axis, sign: int, lo: nat, n: nat)
    requires g.Valid() && x < g.width && y < g.height && lo >= 1
    ensures |RunSteps(g, x, y, move, sign, lo, n)| <= if n >= lo then n - lo + 1 else 0
  {
    if n > 0 {
      RunStepsCount(g, x, y, move, sign, lo, n - 1);
    }
  }

  /** With `first(rng) >= 1`, at most 2 * (last - first + 1) steps are produced. */
  lemma StepsCount(g: Costs, x: nat, y: nat, move: Axis, lo: int, hi: int)
    requires g.Valid() && x < g.width && y < g.height && lo >= 1
    ensures |Steps(g, x, y, move, lo, hi)| <= if hi >= lo then 2 * (hi - lo + 1) else 0
  {
    RunStepsCount(g, x, y, move, -1, lo, Top(hi));
    RunStepsCount(g, x, y, move, 1, lo, Top(hi));
  }

  // ---------------------------------------------------------------------
  // Labels (`total_loss`) and what the search establishes about them.
  // ---------------------------------------------------------------------

  predicate Sized(g: Costs, hs: seq<Tile>, vs: seq<Tile>) {
    g.Valid() && |hs| == |g.cells| && |vs| == |g.cells|
  }

  function Label(g: Costs, hs: seq<Tile>, vs: seq<Tile>, c: Coord): nat
    requires Sized(g, hs, vs) && g.InGrid(c)
  {
    IndexBound(c.x, c.y, g.width, g.height);
    var i := Index(g.width, c.x, c.y);
    if c.d == Horizontal then hs[i].totalLoss else vs[i].totalLoss
  }

  /** Every edge out of a is relaxed: its target's label is at most a's label plus the weight. */
  ghost predicate Relaxed(g: Costs, lo: int, hi: int, hs: seq<Tile>, vs: seq<Tile>, a: Coord)
    requires Sized(g, hs, vs) && g.InGrid(a)
  {
    forall b :: Edge(g, lo, hi, a, b) ==> Label(g, hs, vs, b) <= Label(g, hs, vs, a) + Weight(g, a, b)
  }

  /** Labels only went down, and a's did not move. */
  ghost predicate LoweredExcept(g: Costs, hs: seq<Tile>, vs: seq<Tile>, hs': seq<Tile>, vs': seq<Tile>, a: Coord)
    requires Sized(g, hs, vs) && Sized(g, hs', vs') && g.InGrid(a)
  {
    (forall c :: g.InGrid(c) ==> Label(g, hs', vs', c) <= Label(g, hs, vs, c)) &&
    Label(g, hs', vs', a) == Label(g, hs, vs, a)
  }

  /** Every label is at most the corresponding label in (hs0, vs0). */
  ghost predicate Below(g: Costs, hs: seq<Tile>, vs: seq<Tile>, hs0: seq<Tile>, vs0: seq<Tile>)
    requires Sized(g, hs, vs) && Sized(g, hs0, vs0)
  {
    forall c :: g.InGrid(c) ==> Label(g, hs, vs, c) <= Label(g, hs0, vs0, c)
  }

  lemma BelowTrans(g: Costs, hs2: seq<Tile>, vs2: seq<Tile>, hs1: seq<Tile>, vs1: seq<Tile>,
                   hs0: seq<Tile>, vs0: seq<Tile>, a: Coord)
    requires Sized(g, hs0, vs0) && Sized(g, hs1, vs1) && Sized(g, hs2, vs2) && g.InGrid(a)
    requires LoweredExcept(g, hs1, vs1, hs2, vs2, a) && Below(g, hs1, vs1, hs0, vs0)
    ensures Below(g, hs2, vs2, hs0, vs0)
  {
    forall c | g.InGrid(c) ensures Label(g, hs2, vs2, c) <= Label(g, hs0, vs0, c) {
      assert Label(g, hs2, vs2, c) <= Label(g, hs1, vs1, c);
    }
  }

  /** Lowering other labels never un-relaxes a tile whose own label is unchanged. */
  lemma RelaxedKept(g: Costs, lo: int, hi: int, hs: seq<Tile>, vs: seq<Tile>, hs': seq<Tile>, vs': seq<Tile>, a: Coord)
    requires Sized(g, hs, vs) && Sized(g, hs', vs') && g.InGrid(a)
    requires LoweredExcept(g, hs, vs, hs', vs', a) && Relaxed(g, lo, hi, hs, vs, a)
    ensures Relaxed(g, lo, hi, hs', vs', a)
  {
    forall b | Edge(g, lo, hi, a, b)
      ensures Label(g, hs', vs', b) <= Label(g, hs', vs', a) + Weight(g, a, b)
    {
      assert Label(g, hs, vs, b) <= Label(g, hs, vs, a) + Weight(g, a, b);
    }
  }

  /**
   * At a fixpoint where both origin tiles have label 0, no walk from the
   * origin is cheaper than the label of the tile it ends on.
   */
  lemma {:induction false} WalkBound(g: Costs, lo: int, hi: int, hs: seq<Tile>, vs: seq<Tile>, p: seq<Coord>)
    requires Sized(g, hs, vs) && IsWalk(g, lo, hi, p) && IsOrigin(p[0])
    requires forall c :: g.InGrid(c) && IsOrigin(c) ==> Label(g, hs, vs, c) == 0
    requires forall c :: g.InGrid(c) ==> Relaxed(g, lo, hi, hs, vs, c)
    ensures Label(g, hs, vs, p[|p| - 1]) <= WalkCost(g, lo, hi, p)
    decreases |p|
  {
    if |p| > 1 {
      var q := p[..|p| - 1];
      WalkPrefix(g, lo, hi, p);
      WalkBound(g, lo, hi, hs, vs, q);
      var a, b := p[|p| - 2], p[|p| - 1];
      assert Edge(g, lo, hi, a, b);
      assert Relaxed(g, lo, hi, hs, vs, a);
    }
  }

  /**
   * When the heap runs empty, every tile is relaxed; with the origin labels
   * still 0, each label is a lower bound on the cost of every walk to its tile.
   */
  lemma Optimal(g: Costs, lo: int, hi: int, hs: seq<Tile>, vs: seq<Tile>, hs0: seq<Tile>, vs0: seq<Tile>, heap: seq<Entry>)
    requires Sized(g, hs, vs) && Sized(g, hs0, vs0) && Below(g, hs, vs, hs0, vs0)
    requires forall c :: g.InGrid(c) && IsOrigin(c) ==> Label(g, hs0, vs0, c) == 0
    requires heap == [] && Covered(g, lo, hi, hs, vs, heap, {})
    ensures forall p :: IsWalk(g, lo, hi, p) && IsOrigin(p[0]) ==>
      Label(g, hs, vs, p[|p| - 1]) <= WalkCost(g, lo, hi, p)
  {
    forall p | IsWalk(g, lo, hi, p) && IsOrigin(p[0])
      ensures Label(g, hs, vs, p[|p| - 1]) <= WalkCost(g, lo, hi, p)
    {
      WalkBound(g, lo, hi, hs, vs, p);
    }
  }

  /** Every finite label is the cost of a recorded walk from the origin to that tile. */
  ghost predicate Witnessed(g: Costs, lo: int, hi: int, hs: seq<Tile>, vs: seq<Tile>, w: map<Coord, seq<Coord>>)
    requires Sized(g, hs, vs)
  {
    forall c :: g.InGrid(c) && Label(g, hs, vs, c) < UsizeMax ==>
      c in w && IsWalk(g, lo, hi, w[c]) && IsOrigin(w[c][0]) && w[c][|w[c]| - 1] == c &&
      WalkCost(g, lo, hi, w[c]) == Label(g, hs, vs, c)
  }

  /** The live label of every queued tile is finite. */
  ghost predicate Queued(g: Costs, hs: seq<Tile>, vs: seq<Tile>, heap: seq<Entry>)
    requires Sized(g, hs, vs)
  {
    forall e :: e in heap ==> g.InGrid(e.node) && Label(g, hs, vs, e.node) < UsizeMax
  }

  function Nodes(heap: seq<Entry>): set<Coord> {
    set e | e in heap :: e.node
  }

  /** Every tile that is not relaxed is queued or is one of `extra`. */
  ghost predicate Covered(g: Costs, lo: int, hi: int, hs: seq<Tile>, vs: seq<Tile>, heap: seq<Entry>, extra: set<Coord>)
    requires Sized(g, hs, vs)
  {
    forall n :: g.InGrid(n) && !Relaxed(g, lo, hi, hs, vs, n) ==> n in Nodes(heap) || n in extra
  }

  /**
   * The effect of `update(src, s, heap)` on the labels and the heap: the target
   * takes the label src + s.loss and is queued only when that is strictly lower.
   */
  ghost predicate Updated(g: Costs, hs: seq<Tile>, vs: seq<Tile>, hs': seq<Tile>, vs': seq<Tile>,
                          heap: seq<Entry>, heap': seq<Entry>, src: Coord, s: Step)
    requires Sized(g, hs, vs) && Sized(g, hs', vs')
  {
    g.InGrid(src) && g.InGrid(s.tile) &&
    var newLoss := Label(g, hs, vs, src) + s.loss;
    (if newLoss < Label(g, hs, vs, s.tile) then
       Label(g, hs', vs', s.tile) == newLoss && heap' == heap + [Entry(newLoss, s.tile)]
     else
       Label(g, hs', vs', s.tile) == Label(g, hs, vs, s.tile) && heap' == heap) &&
    forall c :: g.InGrid(c) && c != s.tile ==> Label(g, hs', vs', c) == Label(g, hs, vs, c)
  }

  /** An update that does not improve the target leaves every label and the heap as they were. */
  lemma UpdatedKept(g: Costs, hs: seq<Tile>, vs: seq<Tile>, heap: seq<Entry>, src: Coord, s: Step)
    requires Sized(g, hs, vs) && g.InGrid(src) && g.InGrid(s.tile)
    requires Label(g, hs, vs, src) + s.loss >= Label(g, hs, vs, s.tile)
    ensures Updated(g, hs, vs, hs, vs, heap, heap, src, s)
  {
  }

  /** The effect of lowering the target's label: exactly what `Updated` asks of an improving update. */
  lemma UpdatedSet(g: Costs, hs: seq<Tile>, vs: seq<Tile>, hs': seq<Tile>, vs': seq<Tile>,
                   heap: seq<Entry>, heap': seq<Entry>, src: Coord, s: Step)
    requires Sized(g, hs, vs) && Sized(g, hs', vs') && g.InGrid(src) && g.InGrid(s.tile)
    requires Index(g.width, s.tile.x, s.tile.y) < |hs|
    requires var newLoss := Label(g, hs, vs, src) + s.loss;
      var i := Index(g.width, s.tile.x, s.tile.y);
      && newLoss < Label(g, hs, vs, s.tile) && heap' == heap + [Entry(newLoss, s.tile)]
      && if s.tile.d == Horizontal then hs' == hs[i := hs[i].(totalLoss := newLoss)] && vs' == vs
         else vs' == vs[i := vs[i].(totalLoss := newLoss)] && hs' == hs
    ensures Updated(g, hs, vs, hs', vs', heap, heap', src, s)
  {
    LabelsAfterSet(g, hs, vs, hs', vs', s.tile, Label(g, hs, vs, src) + s.loss);
  }

  /** Lowering one tile's total loss keeps the layout and the losses, and lowers the sum by the difference. */
  lemma TileLowered(ts: seq<Tile>, w: nat, d: Axis, cells: seq<nat>, i: nat, v: nat)
    requires Laid(ts, w, d) && |ts| == |cells| && i < |ts| && v < ts[i].totalLoss
    requires forall k :: 0 <= k < |ts| ==> ts[k].loss == cells[k] && ts[k].totalLoss <= UsizeMax
    ensures var ts' := ts[i := ts[i].(totalLoss := v)];
      && Laid(ts', w, d) && SumLoss(ts') + ts[i].totalLoss == SumLoss(ts) + v
      && forall k :: 0 <= k < |ts'| ==> ts'[k].loss == cells[k] && ts'[k].totalLoss <= UsizeMax
  {
    SumLossUpdate(ts, i, ts[i].(totalLoss := v));
    LaidSet(ts, w, d, i, ts[i].(totalLoss := v));
  }

  function SumLoss(s: seq<Tile>): nat {
    if s == [] then 0 else SumLoss(s[..|s| - 1]) + s[|s| - 1].totalLoss
  }

  lemma {:induction false} SumLossUpdate(s: seq<Tile>, i: nat, t: Tile)
    requires i < |s|
    ensures SumLoss(s[i := t]) + s[i].totalLoss == SumLoss(s) + t.totalLoss
    decreases |s|
  {
    if i < |s| - 1 {
      assert s[i := t][..|s| - 1] == s[..|s| - 1][i := t];
      SumLossUpdate(s[..|s| - 1], i, t);
    } else {
      assert s[i := t][..|s| - 1] == s[..|s| - 1];
    }
  }

  lemma StepQueued(g: Costs, hs: seq<Tile>, vs: seq<Tile>, hs': seq<Tile>, vs': seq<Tile>,
                   heap: seq<Entry>, heap': seq<Entry>, src: Coord, s: Step)
    requires Sized(g, hs, vs) && Sized(g, hs', vs') && Updated(g, hs, vs, hs', vs', heap, heap', src, s)
    requires Queued(g, hs, vs, heap) && Label(g, hs, vs, s.tile) <= UsizeMax
    ensures Queued(g, hs', vs', heap')
  {
    forall e | e in heap' ensures g.InGrid(e.node) && Label(g, hs', vs', e.node) < UsizeMax {
      if e in heap && e.node != s.tile {
        assert Label(g, hs', vs', e.node) == Label(g, hs, vs, e.node);
      }
    }
  }

  lemma StepWitnessed(g: Costs, lo: int, hi: int, hs: seq<Tile>, vs: seq<Tile>, hs': seq<Tile>, vs': seq<Tile>,
                      heap: seq<Entry>, heap': seq<Entry>, src: Coord, s: Step, w: map<Coord, seq<Coord>>)
    returns (w': map<Coord, seq<Coord>>)
    requires Sized(g, hs, vs) && Sized(g, hs', vs') && Updated(g, hs, vs, hs', vs', heap, heap', src, s)
    requires Edge(g, lo, hi, src, s.tile) && s.loss == Weight(g, src, s.tile)
    requires Label(g, hs, vs, src) < UsizeMax && Witnessed(g, lo, hi, hs, vs, w)
    ensures Witnessed(g, lo, hi, hs', vs', w')
  {
    w' := w;
    if Label(g, hs, vs, src) + s.loss < Label(g, hs, vs, s.tile) {
      WalkExtend(g, lo, hi, w[src], s.tile);
      w' := w[s.tile := w[src] + [s.tile]];
    }
    forall c | g.InGrid(c) && Label(g, hs', vs', c) < UsizeMax
      ensures c in w' && IsWalk(g, lo, hi, w'[c]) && IsOrigin(w'[c][0]) && w'[c][|w'[c]| - 1] == c &&
        WalkCost(g, lo, hi, w'[c]) == Label(g, hs', vs', c)
    {
      if c != s.tile {
        assert Label(g, hs', vs', c) == Label(g, hs, vs, c);
      }
    }
  }

  lemma StepCovered(g: Costs, lo: int, hi: int, hs: seq<Tile>, vs: seq<Tile>, hs': seq<Tile>, vs': seq<Tile>,
                    heap: seq<Entry>, heap': seq<Entry>, src: Coord, s: Step)
    requires Sized(g, hs, vs) && Sized(g, hs', vs') && Updated(g, hs, vs, hs', vs', heap, heap', src, s)
    requires src != s.tile && Covered(g, lo, hi, hs, vs, heap, {src})
    ensures Covered(g, lo, hi, hs', vs', heap', {src})
  {
    assert forall e :: e in heap ==> e in heap';
    forall n | g.InGrid(n) && !Relaxed(g, lo, hi, hs', vs', n)
      ensures n in Nodes(heap') || n in {src}
    {
      if n == s.tile && |heap'| > |heap| {
        assert heap'[|heap|].node == n;
      } else {
        assert Label(g, hs', vs', n) == Label(g, hs, vs, n);
        assert LoweredExcept(g, hs, vs, hs', vs', n);
        if Relaxed(g, lo, hi, hs, vs, n) {
          RelaxedKept(g, lo, hi, hs, vs, hs', vs', n);
        }
        if n != src {
          var e :| e in heap && e.node == n;
          assert e in heap';
        }
      }
    }
  }

  lemma StepLowered(g: Costs, lo: int, hi: int, hs0: seq<Tile>, vs0: seq<Tile>, hs: seq<Tile>, vs: seq<Tile>,
                    hs': seq<Tile>, vs': seq<Tile>, heap: seq<Entry>, heap': seq<Entry>, src: Coord, s: Step)
    requires Sized(g, hs0, vs0) && Sized(g, hs, vs) && Sized(g, hs', vs')
    requires Updated(g, hs, vs, hs', vs', heap, heap', src, s) && src != s.tile
    requires LoweredExcept(g, hs0, vs0, hs, vs, src)
    ensures LoweredExcept(g, hs0, vs0, hs', vs', src)
  {
    forall c | g.InGrid(c) ensures Label(g, hs', vs', c) <= Label(g, hs0, vs0, c) {
      assert Label(g, hs', vs', c) <= Label(g, hs, vs, c);
    }
  }

  /** Every step in `done` ends on a tile whose label is within that step's loss of lc. */
  ghost predicate Within(g: Costs, hs: seq<Tile>, vs: seq<Tile>, steps: seq<Step>, i: nat, lc: nat)
    requires Sized(g, hs, vs) && i <= |steps|
  {
    forall k :: 0 <= k < i ==> g.InGrid(steps[k].tile) && Label(g, hs, vs, steps[k].tile) <= lc + steps[k].loss
  }

  /** The targets of the steps already taken keep labels within their step from src. */
  lemma StepsBefore(g: Costs, hs: seq<Tile>, vs: seq<Tile>, hs': seq<Tile>, vs': seq<Tile>,
                    heap: seq<Entry>, heap': seq<Entry>, src: Coord, steps: seq<Step>, i: nat, lc: nat)
    requires Sized(g, hs, vs) && Sized(g, hs', vs') && i < |steps|
    requires Updated(g, hs, vs, hs', vs', heap, heap', src, steps[i])
    requires src != steps[i].tile && Label(g, hs, vs, src) == lc
    requires Within(g, hs, vs, steps, i, lc)
    ensures Within(g, hs', vs', steps, i + 1, lc)
  {
    forall k | 0 <= k < i
      ensures g.InGrid(steps[k].tile) && Label(g, hs', vs', steps[k].tile) <= lc + steps[k].loss
    {
      assert Label(g, hs', vs', steps[k].tile) <= Label(g, hs, vs, steps[k].tile);
    }
  }

  /** Every loop invariant of the relaxation loop survives one `update` call. */
  lemma StepAll(g: Costs, lo: int, hi: int, hs0: seq<Tile>, vs0: seq<Tile>, hs: seq<Tile>, vs: seq<Tile>,
                hs': seq<Tile>, vs': seq<Tile>, heap: seq<Entry>, heap': seq<Entry>, src: Coord,
                steps: seq<Step>, i: nat, lc: nat, w: map<Coord, seq<Coord>>)
    returns (w': map<Coord, seq<Coord>>)
    requires Sized(g, hs0, vs0) && Sized(g, hs, vs) && Sized(g, hs', vs') && g.InGrid(src) && i < |steps|
    requires Updated(g, hs, vs, hs', vs', heap, heap', src, steps[i])
    requires Edge(g, lo, hi, src, steps[i].tile) && steps[i].loss == Weight(g, src, steps[i].tile)
    requires src != steps[i].tile && Label(g, hs, vs, src) == lc < UsizeMax
    requires Label(g, hs, vs, steps[i].tile) <= UsizeMax
    requires LoweredExcept(g, hs0, vs0, hs, vs, src) && Within(g, hs, vs, steps, i, lc)
    requires Queued(g, hs, vs, heap) && Witnessed(g, lo, hi, hs, vs, w)
    requires Covered(g, lo, hi, hs, vs, heap, {src})
    ensures LoweredExcept(g, hs0, vs0, hs', vs', src) && Within(g, hs', vs', steps, i + 1, lc)
    ensures Queued(g, hs', vs', heap') && Witnessed(g, lo, hi, hs', vs', w')
    ensures Covered(g, lo, hi, hs', vs', heap', {src})
  {
    var s := steps[i];
    StepQueued(g, hs, vs, hs', vs', heap, heap', src, s);
    w' := StepWitnessed(g, lo, hi, hs, vs, hs', vs', heap, heap', src, s, w);
    StepCovered(g, lo, hi, hs, vs, hs', vs', heap, heap', src, s);
    StepLowered(g, lo, hi, hs0, vs0, hs, vs, hs', vs', heap, heap', src, s);
    StepsBefore(g, hs, vs, hs', vs', heap, heap', src, steps, i, lc);
  }

  /** Once every step from a is within its loss of a's label, a is relaxed. */
  lemma StepsRelax(g: Costs, lo: int, hi: int, hs: seq<Tile>, vs: seq<Tile>, a: Coord, steps: seq<Step>, la: nat)
    requires Sized(g, hs, vs) && g.InGrid(a) && Label(g, hs, vs, a) == la
    requires steps == Steps(g, a.x, a.y, Flip(a.d), lo, hi)
    requires Within(g, hs, vs, steps, |steps|, la)
    ensures Relaxed(g, lo, hi, hs, vs, a)
  {
    forall b | Edge(g, lo, hi, a, b)
      ensures Label(g, hs, vs, b) <= Label(g, hs, vs, a) + Weight(g, a, b)
    {
      StepsComplete(g, a, b, lo, hi);
      var k :| 0 <= k < |steps| && steps[k] == Step(b, Weight(g, a, b));
    }
  }

  lemma CoveredDone(g: Costs, lo: int, hi: int, hs: seq<Tile>, vs: seq<Tile>, heap: seq<Entry>, src: Coord)
    requires Sized(g, hs, vs) && g.InGrid(src) && Covered(g, lo, hi, hs, vs, heap, {src})
    requires Relaxed(g, lo, hi, hs, vs, src)
    ensures Covered(g, lo, hi, hs, vs, heap, {})
  {
  }

  /**
   * With both origin tiles at 0, all others at `usize::MAX` and both origin tiles
   * queued, the search invariants hold; the witnesses are the one-tile walks.
   */
  lemma Seeded(g: Costs, lo: int, hi: int, hs: seq<Tile>, vs: seq<Tile>, heap: seq<Entry>)
    returns (w: map<Coord, seq<Coord>>)
    requires Sized(g, hs, vs) && g.width > 0 && g.height > 0
    requires forall c :: g.InGrid(c) ==> Label(g, hs, vs, c) == if IsOrigin(c) then 0 else UsizeMax
    requires heap == [Entry(0, Coord(0, 0, Horizontal)), Entry(0, Coord(0, 0, Vertical))]
    ensures Queued(g, hs, vs, heap) && Witnessed(g, lo, hi, hs, vs, w) && Covered(g, lo, hi, hs, vs, heap, {})
  {
    var h0, v0 := Coord(0, 0, Horizontal), Coord(0, 0, Vertical);
    w := map[h0 := [h0], v0 := [v0]];
    forall c | g.InGrid(c) && !Relaxed(g, lo, hi, hs, vs, c) ensures c in Nodes(heap) {
      if c.d == Horizontal {
        assert heap[0].node == c;
      } else {
        assert heap[1].node == c;
      }
    }
  }

  /** Popping entry t from a covered heap leaves every unrelaxed tile queued or equal to t's. */
  lemma Popped(g: Costs, lo: int, hi: int, hs: seq<Tile>, vs: seq<Tile>, heap: seq<Entry>, rest: seq<Entry>, t: Entry)
    requires Sized(g, hs, vs) && Queued(g, hs, vs, heap) && Covered(g, lo, hi, hs, vs, heap, {})
    requires t in heap && (forall f :: f in rest ==> f in heap) && (forall f :: f in heap ==> f in rest || f == t)
    ensures Queued(g, hs, vs, rest) && Covered(g, lo, hi, hs, vs, rest, {t.node})
    ensures g.InGrid(t.node) && Label(g, hs, vs, t.node) < UsizeMax
  {
    forall n | g.InGrid(n) && !Relaxed(g, lo, hi, hs, vs, n)
      ensures n in Nodes(rest) || n in {t.node}
    {
      var e :| e in heap && e.node == n;
      if n != t.node {
        assert e in rest;
      }
    }
  }

  // ---------------------------------------------------------------------
  // `Ord for Tile`: reversed on total_loss, so the max-heap yields the minimum.
  // ---------------------------------------------------------------------

  function CompareTiles(a: Tile, b: Tile): (r: Ordering)
    ensures r == Greater <==> a.totalLoss < b.totalLoss
    ensures r == Less <==> a.totalLoss > b.totalLoss
  {
    if b.totalLoss < a.totalLoss then Less
    else if b.totalLoss == a.totalLoss then Equal
    else Greater
  }

  /** `PartialEq for Tile`: equal total losses, whatever the coordinates. */
  function TilesEqual(a: Tile, b: Tile): (r: bool)
    ensures r <==> CompareTiles(a, b) == Equal
  {
    a.totalLoss == b.totalLoss
  }

  /** Pops an entry that is greatest under the reversed ordering, i.e. of least snapshot. */
  method PopMin(heap: seq<Entry>) returns (e: Entry, rest: seq<Entry>)
    requires |heap| > 0
    ensures e in heap && multiset(rest) == multiset(heap) - multiset{e}
    ensures forall f :: f in heap ==> e.snapshot <= f.snapshot
    ensures |rest| == |heap| - 1
    ensures forall f :: f in rest ==> f in heap
    ensures forall f :: f in heap ==> f in rest || f == e
  {
    var k := 0;
    var i := 1;
    while i < |heap|
      invariant 1 <= i <= |heap| && k < i
      invariant forall j :: 0 <= j < i ==> heap[k].snapshot <= heap[j].snapshot
    {
      if heap[i].snapshot < heap[k].snapshot {
        k := i;
      }
      i := i + 1;
    }
    e := heap[k];
    rest := heap[..k] + heap[k + 1..];
    RemoveAt(heap, k);
  }

  /** Dropping entry k leaves every other entry, one fewer in all. */
  lemma RemoveAt(heap: seq<Entry>, k: nat)
    requires k < |heap|
    ensures var rest := heap[..k] + heap[k + 1..];
      && multiset(rest) == multiset(heap) - multiset{heap[k]} && |rest| == |heap| - 1
      && (forall f :: f in rest ==> f in heap)
      && (forall f :: f in heap ==> f in rest || f == heap[k])
  {
    assert heap == heap[..k] + [heap[k]] + heap[k + 1..];
  }

  /** The text the solver accepts: equal-length lines of decimal digits. */
  predicate DigitGrid(text: string) {
    var ls := Lines(text);
    |ls| > 0 && |ls[0]| > 0 && Rectangular(ls, |ls[0]|) &&
    (forall k :: 0 <= k < |ls| ==> AllDigits(ls[k])) && '\r' !in text
  }

  function DigitsOf(s: string): (r: seq<nat>)
    requires AllDigits(s)
    ensures |r| == |s| && forall i :: 0 <= i < |s| ==> r[i] == DigitValue(s[i])
  {
    if s == [] then [] else DigitsOf(s[..|s| - 1]) + [DigitValue(s[|s| - 1])]
  }

  lemma ConcatDigits(ls: seq<string>)
    requires forall k :: 0 <= k < |ls| ==> AllDigits(ls[k])
    ensures AllDigits(Concat(ls))
  {
    if ls != [] {
      ConcatDigits(ls[1..]);
    }
  }

  /** The cost map the solver builds from its input text. */
  function CostsOf(text: string): (g: Costs)
    requires DigitGrid(text)
    ensures g.Valid() && g.width > 0 && g.height > 0
  {
    var ls := Lines(text);
    ConcatDigits(ls);
    RectangularLength(ls, |ls[0]|);
    Costs(DigitsOf(Concat(ls)), |ls[0]|, |ls|)
  }

  /** Appending the tile of cell (x, y) at its own row-major index keeps the layout. */
  lemma LaidAppend(ts: seq<Tile>, w: nat, d: Axis, x: nat, y: nat, loss: nat)
    requires Laid(ts, w, d) && x < w && |ts| == Index(w, x, y)
    ensures Laid(ts + [Tile(Coord(x, y, d), loss, UsizeMax)], w, d)
  {
    var ts' := ts + [Tile(Coord(x, y, d), loss, UsizeMax)];
    forall x': nat, y': nat | x' < w && Index(w, x', y') < |ts'|
      ensures ts'[Index(w, x', y')].coord == Coord(x', y', d)
    {
      if Index(w, x', y') == |ts| {
        RowUnique(w, x, y, x', y');
      }
    }
  }

  /** Each tile carries the loss of its cell and has not been reached yet. */
  ghost predicate Unvisited(ts: seq<Tile>, cells: seq<nat>) {
    |ts| <= |cells| && forall i :: 0 <= i < |ts| ==> ts[i].loss == cells[i] && ts[i].totalLoss == UsizeMax
  }

  /** Appending the next cell's unreached tile keeps every tile unreached. */
  lemma UnvisitedAppend(ts: seq<Tile>, cells: seq<nat>, c: Coord)
    requires Unvisited(ts, cells) && |ts| < |cells|
    ensures Unvisited(ts + [Tile(c, cells[|ts|], UsizeMax)], cells)
  {
  }

  /** Changing a tile's total loss leaves its coordinate, and so the layout, as it was. */
  lemma LaidSet(ts: seq<Tile>, w: nat, d: Axis, i: nat, t: Tile)
    requires Laid(ts, w, d) && i < |ts| && t.coord == ts[i].coord
    ensures Laid(ts[i := t], w, d)
  {
    var ts' := ts[i := t];
    forall x: nat, y: nat | x < w && Index(w, x, y) < |ts'|
      ensures ts'[Index(w, x, y)].coord == Coord(x, y, d)
    {
      assert ts[Index(w, x, y)].coord == Coord(x, y, d);
    }
  }

  /** Setting the total loss of tile t to v changes t's label to v and no other label. */
  lemma LabelsAfterSet(g: Costs, hs: seq<Tile>, vs: seq<Tile>, hs': seq<Tile>, vs': seq<Tile>, t: Coord, v: nat)
    requires Sized(g, hs, vs) && Sized(g, hs', vs') && g.InGrid(t)
    requires Index(g.width, t.x, t.y) < |hs|
    requires var i := Index(g.width, t.x, t.y);
      if t.d == Horizontal then hs' == hs[i := hs[i].(totalLoss := v)] && vs' == vs
      else vs' == vs[i := vs[i].(totalLoss := v)] && hs' == hs
    ensures Label(g, hs', vs', t) == v
    ensures forall c :: g.InGrid(c) && c != t ==> Label(g, hs', vs', c) == Label(g, hs, vs, c)
  {
    forall c | g.InGrid(c) && c != t ensures Label(g, hs', vs', c) == Label(g, hs, vs, c) {
      IndexBound(c.x, c.y, g.width, g.height);
      if Index(g.width, c.x, c.y) == Index(g.width, t.x, t.y) {
        RowUnique(g.width, c.x, c.y, t.x, t.y);
      }
    }
  }

  /**
   * The nested loops of `Grid::from`: one horizontal and one vertical tile per
   * digit, row by row, each with total loss `usize::MAX`.
   */
  method LayTiles(text: string) returns (hs: seq<Tile>, vs: seq<Tile>)
    requires DigitGrid(text)
    ensures var g := CostsOf(text);
      |hs| == |g.cells| && |vs| == |g.cells| &&
      Laid(hs, g.width, Horizontal) && Laid(vs, g.width, Vertical) &&
      (forall i :: 0 <= i < |hs| ==> hs[i].loss == g.cells[i] && hs[i].totalLoss == UsizeMax) &&
      (forall i :: 0 <= i < |vs| ==> vs[i].loss == g.cells[i] && vs[i].totalLoss == UsizeMax)
  {
    var ls := Lines(text);
    var w := |ls[0]|;
    ghost var g := CostsOf(text);
    hs, vs := [], [];
    var y := 0;
    while y < |ls|
      invariant 0 <= y <= |ls| && |hs| == Row(w, y) && |vs| == Row(w, y) && Row(w, y) <= |g.cells|
      invariant Laid(hs, w, Horizontal) && Laid(vs, w, Vertical)
      invariant Unvisited(hs, g.cells) && Unvisited(vs, g.cells)
    {
      var line := ls[y];
      RowLess(w, y, |ls|);
      var x := 0;
      while x < |line|
        invariant 0 <= x <= |line| == w && |hs| == Row(w, y) + x && |vs| == Row(w, y) + x
        invariant Laid(hs, w, Horizontal) && Laid(vs, w, Vertical)
        invariant Unvisited(hs, g.cells) && Unvisited(vs, g.cells)
      {
        var c := line[x];
        ConcatAt(ls, w, x, y);
        assert g.cells[Row(w, y) + x] == DigitValue(c);
        LaidAppend(hs, w, Horizontal, x, y, DigitValue(c));
        LaidAppend(vs, w, Vertical, x, y, DigitValue(c));
        UnvisitedAppend(hs, g.cells, Coord(x, y, Horizontal));
        UnvisitedAppend(vs, g.cells, Coord(x, y, Vertical));
        hs := hs + [Tile(Coord(x, y, Horizontal), DigitValue(c), UsizeMax)];
        vs := vs + [Tile(Coord(x, y, Vertical), DigitValue(c), UsizeMax)];
        x := x + 1;
      }
      y := y + 1;
    }
  }

  class Grid {
    const width: nat
    const height: nat
    ghost const costs: Costs
    const hTiles: array<Tile>
    const vTiles: array<Tile>

    ghost predicate Valid()
      reads this, hTiles, vTiles
    {
      costs.width == width && costs.height == height && costs.Valid() && width > 0 && height > 0 &&
      hTiles != vTiles && hTiles.Length == |costs.cells| && vTiles.Length == |costs.cells| &&
      Laid(hTiles[..], width, Horizontal) && Laid(vTiles[..], width, Vertical) &&
      (forall i :: 0 <= i < hTiles.Length ==> hTiles[i].loss == costs.cells[i] && hTiles[i].totalLoss <= UsizeMax) &&
      (forall i :: 0 <= i < vTiles.Length ==> vTiles[i].loss == costs.cells[i] && vTiles[i].totalLoss <= UsizeMax)
    }

    /** The state `Grid::from` leaves: index 0 of both arrays at 0, every other tile at `usize::MAX`. */
    ghost predicate Initial()
      reads this, hTiles, vTiles
    {
      (forall i :: 0 <= i < hTiles.Length ==> hTiles[i].totalLoss == if i == 0 then 0 else UsizeMax) &&
      (forall i :: 0 <= i < vTiles.Length ==> vTiles[i].totalLoss == if i == 0 then 0 else UsizeMax)
    }

    ghost function Total(c: Coord): nat
      reads this, hTiles, vTiles
      requires Valid() && costs.InGrid(c)
    {
      Label(costs, hTiles[..], vTiles[..], c)
    }

    ghost function Potential(): nat
      reads this, hTiles, vTiles
    {
      SumLoss(hTiles[..]) + SumLoss(vTiles[..])
    }

    /** `Grid::from`: one horizontal and one vertical tile per digit, row-major. */
    constructor (text: string)
      requires DigitGrid(text)
      ensures Valid() && Initial() && fresh(hTiles) && fresh(vTiles)
      ensures costs == CostsOf(text)
      ensures width == |Lines(text)[0]| && height == (|text| + 1) / (width + 1)
    {
      var ls := Lines(text);
      var w := |ls[0]|;
      HeightFromLength(text, w);
      var hs, vs := LayTiles(text);
      width := w;
      height := (|text| + 1) / (w + 1);
      costs := CostsOf(text);
      hTiles := new Tile[|hs|](i requires 0 <= i < |hs| => hs[i]);
      vTiles := new Tile[|vs|](i requires 0 <= i < |vs| => vs[i]);
      new;
      IndexBound(0, 0, width, height);
      assert hTiles[..] == hs && vTiles[..] == vs;
      vTiles[0] := vTiles[0].(totalLoss := 0);
      hTiles[0] := hTiles[0].(totalLoss := 0);
      assert hTiles[..] == hs[0 := hTiles[0]] && vTiles[..] == vs[0 := vTiles[0]];
      LaidSet(hs, width, Horizontal, 0, hTiles[0]);
      LaidSet(vs, width, Vertical, 0, vTiles[0]);
    }

    /** The tile at index i of the array for `move` carries coordinate (x, y, move). */
    lemma TileAt(x: nat, y: nat, move: Axis)
      requires Valid() && x < width && y < height
      ensures Index(width, x, y) < hTiles.Length
      ensures move == Horizontal ==> hTiles[Index(width, x, y)].coord == Coord(x, y, move)
      ensures move == Vertical ==> vTiles[Index(width, x, y)].coord == Coord(x, y, move)
      ensures hTiles[Index(width, x, y)].loss == costs.At(x, y) && vTiles[Index(width, x, y)].loss == costs.At(x, y)
    {
      IndexBound(x, y, width, height);
    }

    /** No tile's total loss exceeds `usize::MAX`. */
    lemma LabelBounded(c: Coord)
      requires Valid() && costs.InGrid(c)
      ensures Label(costs, hTiles[..], vTiles[..], c) <= UsizeMax
    {
      IndexBound(c.x, c.y, width, height);
    }

    /** After `Grid::from` both origin tiles have total loss 0 and every other tile `usize::MAX`. */
    lemma InitialLabels()
      requires Valid() && Initial()
      ensures forall c :: costs.InGrid(c) ==> Total(c) == if IsOrigin(c) then 0 else UsizeMax
    {
      forall c | costs.InGrid(c)
        ensures Total(c) == if IsOrigin(c) then 0 else UsizeMax
      {
        IndexBound(c.x, c.y, width, height);
        if c.y > 0 {
          RowLess(width, 0, c.y);
        }
      }
    }

    /** The last tile of each array is the bottom-right cell's. */
    lemma CornerTotals()
      requires Valid()
      ensures hTiles.Length > 0 && vTiles.Length == hTiles.Length
      ensures hTiles[hTiles.Length - 1].totalLoss == Label(costs, hTiles[..], vTiles[..], Corner(costs, Horizontal))
      ensures vTiles[vTiles.Length - 1].totalLoss == Label(costs, hTiles[..], vTiles[..], Corner(costs, Vertical))
    {
      IndexBound(width - 1, height - 1, width, height);
      assert Index(width, width - 1, height - 1) == hTiles.Length - 1;
    }

    /** The runs of lengths 1..=last(rng) from (x, y) along `move` in direction `sign`. */
    method Run(x: nat, y: nat, move: Axis, sign: int, lo: int, hi: int) returns (run: seq<Step>)
      requires Valid() && x < width && y < height && (sign == -1 || sign == 1)
      ensures run == RunSteps(costs, x, y, move, sign, lo, Top(hi))
    {
      run := [];
      var loss := 0;
      var n := 1;
      while n <= hi
        invariant 1 <= n && n - 1 <= Top(hi)
        invariant run == RunSteps(costs, x, y, move, sign, lo, n - 1)
        invariant Inside(costs, Reach(x, y, move, sign, n - 1)) ==>
          loss == RunLoss(costs, x, y, move, sign, n - 1)
      {
        run, loss := RunStep(x, y, move, sign, lo, n, run, loss);
        n := n + 1;
      }
    }

    /** Step n of a run: when (x, y) moved n cells is inside the grid, its loss is added and, from lo on, it is listed. */
    method RunStep(x: nat, y: nat, move: Axis, sign: int, lo: int, n: nat, run: seq<Step>, loss: nat)
      returns (run': seq<Step>, loss': nat)
      requires Valid() && x < width && y < height && (sign == -1 || sign == 1) && n >= 1
      requires run == RunSteps(costs, x, y, move, sign, lo, n - 1)
      requires Inside(costs, Reach(x, y, move, sign, n - 1)) ==> loss == RunLoss(costs, x, y, move, sign, n - 1)
      ensures run' == RunSteps(costs, x, y, move, sign, lo, n)
      ensures Inside(costs, Reach(x, y, move, sign, n)) ==> loss' == RunLoss(costs, x, y, move, sign, n)
    {
      run', loss' := run, loss;
      var p := Reach(x, y, move, sign, n);
      RunSnoc(costs, x, y, move, sign, lo, n);
      if 0 <= p.0 < width && 0 <= p.1 < height {
        TileAt(p.0, p.1, move);
        var i := Index(width, p.0, p.1);
        var tile := if move == Horizontal then hTiles[i] else vTiles[i];
        loss' := loss + tile.loss;
        if n >= lo {
          run' := run + [Step(tile.coord, loss')];
        }
      }
    }

    /** `get_horizontal`: horizontal runs from (x, y), to the left first, ending on h-tiles. */
    method GetHorizontal(x: nat, y: nat, rng: seq<int>) returns (steps: seq<Step>)
      requires Valid() && x < width && y < height && |rng| > 0
      ensures steps == Steps(costs, x, y, Horizontal, First(rng), Last(rng))
      ensures forall s :: s in steps ==> s.tile.d == Horizontal && s.tile.y == y
    {
      steps := [];
      var signs := [-1, 1];
      for k := 0 to |signs|
        invariant k == 0 ==> steps == []
        invariant k == 1 ==> steps == RunSteps(costs, x, y, Horizontal, -1, First(rng), Top(Last(rng)))
        invariant k == 2 ==> steps == Steps(costs, x, y, Horizontal, First(rng), Last(rng))
      {
        var sign := signs[k];
        var run := Run(x, y, Horizontal, sign, First(rng), Last(rng));
        steps := steps + run;
      }
      forall s | s in steps ensures s.tile.d == Horizontal && s.tile.y == y {
        StepsSound(costs, Coord(x, y, Vertical), First(rng), Last(rng), s);
      }
    }

    /** `get_vertical`: vertical runs from (x, y), upwards first, ending on v-tiles. */
    method GetVertical(x: nat, y: nat, rng: seq<int>) returns (steps: seq<Step>)
      requires Valid() && x < width && y < height && |rng| > 0
      ensures steps == Steps(costs, x, y, Vertical, First(rng), Last(rng))
      ensures forall s :: s in steps ==> s.tile.d == Vertical && s.tile.x == x
    {
      steps := [];
      var signs := [-1, 1];
      for k := 0 to |signs|
        invariant k == 0 ==> steps == []
        invariant k == 1 ==> steps == RunSteps(costs, x, y, Vertical, -1, First(rng), Top(Last(rng)))
        invariant k == 2 ==> steps == Steps(costs, x, y, Vertical, First(rng), Last(rng))
      {
        var sign := signs[k];
        var run := Run(x, y, Vertical, sign, First(rng), Last(rng));
        steps := steps + run;
      }
      forall s | s in steps ensures s.tile.d == Vertical && s.tile.x == x {
        StepsSound(costs, Coord(x, y, Horizontal), First(rng), Last(rng), s);
      }
    }

    /**
     * `update`: lowers the target's total loss to src + step loss and queues it,
     * only when that is a strict improvement.
     */
    method Update(src: Coord, next: Step, heap: seq<Entry>) returns (heap': seq<Entry>)
      requires Valid() && costs.InGrid(src) && costs.InGrid(next.tile)
      modifies hTiles, vTiles
      ensures Valid()
      ensures Updated(costs, old(hTiles[..]), old(vTiles[..]), hTiles[..], vTiles[..], heap, heap', src, next)
      ensures Potential() + |heap'| <= old(Potential()) + |heap|
    {
      var t := next.tile;
      IndexBound(src.x, src.y, width, height);
      IndexBound(t.x, t.y, width, height);
      var si := Index(width, src.x, src.y);
      var ti := Index(width, t.x, t.y);
      var srcLoss := if src.d == Horizontal then hTiles[si].totalLoss else vTiles[si].totalLoss;
      var newLoss := srcLoss + next.loss;
      var cur := if t.d == Horizontal then hTiles[ti].totalLoss else vTiles[ti].totalLoss;
      ghost var hs, vs := hTiles[..], vTiles[..];
      if newLoss < cur {
        Lower(t.d, ti, newLoss);
        heap' := heap + [Entry(newLoss, t)];
        UpdatedSet(costs, hs, vs, hTiles[..], vTiles[..], heap, heap', src, next);
      } else {
        heap' := heap;
        assert hTiles[..] == hs && vTiles[..] == vs;
        UpdatedKept(costs, hs, vs, heap, src, next);
      }
    }

    /** The assignment in `update`: tile ti of the array for d gets total loss v, below its current one. */
    method Lower(d: Axis, ti: nat, v: nat)
      requires Valid() && ti < hTiles.Length
      requires v < if d == Horizontal then hTiles[ti].totalLoss else vTiles[ti].totalLoss
      modifies hTiles, vTiles
      ensures Valid() && Potential() < old(Potential())
      ensures d == Horizontal ==> hTiles[..] == old(hTiles[..])[ti := old(hTiles[ti]).(totalLoss := v)] && vTiles[..] == old(vTiles[..])
      ensures d == Vertical ==> vTiles[..] == old(vTiles[..])[ti := old(vTiles[ti]).(totalLoss := v)] && hTiles[..] == old(hTiles[..])
    {
      ghost var hs, vs := hTiles[..], vTiles[..];
      if d == Horizontal {
        TileLowered(hs, width, Horizontal, costs.cells, ti, v);
        hTiles[ti] := hTiles[ti].(totalLoss := v);
        assert hTiles[..] == hs[ti := hTiles[ti]] && vTiles[..] == vs;
      } else {
        TileLowered(vs, width, Vertical, costs.cells, ti, v);
        vTiles[ti] := vTiles[ti].(totalLoss := v);
        assert vTiles[..] == vs[ti := vTiles[ti]] && hTiles[..] == hs;
      }
    }

    /**
     * The `for step in next_tiles` loop of `solution`: relaxes every step out of
     * the popped tile c, queueing each improved target, and records the walk
     * that achieves each new label.  Afterwards c is relaxed.
     */
    method RelaxAll(c: Coord, steps: seq<Step>, lo: int, hi: int, heap: seq<Entry>, ghost w: map<Coord, seq<Coord>>)
      returns (heap': seq<Entry>, ghost w': map<Coord, seq<Coord>>)
      requires Valid() && costs.InGrid(c) && steps == Steps(costs, c.x, c.y, Flip(c.d), lo, hi)
      requires Total(c) < UsizeMax
      requires Queued(costs, hTiles[..], vTiles[..], heap)
      requires Witnessed(costs, lo, hi, hTiles[..], vTiles[..], w)
      requires Covered(costs, lo, hi, hTiles[..], vTiles[..], heap, {c})
      modifies hTiles, vTiles
      ensures Valid() && LoweredExcept(costs, old(hTiles[..]), old(vTiles[..]), hTiles[..], vTiles[..], c)
      ensures Queued(costs, hTiles[..], vTiles[..], heap')
      ensures Witnessed(costs, lo, hi, hTiles[..], vTiles[..], w')
      ensures Covered(costs, lo, hi, hTiles[..], vTiles[..], heap', {})
      ensures Potential() + |heap'| <= old(Potential()) + |heap|
    {
      heap' := heap;
      w' := w;
      ghost var hs0, vs0 := hTiles[..], vTiles[..];
      ghost var hs, vs := hs0, vs0;
      ghost var lc := Label(costs, hs, vs, c);
      for i := 0 to |steps|
        invariant Valid() && hs == hTiles[..] && vs == vTiles[..]
        invariant LoweredExcept(costs, hs0, vs0, hs, vs, c)
        invariant Within(costs, hs, vs, steps, i, lc)
        invariant Queued(costs, hs, vs, heap')
        invariant Witnessed(costs, lo, hi, hs, vs, w')
        invariant Covered(costs, lo, hi, hs, vs, heap', {c})
        invariant Potential() + |heap'| <= old(Potential()) + |heap|
      {
        heap', w' := RelaxOne(c, steps, i, lo, hi, lc, hs0, vs0, heap', w');
        hs, vs := hTiles[..], vTiles[..];
      }
      StepsRelax(costs, lo, hi, hs, vs, c, steps, lc);
      CoveredDone(costs, lo, hi, hs, vs, heap', c);
    }

    /** One pass of the `for step in next_tiles` loop: `update` on step i keeps every invariant of the loop. */
    method RelaxOne(c: Coord, steps: seq<Step>, i: nat, lo: int, hi: int, ghost lc: nat,
      ghost hs0: seq<Tile>, ghost vs0: seq<Tile>, heap: seq<Entry>, ghost w: map<Coord, seq<Coord>>)
      returns (heap': seq<Entry>, ghost w': map<Coord, seq<Coord>>)
      requires Valid() && costs.InGrid(c) && steps == Steps(costs, c.x, c.y, Flip(c.d), lo, hi) && i < |steps|
      requires Sized(costs, hs0, vs0) && LoweredExcept(costs, hs0, vs0, hTiles[..], vTiles[..], c)
      requires Label(costs, hTiles[..], vTiles[..], c) == lc < UsizeMax
      requires Within(costs, hTiles[..], vTiles[..], steps, i, lc)
      requires Queued(costs, hTiles[..], vTiles[..], heap)
      requires Witnessed(costs, lo, hi, hTiles[..], vTiles[..], w)
      requires Covered(costs, lo, hi, hTiles[..], vTiles[..], heap, {c})
      modifies hTiles, vTiles
      ensures Valid() && LoweredExcept(costs, hs0, vs0, hTiles[..], vTiles[..], c)
      ensures Within(costs, hTiles[..], vTiles[..], steps, i + 1, lc)
      ensures Queued(costs, hTiles[..], vTiles[..], heap')
      ensures Witnessed(costs, lo, hi, hTiles[..], vTiles[..], w')
      ensures Covered(costs, lo, hi, hTiles[..], vTiles[..], heap', {c})
      ensures Potential() + |heap'| <= old(Potential()) + |heap|
    {
      ghost var hs, vs := hTiles[..], vTiles[..];
      var s := steps[i];
      StepsSound(costs, c, lo, hi, s);
      LabelBounded(s.tile);
      heap' := Update(c, s, heap);
      ghost var hs', vs' := hTiles[..], vTiles[..];
      w' := StepAll(costs, lo, hi, hs0, vs0, hs, vs, hs', vs', heap, heap', c, steps, i, lc, w);
    }

    /**
     * The `while let Some(t) = heap.pop()` loop of `solution`, seeded with both
     * origin tiles; runs until the heap is empty.
     */
    method Search(rng: seq<int>) returns (ghost w: map<Coord, seq<Coord>>)
      requires Valid() && Initial() && |rng| > 0
      modifies hTiles, vTiles
      ensures Valid()
      ensures Below(costs, hTiles[..], vTiles[..], old(hTiles[..]), old(vTiles[..]))
      ensures forall p :: IsWalk(costs, First(rng), Last(rng), p) && IsOrigin(p[0]) ==>
        Label(costs, hTiles[..], vTiles[..], p[|p| - 1]) <= WalkCost(costs, First(rng), Last(rng), p)
      ensures Witnessed(costs, First(rng), Last(rng), hTiles[..], vTiles[..], w)
    {
      var lo, hi := First(rng), Last(rng);
      var h0, v0 := Coord(0, 0, Horizontal), Coord(0, 0, Vertical);
      var heap := [Entry(0, h0), Entry(0, v0)];
      ghost var hsInit, vsInit := hTiles[..], vTiles[..];
      InitialLabels();
      w := Seeded(costs, lo, hi, hsInit, vsInit, heap);
      while heap != []
        invariant Valid()
        invariant Below(costs, hTiles[..], vTiles[..], hsInit, vsInit)
        invariant Queued(costs, hTiles[..], vTiles[..], heap)
        invariant Witnessed(costs, lo, hi, hTiles[..], vTiles[..], w)
        invariant Covered(costs, lo, hi, hTiles[..], vTiles[..], heap, {})
        decreases Potential() + |heap|
      {
        var t, rest := PopMin(heap);
        var c := t.node;
        var nextTiles;
        if c.d == Horizontal {
          nextTiles := GetVertical(c.x, c.y, rng);
        } else {
          nextTiles := GetHorizontal(c.x, c.y, rng);
        }
        Popped(costs, lo, hi, hTiles[..], vTiles[..], heap, rest, t);
        ghost var hs, vs := hTiles[..], vTiles[..];
        heap, w := RelaxAll(c, nextTiles, lo, hi, rest, w);
        BelowTrans(costs, hTiles[..], vTiles[..], hs, vs, hsInit, vsInit, c);
      }
      Optimal(costs, lo, hi, hTiles[..], vTiles[..], hsInit, vsInit, heap);
    }
  }

  /** The tile of the bottom-right cell on axis d. */
  function Corner(g: Costs, d: Axis): Coord
    requires g.width > 0 && g.height > 0
  {
    Coord(g.width - 1, g.height - 1, d)
  }

  /**
   * The smaller of the two corner labels bounds every corner walk from below
   * and, when finite, is the cost of a recorded corner walk.
   */
  lemma CornerBest(g: Costs, lo: int, hi: int, hs: seq<Tile>, vs: seq<Tile>, w: map<Coord, seq<Coord>>, answer: nat)
    returns (best: seq<Coord>)
    requires Sized(g, hs, vs) && g.width > 0 && g.height > 0 && Witnessed(g, lo, hi, hs, vs, w)
    requires forall p :: IsWalk(g, lo, hi, p) && IsOrigin(p[0]) ==> Label(g, hs, vs, p[|p| - 1]) <= WalkCost(g, lo, hi, p)
    requires var h, v := Label(g, hs, vs, Corner(g, Horizontal)), Label(g, hs, vs, Corner(g, Vertical));
      answer == if h <= v then h else v
    ensures forall p :: CornerWalk(g, lo, hi, p) ==> answer <= WalkCost(g, lo, hi, p)
    ensures answer < UsizeMax ==> CornerWalk(g, lo, hi, best) && WalkCost(g, lo, hi, best) == answer
  {
    var hc, vc := Corner(g, Horizontal), Corner(g, Vertical);
    best := [];
    if answer < UsizeMax {
      best := if Label(g, hs, vs, hc) <= Label(g, hs, vs, vc) then w[hc] else w[vc];
    }
    forall p | CornerWalk(g, lo, hi, p) ensures answer <= WalkCost(g, lo, hi, p) {
      var last := p[|p| - 1];
      assert last == hc || last == vc;
    }
  }

  /** A walk from the origin to either tile of the bottom-right cell. */
  predicate CornerWalk(g: Costs, lo: int, hi: int, p: seq<Coord>) {
    IsWalk(g, lo, hi, p) && IsOrigin(p[0]) &&
    p[|p| - 1].x + 1 == g.width && p[|p| - 1].y + 1 == g.height
  }

  /**
   * `solution`: the least heat loss over all walks from the top-left to the
   * bottom-right cell, or `usize::MAX` if there is none cheaper than that.
   */
  method Solution(text: string, rng: seq<int>) returns (answer: nat, ghost best: seq<Coord>)
    requires DigitGrid(text) && |rng| > 0
    ensures answer <= UsizeMax
    ensures forall p :: CornerWalk(CostsOf(text), First(rng), Last(rng), p) ==>
      answer <= WalkCost(CostsOf(text), First(rng), Last(rng), p)
    ensures answer < UsizeMax ==>
      CornerWalk(CostsOf(text), First(rng), Last(rng), best) &&
      WalkCost(CostsOf(text), First(rng), Last(rng), best) == answer
  {
    var grid := new Grid(text);
    ghost var w := grid.Search(rng);
    grid.CornerTotals();
    var h := grid.hTiles[grid.hTiles.Length - 1].totalLoss;
    var v := grid.vTiles[grid.vTiles.Length - 1].totalLoss;
    answer := if h <= v then h else v;
    best := CornerBest(grid.costs, First(rng), Last(rng), grid.hTiles[..], grid.vTiles[..], w, answer);
  }

  /** `main`: the answers for run lengths 1..=3 and 4..=10. */
  method Answers(text: string) returns (part1: nat, part2: nat)
    requires DigitGrid(text)
    ensures part1 <= UsizeMax && part2 <= UsizeMax
    ensures forall p :: CornerWalk(CostsOf(text), 1, 3, p) ==> part1 <= WalkCost(CostsOf(text), 1, 3, p)
    ensures part1 < UsizeMax ==> exists p :: CornerWalk(CostsOf(text), 1, 3, p) && WalkCost(CostsOf(text), 1, 3, p) == part1
    ensures forall p :: CornerWalk(CostsOf(text), 4, 10, p) ==> part2 <= WalkCost(CostsOf(text), 4, 10, p)
    ensures part2 < UsizeMax ==> exists p :: CornerWalk(CostsOf(text), 4, 10, p) && WalkCost(CostsOf(text), 4, 10, p) == part2
  {
    ghost var b1, b2;
    assert First(Part1Range) == 1 && Last(Part1Range) == 3;
    assert First(Part2Range) == 4 && Last(Part2Range) == 10;
    part1, b1 := Solution(text, Part1Range);
    part2, b2 := Solution(text, Part2Range);
  }
}
