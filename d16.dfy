/**
 * The light-beam contraption (src/bin/d16.rs): a grid of mirrors '/' '\',
 * splitters '|' '-' and empty tiles '.', lit by a beam that is followed
 * with a stack of (tile, side entered from) pairs.
 */
module D16 {
  import opened Text

  datatype TileType = Pipe | Dash | Slash | BackSlash | Empty

  /** The side of a tile a beam entered it from. */
  datatype Direction = Top | Bottom | Left | Right

  datatype Tile = Tile(kind: TileType, lit: bool, litFrom: seq<Direction>)

  datatype Coord = Coord(x: nat, y: nat)

  /** A beam entering the tile at `at` from side `from`. */
  datatype Beam = Beam(at: Coord, from: Direction)

  predicate IsTileChar(c: char) {
    c == '.' || c == '|' || c == '-' || c == '/' || c == '\\'
  }

  predicate AllTileChars(s: string) {
    forall i :: 0 <= i < |s| ==> IsTileChar(s[i])
  }

  /** The character match of `Grid::from`; any other character is unreachable. */
  function KindOf(c: char): TileType
    requires IsTileChar(c)
  {
    match c
    case '.' => Empty
    case '|' => Pipe
    case '-' => Dash
    case '/' => Slash
    case _ => BackSlash
  }

  function Kinds(s: string): seq<TileType>
    requires AllTileChars(s)
  {
    seq(|s|, i requires 0 <= i < |s| => KindOf(s[i]))
  }

  function Opposite(d: Direction): Direction {
    match d
    case Top => Bottom
    case Bottom => Top
    case Left => Right
    case Right => Left
  }

  predicate Vertical(d: Direction) {
    d == Top || d == Bottom
  }

  /**
   * The sides through which the beams leaving a tile enter their next tiles,
   * in the order the match arms of `illuminate` push them. A beam passes
   * straight through an empty tile and along a splitter's axis, a mirror
   * turns it by a right angle (and the path reverses), and a splitter hit
   * broadside sends one beam each way.
   */
  function Exits(k: TileType, d: Direction): (es: seq<Direction>)
    ensures |es| == 1 || |es| == 2
    ensures |es| == 2 <==> (k == Pipe && !Vertical(d)) || (k == Dash && Vertical(d))
    ensures |es| == 2 ==> es[1] == Opposite(es[0]) && Vertical(es[0]) != Vertical(d)
    ensures |es| == 1 && (k == Empty || k == Pipe || k == Dash) ==> es == [d]
    ensures k == Slash || k == BackSlash ==> |es| == 1 && Vertical(es[0]) != Vertical(d)
  {
    match k
    case Empty => [d]
    case Pipe => if Vertical(d) then [d] else [Bottom, Top]
    case Dash => if Vertical(d) then [Left, Right] else [d]
    case Slash =>
      (match d
       case Bottom => [Left]
       case Top => [Right]
       case Right => [Top]
       case Left => [Bottom])
    case BackSlash =>
      (match d
       case Top => [Left]
       case Bottom => [Right]
       case Left => [Top]
       case Right => [Bottom])
  }

  /** A mirror sends a beam back the way it came when it arrives along the outgoing path. */
  lemma MirrorReversible(k: TileType, d: Direction)
    requires k == Slash || k == BackSlash
    ensures Exits(k, Opposite(Exits(k, d)[0])) == [Opposite(d)]
  {
  }

  /**
   * The tile a beam moves to when it will enter it from side e, if the
   * source's bound check lets it: x + 1 only below `width - 1`, y + 1 only
   * below `lim - 1`, x - 1 and y - 1 only above 0.
   */
  function Move(c: Coord, e: Direction, w: nat, lim: nat): (r: Option<Coord>)
    ensures r.Some? && c.x < w ==> r.value.x < w
    ensures r.Some? ==> r.value.y < lim || r.value.y <= c.y
  {
    match e
    case Left => if c.x + 1 < w then Some(Coord(c.x + 1, c.y)) else None
    case Right => if c.x > 0 then Some(Coord(c.x - 1, c.y)) else None
    case Top => if c.y + 1 < lim then Some(Coord(c.x, c.y + 1)) else None
    case Bottom => if c.y > 0 then Some(Coord(c.x, c.y - 1)) else None
  }

  /** Moving back across the side a beam entered from returns to the tile it left. */
  lemma MoveBack(c: Coord, e: Direction, w: nat, lim: nat)
    requires c.x < w && c.y < lim && Move(c, e, w, lim).Some?
    ensures Move(Move(c, e, w, lim).value, Opposite(e), w, lim) == Some(c)
  {
  }

  /** The beams pushed for the exits es of the tile at c. */
  function Follow(es: seq<Direction>, c: Coord, w: nat, lim: nat): (r: seq<Beam>)
    ensures |r| <= |es|
    ensures forall q :: q in r <==> q.from in es && Move(c, q.from, w, lim) == Some(q.at)
  {
    if es == [] then []
    else
      var rest := Follow(es[1..], c, w, lim);
      assert forall e :: e in es <==> e == es[0] || e in es[1..];
      match Move(c, es[0], w, lim)
      case None => rest
      case Some(n) => [Beam(n, es[0])] + rest
  }

  /** A grid of tile types, with the row-major layout of `Grid`. */
  datatype Contraption = Contraption(kinds: seq<TileType>, width: nat, height: nat)

  predicate WellSized(g: Contraption) {
    g.width >= 1 && |g.kinds| == Row(g.width, g.height)
  }

  predicate InGrid(g: Contraption, c: Coord) {
    c.x < g.width && c.y < g.height
  }

  /** `y * width + x`. */
  function Index(w: nat, c: Coord): nat {
    Row(w, c.y) + c.x
  }

  function KindAt(g: Contraption, c: Coord): TileType
    requires WellSized(g) && InGrid(g, c)
  {
    IndexBound(c.x, c.y, g.width, g.height);
    g.kinds[Index(g.width, c)]
  }

  /**
   * The pairs one expansion of beam b pushes, with lim the row count the
   * downward move is checked against. Each pushed beam enters its tile
   * through one of the exits of b's tile and lies next to b's tile.
   */
  function Next(g: Contraption, lim: nat, b: Beam): (r: seq<Beam>)
    ensures |r| <= 2
    ensures forall q :: q in r ==> q.at.x < g.width && (q.at.y < lim || q.at.y <= b.at.y)
    ensures forall q :: q in r <==> WellSized(g) && InGrid(g, b.at) && q.from in Exits(KindAt(g, b.at), b.from) && Move(b.at, q.from, g.width, lim) == Some(q.at)
  {
    if WellSized(g) && InGrid(g, b.at) then Follow(Exits(KindAt(g, b.at), b.from), b.at, g.width, lim) else []
  }

  /** Step i of p follows one expansion. */
  ghost predicate Link(g: Contraption, lim: nat, p: seq<Beam>, i: nat)
    requires i + 1 < |p|
  {
    p[i + 1] in Next(g, lim, p[i])
  }

  ghost predicate IsPath(g: Contraption, lim: nat, p: seq<Beam>) {
    |p| > 0 && forall i: nat :: i + 1 < |p| ==> Link(g, lim, p, i)
  }

  /** The reference semantics: b lies on a chain of expansions starting at s. */
  ghost predicate Reachable(g: Contraption, lim: nat, s: Beam, b: Beam) {
    exists p :: IsPath(g, lim, p) && p[0] == s && p[|p| - 1] == b
  }

  lemma ReachStart(g: Contraption, lim: nat, s: Beam)
    ensures Reachable(g, lim, s, s)
  {
    assert IsPath(g, lim, [s]);
  }

  lemma ReachStep(g: Contraption, lim: nat, s: Beam, b: Beam, q: Beam)
    requires Reachable(g, lim, s, b) && q in Next(g, lim, b)
    ensures Reachable(g, lim, s, q)
  {
    var p :| IsPath(g, lim, p) && p[0] == s && p[|p| - 1] == b;
    PathSnoc(g, lim, p, q);
    var p' := p + [q];
    assert p'[0] == s && p'[|p'| - 1] == q;
  }

  /** A path extended by one expansion of its last beam is a path. */
  lemma PathSnoc(g: Contraption, lim: nat, p: seq<Beam>, q: Beam)
    requires IsPath(g, lim, p) && q in Next(g, lim, p[|p| - 1])
    ensures IsPath(g, lim, p + [q])
  {
    var p' := p + [q];
    forall i: nat | i + 1 < |p'|
      ensures Link(g, lim, p', i)
    {
      if i + 1 < |p| {
        assert p'[i] == p[i] && p'[i + 1] == p[i + 1];
        assert Link(g, lim, p, i);
      } else {
        assert i == |p| - 1;
        assert p'[i] == p[|p| - 1] && p'[i + 1] == q;
      }
    }
  }

  /** With the bound at most the height, every beam on a path stays inside the grid. */
  lemma {:induction false} PathInGrid(g: Contraption, lim: nat, p: seq<Beam>)
    requires IsPath(g, lim, p) && InGrid(g, p[0].at) && lim <= g.height
    ensures InGrid(g, p[|p| - 1].at)
  {
    if |p| > 1 {
      var p' := p[..|p| - 1];
      assert IsPath(g, lim, p') by {
        forall i: nat | i + 1 < |p'| ensures Link(g, lim, p', i) {
          assert Link(g, lim, p, i);
        }
      }
      PathInGrid(g, lim, p');
      assert Link(g, lim, p, |p| - 2);
    }
  }

  /** Beams never move below row lim - 1 once they are above it. */
  lemma {:induction false} PathAbove(g: Contraption, lim: nat, p: seq<Beam>)
    requires IsPath(g, lim, p) && p[0].at.y < lim
    ensures p[|p| - 1].at.y < lim
  {
    if |p| > 1 {
      var p' := p[..|p| - 1];
      assert IsPath(g, lim, p') by {
        forall i: nat | i + 1 < |p'| ensures Link(g, lim, p', i) {
          assert Link(g, lim, p, i);
        }
      }
      PathAbove(g, lim, p');
      assert Link(g, lim, p, |p| - 2);
    }
  }

  /** `is_illuminated_from`. */
  predicate IsIlluminatedFrom(t: Tile, d: Direction) {
    t.lit && d in t.litFrom
  }

  /** Beam b has been expanded: its tile records its side. */
  predicate Lit(tiles: seq<Tile>, w: nat, b: Beam) {
    Index(w, b.at) < |tiles| && b.from in tiles[Index(w, b.at)].litFrom
  }

  /** A tile is lit exactly when it records a side. */
  predicate Consistent(tiles: seq<Tile>) {
    forall i :: 0 <= i < |tiles| ==> (tiles[i].lit <==> tiles[i].litFrom != [])
  }

  predicate Dark(tiles: seq<Tile>) {
    forall i :: 0 <= i < |tiles| ==> !tiles[i].lit && tiles[i].litFrom == []
  }

  function KindsOf(tiles: seq<Tile>): seq<TileType> {
    seq(|tiles|, i requires 0 <= i < |tiles| => tiles[i].kind)
  }

  /** `num_energised`: the number of lit tiles. */
  function LitCount(tiles: seq<Tile>): (n: nat)
    ensures n <= |tiles|
    ensures n == 0 <==> forall i :: 0 <= i < |tiles| ==> !tiles[i].lit
  {
    if tiles == [] then 0
    else
      var last := tiles[|tiles| - 1];
      var before := tiles[..|tiles| - 1];
      assert forall i :: 0 <= i < |before| ==> before[i] == tiles[i];
      LitCount(before) + (if last.lit then 1 else 0)
  }

  /** The indices of the lit tiles. */
  ghost function LitSet(tiles: seq<Tile>): set<nat> {
    set i: nat | i < |tiles| && tiles[i].lit
  }

  /** Counting the lit tiles one by one counts the set of lit indices. */
  lemma {:induction false} LitCountIsCard(tiles: seq<Tile>)
    ensures LitCount(tiles) == |LitSet(tiles)|
  {
    if tiles != [] {
      var last := |tiles| - 1;
      var before := tiles[..last];
      LitCountIsCard(before);
      if tiles[last].lit {
        assert LitSet(tiles) == LitSet(before) + {last};
      } else {
        assert LitSet(tiles) == LitSet(before);
      }
    }
  }

  /** The sides from which a tile has not been lit yet: the termination measure of `illuminate`. */
  function Missing(t: Tile): nat {
    (if Top in t.litFrom then 0 else 1) + (if Bottom in t.litFrom then 0 else 1)
    + (if Left in t.litFrom then 0 else 1) + (if Right in t.litFrom then 0 else 1)
  }

  function Unlit(tiles: seq<Tile>): nat {
    if tiles == [] then 0 else Unlit(tiles[..|tiles| - 1]) + Missing(tiles[|tiles| - 1])
  }

  lemma {:induction false} UnlitUpdate(tiles: seq<Tile>, i: nat, t: Tile)
    requires i < |tiles|
    ensures Unlit(tiles[i := t]) + Missing(tiles[i]) == Unlit(tiles) + Missing(t)
  {
    var n := |tiles| - 1;
    if i < n {
      assert tiles[i := t][..n] == tiles[..n][i := t];
      UnlitUpdate(tiles[..n], i, t);
    } else {
      assert tiles[i := t][..n] == tiles[..n];
    }
  }

  lemma MissingAdd(t: Tile, d: Direction)
    requires d !in t.litFrom
    ensures Missing(Tile(t.kind, true, t.litFrom + [d])) + 1 == Missing(t)
  {
    var l := t.litFrom + [d];
    assert forall e :: e in l <==> e in t.litFrom || e == d;
  }

  /** Every lit pair is reachable from s. */
  ghost predicate Sound(g: Contraption, lim: nat, s: Beam, tiles: seq<Tile>) {
    forall b: Beam :: InGrid(g, b.at) && Lit(tiles, g.width, b) ==> Reachable(g, lim, s, b)
  }

  /** Every pending pair lies in the grid and is reachable from s. */
  ghost predicate Queued(g: Contraption, lim: nat, s: Beam, queue: seq<Beam>) {
    forall k :: 0 <= k < |queue| ==> InGrid(g, queue[k].at) && Reachable(g, lim, s, queue[k])
  }

  /** Every expansion of a lit pair is lit or still pending. */
  ghost predicate Closed(g: Contraption, lim: nat, tiles: seq<Tile>, queue: seq<Beam>) {
    forall b: Beam :: InGrid(g, b.at) && Lit(tiles, g.width, b) ==> forall q :: q in Next(g, lim, b) ==> Lit(tiles, g.width, q) || q in queue
  }

  /** The loop invariant of `illuminate`. */
  ghost predicate Explored(g: Contraption, lim: nat, s: Beam, tiles: seq<Tile>, queue: seq<Beam>) {
    && WellSized(g) && lim <= g.height && |tiles| == |g.kinds| && InGrid(g, s.at)
    && Sound(g, lim, s, tiles) && Queued(g, lim, s, queue) && Closed(g, lim, tiles, queue)
    && (Lit(tiles, g.width, s) || s in queue)
  }

  /** Lighting q adds exactly the pair q. */
  lemma LitAfter(tiles: seq<Tile>, tiles': seq<Tile>, w: nat, h: nat, q: Beam)
    requires |tiles| == Row(w, h) && q.at.x < w && q.at.y < h
    requires Index(w, q.at) < |tiles|
    requires tiles' == tiles[Index(w, q.at) := Tile(tiles[Index(w, q.at)].kind, true, tiles[Index(w, q.at)].litFrom + [q.from])]
    ensures forall b: Beam :: b.at.x < w && b.at.y < h ==> (Lit(tiles', w, b) <==> Lit(tiles, w, b) || b == q)
  {
    forall b: Beam | b.at.x < w && b.at.y < h
      ensures Lit(tiles', w, b) <==> Lit(tiles, w, b) || b == q
    {
      IndexBound(b.at.x, b.at.y, w, h);
      if Index(w, b.at) == Index(w, q.at) {
        RowUnique(w, b.at.x, b.at.y, q.at.x, q.at.y);
      }
    }
  }

  lemma InitialExplored(g: Contraption, lim: nat, s: Beam, tiles: seq<Tile>)
    requires WellSized(g) && lim <= g.height && |tiles| == |g.kinds| && InGrid(g, s.at) && Dark(tiles)
    ensures Explored(g, lim, s, tiles, [s])
  {
    ReachStart(g, lim, s);
  }

  /** Popping a pair that is already lit keeps the invariant. */
  lemma StepSeen(g: Contraption, lim: nat, s: Beam, tiles: seq<Tile>, rest: seq<Beam>, q: Beam)
    requires Explored(g, lim, s, tiles, rest + [q]) && Lit(tiles, g.width, q)
    ensures Explored(g, lim, s, tiles, rest)
  {
    assert Queued(g, lim, s, rest) by {
      forall k | 0 <= k < |rest| ensures InGrid(g, rest[k].at) && Reachable(g, lim, s, rest[k]) {
        assert rest[k] == (rest + [q])[k];
      }
    }
  }

  /** Lighting a popped pair and pushing its expansions keeps the invariant. */
  lemma StepNew(g: Contraption, lim: nat, s: Beam, tiles: seq<Tile>, tiles': seq<Tile>, rest: seq<Beam>, q: Beam)
    requires Explored(g, lim, s, tiles, rest + [q]) && !Lit(tiles, g.width, q)
    requires Index(g.width, q.at) < |tiles|
    requires tiles' == tiles[Index(g.width, q.at) := Tile(tiles[Index(g.width, q.at)].kind, true, tiles[Index(g.width, q.at)].litFrom + [q.from])]
    ensures Explored(g, lim, s, tiles', rest + Next(g, lim, q))
  {
    var queue := rest + [q];
    assert q == queue[|queue| - 1];
    LitAfter(tiles, tiles', g.width, g.height, q);
    assert Sound(g, lim, s, tiles');
    StepNewQueued(g, lim, s, rest, q);
    StepNewClosed(g, lim, tiles, tiles', rest, q);
  }

  /** The pairs q leads to are reachable whenever q is. */
  lemma StepNewQueued(g: Contraption, lim: nat, s: Beam, rest: seq<Beam>, q: Beam)
    requires WellSized(g) && lim <= g.height && Queued(g, lim, s, rest + [q])
    ensures Queued(g, lim, s, rest + Next(g, lim, q))
  {
    var queue := rest + [q];
    var queue' := rest + Next(g, lim, q);
    assert q == queue[|queue| - 1];
    forall k | 0 <= k < |queue'| ensures InGrid(g, queue'[k].at) && Reachable(g, lim, s, queue'[k]) {
      if k < |rest| {
        assert queue'[k] == queue[k];
      } else {
        assert queue'[k] in Next(g, lim, q);
        ReachStep(g, lim, s, q, queue'[k]);
      }
    }
  }

  /** Lighting q and queueing what it leads to keeps every lit pair's expansions lit or pending. */
  lemma StepNewClosed(g: Contraption, lim: nat, tiles: seq<Tile>, tiles': seq<Tile>, rest: seq<Beam>, q: Beam)
    requires WellSized(g) && lim <= g.height && |tiles| == |g.kinds| && Closed(g, lim, tiles, rest + [q])
    requires forall b: Beam :: b.at.x < g.width && b.at.y < g.height ==> (Lit(tiles', g.width, b) <==> Lit(tiles, g.width, b) || b == q)
    ensures Closed(g, lim, tiles', rest + Next(g, lim, q))
  {
    var w := g.width;
    var queue := rest + [q];
    var queue' := rest + Next(g, lim, q);
    forall b: Beam, r | InGrid(g, b.at) && Lit(tiles', w, b) && r in Next(g, lim, b)
      ensures Lit(tiles', w, r) || r in queue'
    {
      if b != q {
        assert Lit(tiles, w, b);
        assert Lit(tiles, w, r) || r in queue;
        if r in queue && r != q {
          assert r in rest;
        }
        if Lit(tiles, w, r) {
          assert r.at.x < w && r.at.y < g.height;
        }
      }
    }
  }

  /** Once nothing is pending, every beam on a path from s is lit. */
  lemma {:induction false} PathLit(g: Contraption, lim: nat, s: Beam, tiles: seq<Tile>, p: seq<Beam>)
    requires Explored(g, lim, s, tiles, []) && IsPath(g, lim, p) && p[0] == s
    ensures Lit(tiles, g.width, p[|p| - 1])
  {
    if |p| > 1 {
      var p' := p[..|p| - 1];
      assert IsPath(g, lim, p') by {
        forall i: nat | i + 1 < |p'| ensures Link(g, lim, p', i) {
          assert Link(g, lim, p, i);
        }
      }
      PathLit(g, lim, s, tiles, p');
      PathInGrid(g, lim, p');
      assert Link(g, lim, p, |p| - 2);
    }
  }

  /** At the end of `illuminate` the lit pairs are exactly the reachable ones. */
  lemma Finished(g: Contraption, lim: nat, s: Beam, tiles: seq<Tile>)
    requires Explored(g, lim, s, tiles, [])
    ensures forall b: Beam :: InGrid(g, b.at) ==> (Lit(tiles, g.width, b) <==> Reachable(g, lim, s, b))
  {
    forall b: Beam | InGrid(g, b.at) && Reachable(g, lim, s, b)
      ensures Lit(tiles, g.width, b)
    {
      var p :| IsPath(g, lim, p) && p[0] == s && p[|p| - 1] == b;
      PathLit(g, lim, s, tiles, p);
    }
  }

  /** The tile with row-major index i. */
  function CoordOf(w: nat, i: nat): Coord
    requires w >= 1
  {
    Coord(i % w, i / w)
  }

  lemma CoordOfIndex(w: nat, h: nat, i: nat)
    requires w >= 1 && i < Row(w, h)
    ensures CoordOf(w, i).x < w && CoordOf(w, i).y < h && Index(w, CoordOf(w, i)) == i
  {
    var q, r := i / w, i % w;
    assert i == q * w + r && r < w;
    RowProduct(w, q);
    if h < q {
      RowLess(w, h, q);
    }
  }

  /** Tile i is energised: some beam from s enters it. */
  ghost predicate Energises(g: Contraption, lim: nat, s: Beam, i: nat)
    requires g.width >= 1
  {
    exists d: Direction :: Reachable(g, lim, s, Beam(CoordOf(g.width, i), d))
  }

  /** The number of tiles among the first n that a beam from s energises. */
  ghost function EnergisedBelow(g: Contraption, lim: nat, s: Beam, n: nat): nat
    requires g.width >= 1
  {
    if n == 0 then 0 else EnergisedBelow(g, lim, s, n - 1) + (if Energises(g, lim, s, n - 1) then 1 else 0)
  }

  /** The reference answer: how many tiles a beam entering at s energises. */
  ghost function Energised(g: Contraption, lim: nat, s: Beam): nat
    requires g.width >= 1
  {
    EnergisedBelow(g, lim, s, |g.kinds|)
  }

  /** When the lit pairs are the reachable ones, tile i is lit exactly when it is energised. */
  lemma TileEnergised(g: Contraption, lim: nat, s: Beam, tiles: seq<Tile>, i: nat)
    requires WellSized(g) && |tiles| == |g.kinds| && Consistent(tiles) && i < |tiles|
    requires forall b: Beam :: InGrid(g, b.at) ==> (Lit(tiles, g.width, b) <==> Reachable(g, lim, s, b))
    ensures tiles[i].lit <==> Energises(g, lim, s, i)
  {
    var c := CoordOf(g.width, i);
    CoordOfIndex(g.width, g.height, i);
    assert InGrid(g, c);
    if tiles[i].lit {
      var d := tiles[i].litFrom[0];
      assert Lit(tiles, g.width, Beam(c, d));
      assert Reachable(g, lim, s, Beam(c, d));
    }
    if Energises(g, lim, s, i) {
      var d :| Reachable(g, lim, s, Beam(c, d));
      assert Lit(tiles, g.width, Beam(c, d));
    }
  }

  /** When the lit pairs are the reachable ones, the lit-tile count is the reference answer. */
  lemma CountEnergised(g: Contraption, lim: nat, s: Beam, tiles: seq<Tile>, n: nat)
    requires WellSized(g) && |tiles| == |g.kinds| && Consistent(tiles) && n <= |tiles|
    requires forall b: Beam :: InGrid(g, b.at) ==> (Lit(tiles, g.width, b) <==> Reachable(g, lim, s, b))
    ensures LitCount(tiles[..n]) == EnergisedBelow(g, lim, s, n)
  {
    forall i | 0 <= i < |tiles|
      ensures tiles[i].lit <==> Energises(g, lim, s, i)
    {
      TileEnergised(g, lim, s, tiles, i);
    }
    CountLit(g, lim, s, tiles, n);
  }

  /** Counting the lit tiles counts the energised ones when each tile is lit exactly when energised. */
  lemma {:induction false} CountLit(g: Contraption, lim: nat, s: Beam, tiles: seq<Tile>, n: nat)
    requires g.width >= 1 && n <= |tiles|
    requires forall i :: 0 <= i < |tiles| ==> (tiles[i].lit <==> Energises(g, lim, s, i))
    ensures LitCount(tiles[..n]) == EnergisedBelow(g, lim, s, n)
  {
    if n > 0 {
      CountLit(g, lim, s, tiles, n - 1);
      LitCountSnoc(tiles, n - 1);
      var e := Energises(g, lim, s, n - 1);
      assert tiles[n - 1].lit == e;
      assert EnergisedBelow(g, lim, s, n) == EnergisedBelow(g, lim, s, n - 1) + if e then 1 else 0;
    }
  }

  lemma LitCountSnoc(tiles: seq<Tile>, i: nat)
    requires i < |tiles|
    ensures LitCount(tiles[..i + 1]) == LitCount(tiles[..i]) + if tiles[i].lit then 1 else 0
  {
    var pre := tiles[..i + 1];
    assert pre[..i] == tiles[..i] && pre[i] == tiles[i];
  }

  /**
   * The mutable grid of `d16.rs`: one tile per character, row-major, with
   * the flags `illuminate` sets.
   */
  class Grid {
    var tiles: seq<Tile>
    const width: nat
    const height: nat

    ghost predicate Valid()
      reads this
    {
      width >= 1 && |tiles| == Row(width, height) && Consistent(tiles)
    }

    /** The tile types and the dimensions, which nothing changes after construction. */
    ghost function Shape(): Contraption
      reads this
    {
      Contraption(KindsOf(tiles), width, height)
    }

    /**
     * `Grid::from`: width is the first line's length, one unlit tile per
     * character, height the tile count over the width.
     */
    constructor (text: string)
      requires Lines(text) != [] && |Lines(text)[0]| > 0
      requires Rectangular(Lines(text), |Lines(text)[0]|) && AllTileChars(Concat(Lines(text)))
      ensures Valid() && Dark(tiles)
      ensures width == |Lines(text)[0]| && height == |Lines(text)|
      ensures KindsOf(tiles) == Kinds(Concat(Lines(text)))
    {
      var ls := Lines(text);
      var w := |ls[0]|;
      var cs: seq<char> := [];
      for i := 0 to |ls|
        invariant cs == Concat(ls[..i])
      {
        assert ls[..i + 1] == ls[..i] + [ls[i]];
        ConcatSnoc(ls[..i], ls[i]);
        cs := cs + ls[i];
      }
      assert ls[..|ls|] == ls;
      RectangularLength(ls, w);
      RowProduct(w, |ls|);
      DivMod(0, |ls|, w);
      var ts := seq(|cs|, i requires 0 <= i < |cs| => Tile(KindOf(cs[i]), false, []));
      tiles := ts;
      width := w;
      height := |ts| / w;
    }

    /** `Grid::get`. */
    function Get(c: Coord): (t: Tile)
      reads this
      requires Valid() && c.x < width && c.y < height
      ensures t.kind == KindAt(Shape(), c)
      ensures t.lit <==> t.litFrom != []
    {
      IndexBound(c.x, c.y, width, height);
      tiles[Index(width, c)]
    }

    /** `illuminate_tile`: marks the tile at c lit and records side d; no other tile changes. */
    method IlluminateTile(c: Coord, d: Direction)
      requires Valid() && c.x < width && c.y < height
      modifies this
      ensures Index(width, c) < |tiles| == |old(tiles)|
      ensures tiles == old(tiles)[Index(width, c) := Tile(old(tiles[Index(width, c)].kind), true, old(tiles[Index(width, c)].litFrom) + [d])]
      ensures Valid() && Shape() == old(Shape())
    {
      IndexBound(c.x, c.y, width, height);
      var i := Index(width, c);
      var t := tiles[i];
      tiles := tiles[i := Tile(t.kind, true, t.litFrom + [d])];
      assert KindsOf(tiles) == old(KindsOf(tiles));
    }

    /** `num_energised`: the number of lit tiles. */
    function NumEnergised(): (n: nat)
      reads this
      ensures n == |LitSet(tiles)| && n <= |tiles|
      ensures n == 0 <==> forall i :: 0 <= i < |tiles| ==> !tiles[i].lit
    {
      LitCountIsCard(tiles);
      LitCount(tiles)
    }

    /** `deilluminate`: every tile unlit with no recorded side, so nothing is energised. */
    method Deilluminate()
      requires Valid()
      modifies this
      ensures Valid() && Dark(tiles) && Shape() == old(Shape())
      ensures NumEnergised() == 0
    {
      ghost var kinds := KindsOf(tiles);
      for i := 0 to |tiles|
        invariant |tiles| == |kinds| && KindsOf(tiles) == kinds
        invariant Consistent(tiles)
        invariant forall j :: 0 <= j < i ==> !tiles[j].lit && tiles[j].litFrom == []
      {
        tiles := tiles[i := Tile(tiles[i].kind, false, [])];
        assert KindsOf(tiles) == kinds;
      }
    }

    /**
     * One turn of the `while let Some(..) = stack.pop()` loop of `illuminate`:
     * the popped pair is expanded only when its tile does not record its side yet.
     */
    method Visit(ghost g: Contraption, ghost s: Beam, yBound: nat, queue: seq<Beam>) returns (queue': seq<Beam>)
      requires Valid() && Shape() == g && queue != [] && Explored(g, yBound, s, tiles, queue)
      modifies this
      ensures Valid() && Shape() == g && Explored(g, yBound, s, tiles, queue')
      ensures Unlit(tiles) < old(Unlit(tiles)) || (Unlit(tiles) == old(Unlit(tiles)) && |queue'| < |queue|)
    {
      var b := queue[|queue| - 1];
      ghost var rest := queue[..|queue| - 1];
      assert queue == rest + [b];
      assert InGrid(g, b.at);
      queue' := queue[..|queue| - 1];
      var t := Get(b.at);
      IndexBound(b.at.x, b.at.y, width, height);
      if !IsIlluminatedFrom(t, b.from) {
        ghost var before := tiles;
        IlluminateTile(b.at, b.from);
        MissingAdd(t, b.from);
        UnlitUpdate(before, Index(width, b.at), tiles[Index(width, b.at)]);
        StepNew(g, yBound, s, before, tiles, rest, b);
        assert Follow(Exits(t.kind, b.from), b.at, width, yBound) == Next(g, yBound, b);
        queue' := queue' + Follow(Exits(t.kind, b.from), b.at, width, yBound);
      } else {
        StepSeen(g, yBound, s, tiles, rest, b);
      }
    }

    /**
     * `illuminate`: follows the beam entering `start` from side d with a
     * stack, expanding a pair only when its tile does not yet record that
     * side. yBound is the row count the downward moves are checked against;
     * the source passes the width. Afterwards a pair is recorded exactly
     * when it is reachable, so the lit count is the reference answer.
     */
    method Illuminate(start: Coord, d: Direction, yBound: nat)
      requires Valid() && Dark(tiles) && start.x < width && start.y < height && yBound <= height
      modifies this
      ensures Valid() && Shape() == old(Shape())
      ensures forall b: Beam :: InGrid(Shape(), b.at) ==> (Lit(tiles, width, b) <==> Reachable(Shape(), yBound, Beam(start, d), b))
      ensures NumEnergised() == Energised(Shape(), yBound, Beam(start, d))
    {
      ghost var g := Shape();
      ghost var s := Beam(start, d);
      var queue := [Beam(start, d)];
      InitialExplored(g, yBound, s, tiles);
      while queue != []
        invariant Valid() && Shape() == g
        invariant Explored(g, yBound, s, tiles, queue)
        decreases Unlit(tiles), |queue|
      {
        queue := Visit(g, s, yBound, queue);
      }
      Finished(g, yBound, s, tiles);
      CountEnergised(g, yBound, s, tiles, |tiles|);
      assert tiles[..|tiles|] == tiles;
    }
  }

  /** The contraption a text describes. */
  ghost function ShapeOf(text: string): Contraption
    requires Lines(text) != [] && AllTileChars(Concat(Lines(text)))
  {
    Contraption(Kinds(Concat(Lines(text))), |Lines(text)[0]|, |Lines(text)|)
  }

  /** Part 1: the beam entering the top-left tile from the left. */
  method Solution1(text: string) returns (n: nat)
    requires Lines(text) != [] && |Lines(text)[0]| > 0
    requires Rectangular(Lines(text), |Lines(text)[0]|) && AllTileChars(Concat(Lines(text)))
    requires |Lines(text)[0]| <= |Lines(text)|
    ensures n == Energised(ShapeOf(text), |Lines(text)[0]|, Beam(Coord(0, 0), Left))
  {
    var grid := new Grid(text);
    grid.Illuminate(Coord(0, 0), Left, grid.width);
    n := grid.NumEnergised();
  }

  /** A beam entering an edge tile from outside the grid. */
  predicate OnEdge(w: nat, h: nat, b: Beam) {
    b.at.x < w && b.at.y < h &&
    match b.from
    case Top => b.at.y == 0
    case Bottom => b.at.y + 1 == h
    case Left => b.at.x == 0
    case Right => b.at.x + 1 == w
  }

  /** The `flat_map` over columns: entering at the top and at the bottom of each of the first n. */
  function ColumnStarts(n: nat, h: nat): (r: seq<Beam>)
    requires h >= 1
    ensures |r| == 2 * n
    ensures forall b :: b in r <==> b.at.x < n && b.at.y < h && ((b.from == Top && b.at.y == 0) || (b.from == Bottom && b.at.y + 1 == h))
  {
    if n == 0 then []
    else ColumnStarts(n - 1, h) + [Beam(Coord(n - 1, 0), Top), Beam(Coord(n - 1, h - 1), Bottom)]
  }

  /** The `flat_map` over rows: entering at the left and at the right of each of the first n. */
  function RowStarts(n: nat, w: nat): (r: seq<Beam>)
    requires w >= 1
    ensures |r| == 2 * n
    ensures forall b :: b in r <==> b.at.y < n && b.at.x < w && ((b.from == Left && b.at.x == 0) || (b.from == Right && b.at.x + 1 == w))
  {
    if n == 0 then []
    else RowStarts(n - 1, w) + [Beam(Coord(0, n - 1), Left), Beam(Coord(w - 1, n - 1), Right)]
  }

  /** `start_coords` of part 2: every way into the grid from outside. */
  function Starts(w: nat, h: nat): (r: seq<Beam>)
    requires w >= 1 && h >= 1
    ensures |r| == 2 * (w + h)
    ensures forall b :: b in r <==> OnEdge(w, h, b)
  {
    ColumnStarts(w, h) + RowStarts(h, w)
  }

  /** One round of part 2: illuminate from s, count, darken again. */
  method Trial(grid: Grid, s: Beam, yBound: nat) returns (lit: nat)
    requires grid.Valid() && Dark(grid.tiles) && yBound <= grid.height && InGrid(grid.Shape(), s.at)
    modifies grid
    ensures grid.Valid() && Dark(grid.tiles) && grid.Shape() == old(grid.Shape())
    ensures lit == Energised(grid.Shape(), yBound, s)
  {
    grid.Illuminate(s.at, s.from, yBound);
    lit := grid.NumEnergised();
    grid.Deilluminate();
  }

  /** The loop of part 2: illuminate from each start, keep the largest count, darken again. */
  method Brightest(grid: Grid, starts: seq<Beam>, yBound: nat) returns (best: nat, ghost arg: nat)
    requires grid.Valid() && Dark(grid.tiles) && yBound <= grid.height && |starts| > 0
    requires forall j :: 0 <= j < |starts| ==> InGrid(grid.Shape(), starts[j].at)
    modifies grid
    ensures arg < |starts| && Energised(old(grid.Shape()), yBound, starts[arg]) == best
    ensures forall j :: 0 <= j < |starts| ==> Energised(old(grid.Shape()), yBound, starts[j]) <= best
  {
    ghost var g := grid.Shape();
    ghost var energy := seq(|starts|, j requires 0 <= j < |starts| => Energised(g, yBound, starts[j]));
    best, arg := 0, 0;
    for k := 0 to |starts|
      invariant grid.Valid() && Dark(grid.tiles) && grid.Shape() == g
      invariant forall j :: 0 <= j < k ==> energy[j] <= best
      invariant k > 0 ==> arg < k && energy[arg] == best
    {
      var lit := Trial(grid, starts[k], yBound);
      if lit > best || k == 0 {
        best, arg := lit, k;
      }
    }
    forall j | 0 <= j < |starts| ensures Energised(g, yBound, starts[j]) <= best {
      assert energy[j] == Energised(g, yBound, starts[j]);
    }
  }

  /** A bound on the count from every start of `Starts` bounds it from every edge beam. */
  lemma EdgesBounded(g: Contraption, yBound: nat, starts: seq<Beam>, best: nat)
    requires g.width >= 1 && g.height >= 1 && starts == Starts(g.width, g.height)
    requires forall j :: 0 <= j < |starts| ==> Energised(g, yBound, starts[j]) <= best
    ensures forall b :: OnEdge(g.width, g.height, b) ==> Energised(g, yBound, b) <= best
  {
    forall b | OnEdge(g.width, g.height, b) ensures Energised(g, yBound, b) <= best {
      var j :| 0 <= j < |starts| && starts[j] == b;
    }
  }

  /** Part 2: the most tiles any beam from outside energises. */
  method Solution2(text: string) returns (best: nat)
    requires Lines(text) != [] && |Lines(text)[0]| > 0
    requires Rectangular(Lines(text), |Lines(text)[0]|) && AllTileChars(Concat(Lines(text)))
    requires |Lines(text)[0]| <= |Lines(text)|
    ensures forall b :: OnEdge(|Lines(text)[0]|, |Lines(text)|, b) ==> Energised(ShapeOf(text), |Lines(text)[0]|, b) <= best
    ensures exists b :: OnEdge(|Lines(text)[0]|, |Lines(text)|, b) && Energised(ShapeOf(text), |Lines(text)[0]|, b) == best
  {
    var grid := new Grid(text);
    var starts := Starts(grid.width, grid.height);
    ghost var g := grid.Shape();
    assert g == ShapeOf(text);
    ghost var arg;
    best, arg := Brightest(grid, starts, grid.width);
    EdgesBounded(g, grid.width, starts, best);
    assert OnEdge(grid.width, grid.height, starts[arg]);
  }

  /** Part 1 with the downward bound corrected to the height: any grid shape. */
  method Solution1Fixed(text: string) returns (n: nat)
    requires Lines(text) != [] && |Lines(text)[0]| > 0
    requires Rectangular(Lines(text), |Lines(text)[0]|) && AllTileChars(Concat(Lines(text)))
    ensures n == Energised(ShapeOf(text), |Lines(text)|, Beam(Coord(0, 0), Left))
  {
    var grid := new Grid(text);
    grid.Illuminate(Coord(0, 0), Left, grid.height);
    n := grid.NumEnergised();
  }

  /** Part 2 with the downward bound corrected to the height: any grid shape. */
  method Solution2Fixed(text: string) returns (best: nat)
    requires Lines(text) != [] && |Lines(text)[0]| > 0
    requires Rectangular(Lines(text), |Lines(text)[0]|) && AllTileChars(Concat(Lines(text)))
    ensures forall b :: OnEdge(|Lines(text)[0]|, |Lines(text)|, b) ==> Energised(ShapeOf(text), |Lines(text)|, b) <= best
    ensures exists b :: OnEdge(|Lines(text)[0]|, |Lines(text)|, b) && Energised(ShapeOf(text), |Lines(text)|, b) == best
  {
    var grid := new Grid(text);
    var starts := Starts(grid.width, grid.height);
    ghost var g := grid.Shape();
    assert g == ShapeOf(text);
    ghost var arg;
    best, arg := Brightest(grid, starts, grid.height);
    EdgesBounded(g, grid.height, starts, best);
    assert OnEdge(grid.width, grid.height, starts[arg]);
  }

  /**
   * The downward bound of `illuminate` as written: in a one-column grid of
   * two empty tiles, a beam entering the top from above stops in row 0,
   * because the row test uses the width.
   */
  lemma TallGridStopsEarly()
    ensures Energised(Contraption([Empty, Empty], 1, 2), 1, Beam(Coord(0, 0), Top)) == 1
    ensures Energised(Contraption([Empty, Empty], 1, 2), 2, Beam(Coord(0, 0), Top)) == 2
  {
    var g := Contraption([Empty, Empty], 1, 2);
    var s := Beam(Coord(0, 0), Top);
    ReachStart(g, 1, s);
    ReachStart(g, 2, s);
    assert CoordOf(1, 0) == Coord(0, 0);
    assert CoordOf(1, 1) == Coord(0, 1);
    assert Energises(g, 1, s, 0) && Energises(g, 2, s, 0);
    forall d: Direction | Reachable(g, 1, s, Beam(Coord(0, 1), d))
      ensures false
    {
      var p :| IsPath(g, 1, p) && p[0] == s && p[|p| - 1] == Beam(Coord(0, 1), d);
      PathAbove(g, 1, p);
    }
    assert !Energises(g, 1, s, 1);
    assert KindAt(g, Coord(0, 0)) == Empty;
    assert Beam(Coord(0, 1), Top) in Next(g, 2, s);
    ReachStep(g, 2, s, s, Beam(Coord(0, 1), Top));
    assert Energises(g, 2, s, 1);
  }

  /** A column of h empty tiles: beam i enters row i from the top. */
  function Straight(i: nat): Beam {
    Beam(Coord(0, i), Top)
  }

  /**
   * The intended downward bound, the height: a beam entering the top of a
   * column of empty tiles energises the whole column.
   */
  lemma ColumnFullyLit(h: nat)
    requires h >= 1
    ensures Energised(Contraption(Repeat(Empty, h), 1, h), h, Straight(0)) == h
  {
    var g := Contraption(Repeat(Empty, h), 1, h);
    RowProduct(1, h);
    assert WellSized(g);
    ReachStart(g, h, Straight(0));
    for n := 0 to h
      invariant EnergisedBelow(g, h, Straight(0), n) == n
      invariant n < h ==> Reachable(g, h, Straight(0), Straight(n))
    {
      assert CoordOf(1, n) == Coord(0, n);
      assert Energises(g, h, Straight(0), n);
      if n + 1 < h {
        RowProduct(1, n);
        assert KindAt(g, Coord(0, n)) == Empty;
        assert Straight(n + 1) in Next(g, h, Straight(n));
        ReachStep(g, h, Straight(0), Straight(n), Straight(n + 1));
      }
    }
  }
}
