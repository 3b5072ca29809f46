/**
 * The reflector dish (src/bin/d14.rs): a grid of round rocks 'O', cube
 * rocks '#' and empty cells '.', tilted in place in one of four directions.
 */
module D14 {
  import opened Text

  /** The three characters the tilts accept; any other one is unreachable. */
  predicate IsCell(c: char) {
    c == 'O' || c == '.' || c == '#'
  }

  predicate AllCells(s: seq<char>) {
    forall i :: 0 <= i < |s| ==> IsCell(s[i])
  }

  datatype Coord = Coord(x: nat, y: nat)

  /** `y * width + x`. */
  function Index(w: nat, c: Coord): nat {
    Row(w, c.y) + c.x
  }

  /** A column (tilted up or down) or a row (tilted left or right). */
  datatype Line = Column(x: nat) | Across(y: nat)

  predicate LineOk(w: nat, h: nat, l: Line) {
    match l
    case Column(x) => x < w
    case Across(y) => y < h
  }

  function LineLen(w: nat, h: nat, l: Line): nat {
    if l.Column? then h else w
  }

  /** The k-th cell of a line: row k of a column, column k of a row. */
  function CoordAt(l: Line, k: nat): Coord {
    match l
    case Column(x) => Coord(x, k)
    case Across(y) => Coord(k, y)
  }

  function Pos(w: nat, l: Line, k: nat): nat {
    Index(w, CoordAt(l, k))
  }

  lemma PosBound(w: nat, h: nat, l: Line, k: nat)
    requires LineOk(w, h, l) && k < LineLen(w, h, l)
    ensures Pos(w, l, k) < Row(w, h)
  {
    IndexBound(CoordAt(l, k).x, CoordAt(l, k).y, w, h);
  }

  /** Distinct cells of lines of one orientation have distinct indices. */
  lemma PosUnique(w: nat, h: nat, l1: Line, k1: nat, l2: Line, k2: nat)
    requires LineOk(w, h, l1) && k1 < LineLen(w, h, l1)
    requires LineOk(w, h, l2) && k2 < LineLen(w, h, l2)
    requires l1.Column? == l2.Column? && Pos(w, l1, k1) == Pos(w, l2, k2)
    ensures l1 == l2 && k1 == k2
  {
    var c1, c2 := CoordAt(l1, k1), CoordAt(l2, k2);
    RowUnique(w, c1.x, c1.y, c2.x, c2.y);
  }

  /** The characters of a line, in order. */
  function LineOf(s: seq<char>, w: nat, h: nat, l: Line): (t: seq<char>)
    requires |s| == Row(w, h) && LineOk(w, h, l)
    ensures |t| == LineLen(w, h, l)
  {
    seq(LineLen(w, h, l), k requires 0 <= k < LineLen(w, h, l) => PosBound(w, h, l, k); s[Pos(w, l, k)])
  }

  lemma LineOfAt(s: seq<char>, w: nat, h: nat, l: Line, k: nat)
    requires |s| == Row(w, h) && LineOk(w, h, l) && k < LineLen(w, h, l)
    ensures Pos(w, l, k) < |s| && LineOf(s, w, h, l)[k] == s[Pos(w, l, k)]
  {
    PosBound(w, h, l, k);
  }

  // ---------------------------------------------------------------------
  // Segments of a line
  // ---------------------------------------------------------------------

  /** The number of round rocks. */
  function Count(t: seq<char>): nat {
    if t == [] then 0 else Count(t[..|t| - 1]) + (if t[|t| - 1] == 'O' then 1 else 0)
  }

  /**
   * The same cube rocks in the same places, and the same number of round rocks
   * before each cube rock and in all: every '#'-delimited segment keeps its
   * count of round rocks.
   */
  predicate SameSegments(t: seq<char>, u: seq<char>) {
    |t| == |u| &&
    (forall k :: 0 <= k < |t| ==> (t[k] == '#' <==> u[k] == '#')) &&
    (forall k :: 0 <= k <= |t| && (k == |t| || t[k] == '#') ==> Count(t[..k]) == Count(u[..k]))
  }

  lemma SameSegmentsTrans(t: seq<char>, u: seq<char>, v: seq<char>)
    requires SameSegments(t, u) && SameSegments(u, v)
    ensures SameSegments(t, v)
  {
  }

  /** Swapping cells a <= b changes the round-rock count only of prefixes ending between them. */
  lemma {:induction false} SwapCount(t: seq<char>, a: nat, b: nat, r: nat)
    requires a <= b < |t| && r <= |t|
    ensures Count(t[a := t[b]][b := t[a]][..r]) as int ==
      Count(t[..r]) + (if a < r <= b then (if t[b] == 'O' then 1 else 0) - (if t[a] == 'O' then 1 else 0) else 0)
  {
    var u := t[a := t[b]][b := t[a]];
    if r > 0 {
      SwapCount(t, a, b, r - 1);
      assert u[..r][..r - 1] == u[..r - 1];
      assert t[..r][..r - 1] == t[..r - 1];
    }
  }

  /**
   * Swapping two cells with no cube rock between them (inclusive) keeps every
   * segment's count.
   */
  lemma SwapSegments(t: seq<char>, a: nat, b: nat)
    requires a <= b < |t| && forall i :: a <= i <= b ==> t[i] != '#'
    ensures SameSegments(t, t[a := t[b]][b := t[a]])
  {
    var u := t[a := t[b]][b := t[a]];
    forall k | 0 <= k <= |t| && (k == |t| || t[k] == '#') ensures Count(t[..k]) == Count(u[..k]) {
      SwapCount(t, a, b, k);
    }
  }

  /** Every line of one orientation keeps its segments between two grid states. */
  ghost predicate Settled(s0: seq<char>, s: seq<char>, w: nat, h: nat, vertical: bool)
    requires |s0| == Row(w, h) && |s| == Row(w, h)
  {
    forall l: Line :: l.Column? == vertical && LineOk(w, h, l) ==> SameSegments(LineOf(s0, w, h, l), LineOf(s, w, h, l))
  }

  lemma SettledRefl(s: seq<char>, w: nat, h: nat, vertical: bool)
    requires |s| == Row(w, h)
    ensures Settled(s, s, w, h, vertical)
  {
  }

  lemma SettledTrans(s0: seq<char>, s1: seq<char>, s2: seq<char>, w: nat, h: nat, vertical: bool)
    requires |s0| == Row(w, h) && |s1| == Row(w, h) && |s2| == Row(w, h)
    requires Settled(s0, s1, w, h, vertical) && Settled(s1, s2, w, h, vertical)
    ensures Settled(s0, s2, w, h, vertical)
  {
    forall l: Line | l.Column? == vertical && LineOk(w, h, l)
      ensures SameSegments(LineOf(s0, w, h, l), LineOf(s2, w, h, l))
    {
      SameSegmentsTrans(LineOf(s0, w, h, l), LineOf(s1, w, h, l), LineOf(s2, w, h, l));
    }
  }

  /** Swapping cells k and j of line l, with no cube rock from one to the other, settles the grid. */
  lemma SwapSettled(s: seq<char>, w: nat, h: nat, l: Line, k: nat, j: nat)
    requires |s| == Row(w, h) && LineOk(w, h, l) && k < LineLen(w, h, l) && j < LineLen(w, h, l)
    requires forall i :: (k <= i <= j || j <= i <= k) ==> LineOf(s, w, h, l)[i] != '#'
    ensures Pos(w, l, k) < |s| && Pos(w, l, j) < |s|
    ensures Settled(s, s[Pos(w, l, k) := s[Pos(w, l, j)]][Pos(w, l, j) := s[Pos(w, l, k)]], w, h, l.Column?)
  {
    SwapLine(s, w, h, l, k, j);
    var pk, pj := Pos(w, l, k), Pos(w, l, j);
    var s' := s[pk := s[pj]][pj := s[pk]];
    var t := LineOf(s, w, h, l);
    var a, b := if k <= j then k else j, if k <= j then j else k;
    var u := t[a := t[b]][b := t[a]];
    assert LineOf(s', w, h, l) == u by {
      assert s' == Swapped(s, pk, pj);
      assert t[k := t[j]][j := t[k]] == u;
    }
    SwapSegments(t, a, b);
    forall l2: Line | l2.Column? == l.Column? && LineOk(w, h, l2) && l2 != l
      ensures LineOf(s', w, h, l2) == LineOf(s, w, h, l2)
    {
      SwapOtherLine(s, w, h, l, k, j, l2);
    }
  }

  /** A swap inside line l leaves every other line of the same orientation as it was. */
  lemma SwapOtherLine(s: seq<char>, w: nat, h: nat, l: Line, k: nat, j: nat, l2: Line)
    requires |s| == Row(w, h) && LineOk(w, h, l) && k < LineLen(w, h, l) && j < LineLen(w, h, l)
    requires l2.Column? == l.Column? && LineOk(w, h, l2) && l2 != l
    ensures Pos(w, l, k) < |s| && Pos(w, l, j) < |s|
    ensures LineOf(s[Pos(w, l, k) := s[Pos(w, l, j)]][Pos(w, l, j) := s[Pos(w, l, k)]], w, h, l2) == LineOf(s, w, h, l2)
  {
    PosBound(w, h, l, k);
    PosBound(w, h, l, j);
    var pk, pj := Pos(w, l, k), Pos(w, l, j);
    var s' := s[pk := s[pj]][pj := s[pk]];
    forall i | 0 <= i < LineLen(w, h, l2) ensures LineOf(s', w, h, l2)[i] == LineOf(s, w, h, l2)[i] {
      PosBound(w, h, l2, i);
      if Pos(w, l2, i) == pk {
        PosUnique(w, h, l2, i, l, k);
      }
      if Pos(w, l2, i) == pj {
        PosUnique(w, h, l2, i, l, j);
      }
    }
  }

  // ---------------------------------------------------------------------
  // Packing
  // ---------------------------------------------------------------------

  /** `swap` on a buffer: cells a and b exchanged. */
  function Swapped(s: seq<char>, a: nat, b: nat): seq<char>
    requires a < |s| && b < |s|
  {
    s[a := s[b]][b := s[a]]
  }

  /** The line through a swap of two of its cells is the line with those two cells exchanged. */
  lemma SwapLine(s: seq<char>, w: nat, h: nat, l: Line, k: nat, j: nat)
    requires |s| == Row(w, h) && LineOk(w, h, l) && k < LineLen(w, h, l) && j < LineLen(w, h, l)
    ensures Pos(w, l, k) < |s| && Pos(w, l, j) < |s|
    ensures var t := LineOf(s, w, h, l);
      LineOf(Swapped(s, Pos(w, l, k), Pos(w, l, j)), w, h, l) == t[k := t[j]][j := t[k]]
  {
    PosBound(w, h, l, k);
    PosBound(w, h, l, j);
    var pk, pj := Pos(w, l, k), Pos(w, l, j);
    var s' := Swapped(s, pk, pj);
    var t := LineOf(s, w, h, l);
    var u := t[k := t[j]][j := t[k]];
    forall i | 0 <= i < |t| ensures LineOf(s', w, h, l)[i] == u[i] {
      PosBound(w, h, l, i);
      if i != k && i != j {
        if Pos(w, l, i) == pk {
          PosUnique(w, h, l, i, l, k);
        }
        if Pos(w, l, i) == pj {
          PosUnique(w, h, l, i, l, j);
        }
      }
    }
  }

  /** Some cube rock lies strictly between cells a and b. */
  predicate CubeBetween(t: seq<char>, a: nat, b: nat) {
    exists m :: a < m < b && m < |t| && t[m] == '#'
  }

  /**
   * From cell y on, every round rock is packed toward the line's start: no
   * empty cell comes before it in its '#'-delimited segment.
   */
  ghost predicate PackedFrom(t: seq<char>, y: nat) {
    forall e, i :: 0 <= e < i < |t| && y <= i && t[e] == '.' && t[i] == 'O' ==> CubeBetween(t, e, i)
  }

  /**
   * Before cell y, every round rock is packed toward the line's end: no
   * empty cell comes after it in its '#'-delimited segment.
   */
  ghost predicate PackedTo(t: seq<char>, y: nat) {
    forall i, e :: 0 <= i < e < |t| && i < y && t[i] == 'O' && t[e] == '.' ==> CubeBetween(t, i, e)
  }

  /** Every round rock of the line packed toward its start, or toward its end. */
  ghost predicate Packed(t: seq<char>, toStart: bool) {
    if toStart then PackedFrom(t, 0) else PackedTo(t, |t|)
  }

  /** The first n lines of one orientation are packed toward their start, or toward their end. */
  ghost predicate PackedLines(s: seq<char>, w: nat, h: nat, vertical: bool, toStart: bool, n: nat)
    requires |s| == Row(w, h)
  {
    forall l: Line :: l.Column? == vertical && LineOk(w, h, l) && LineNo(l) < n ==> Packed(LineOf(s, w, h, l), toStart)
  }

  function LineNo(l: Line): nat {
    match l
    case Column(x) => x
    case Across(y) => y
  }

  /** Every line of l's orientation other than l is the same in s0 and s. */
  ghost predicate OthersKept(s0: seq<char>, s: seq<char>, w: nat, h: nat, l: Line)
    requires |s0| == Row(w, h) && |s| == Row(w, h)
  {
    forall l2: Line :: l2.Column? == l.Column? && LineOk(w, h, l2) && l2 != l ==> LineOf(s, w, h, l2) == LineOf(s0, w, h, l2)
  }

  /**
   * The scan for the rock at cell k of line l, with cells j..k-1 scanned:
   * either nothing has moved and those cells are all round rocks (p == -1),
   * or the rock has been swapped into the empty cell p, the first cell above
   * the run of round rocks over it.
   */
  ghost predicate Rolling(s0: seq<char>, s: seq<char>, w: nat, h: nat, l: Line, k: nat, j: nat, p: int)
    requires |s0| == Row(w, h) && LineOk(w, h, l) && k < LineLen(w, h, l)
  {
    var t0 := LineOf(s0, w, h, l);
    if p == -1 then s == s0 && forall i :: j <= i < k ==> t0[i] == 'O'
    else
      j <= p < k && t0[p] == '.' && (forall i :: p < i < k ==> t0[i] == 'O') &&
      (PosBound(w, h, l, k); PosBound(w, h, l, p as nat);
       s == Swapped(s0, Pos(w, l, k), Pos(w, l, p as nat)))
  }

  /**
   * Scanning one more cell j keeps the description: an empty cell takes the
   * rock if it has not moved yet, and is swapped with the now empty cell k
   * (a no-op) if it has; a round rock is skipped.
   */
  lemma RollStep(s0: seq<char>, before: seq<char>, s: seq<char>, w: nat, h: nat, l: Line, k: nat, j: nat, p: int)
    returns (p': int)
    requires |s0| == Row(w, h) && |before| == Row(w, h) && AllCells(s0)
    requires LineOk(w, h, l) && j < k < LineLen(w, h, l)
    requires Rolling(s0, before, w, h, l, k, j + 1, p)
    requires LineOf(before, w, h, l)[j] != '#'
    requires Pos(w, l, k) < |before| && Pos(w, l, j) < |before|
    requires LineOf(before, w, h, l)[j] == '.' ==> s == Swapped(before, Pos(w, l, k), Pos(w, l, j))
    requires LineOf(before, w, h, l)[j] != '.' ==> s == before
    ensures Rolling(s0, s, w, h, l, k, j, p')
  {
    var t0 := LineOf(s0, w, h, l);
    LineOfAt(s0, w, h, l, j);
    assert IsCell(s0[Pos(w, l, j)]);
    p' := p;
    if p == -1 {
      if t0[j] == '.' {
        p' := j;
      }
    } else {
      SwapLine(s0, w, h, l, k, p);
      assert LineOf(before, w, h, l)[j] == t0[j];
      if t0[j] == '.' {
        LineOfAt(before, w, h, l, k);
        LineOfAt(before, w, h, l, j);
        assert before[Pos(w, l, k)] == before[Pos(w, l, j)];
        assert s == before;
      }
    }
  }

  /** A rock blocked by a cube rock at j, or by the line's start (j == -1), is packed where it is. */
  lemma BlockedPacked(t: seq<char>, k: nat, j: int)
    requires k < |t| && t[k] == 'O' && PackedFrom(t, k + 1)
    requires -1 <= j < k && (j == -1 || t[j] == '#')
    requires forall i :: j < i < k ==> t[i] == 'O'
    ensures PackedFrom(t, k)
  {
    forall e, i | 0 <= e < i < |t| && k <= i && t[e] == '.' && t[i] == 'O' ensures CubeBetween(t, e, i) {
      if i == k {
        assert e < j && t[j] == '#';
      }
    }
  }

  /**
   * A rock moved into the empty cell p above its run of round rocks is
   * packed, and so is every rock below it.
   */
  lemma MovedPacked(t: seq<char>, k: nat, p: nat)
    requires p < k < |t| && t[k] == 'O' && t[p] == '.' && PackedFrom(t, k + 1)
    requires forall i :: p < i < k ==> t[i] == 'O'
    ensures PackedFrom(t[k := t[p]][p := t[k]], k)
  {
    var r := t[k := t[p]][p := t[k]];
    forall e, i | 0 <= e < i < |r| && k <= i && r[e] == '.' && r[i] == 'O' ensures CubeBetween(r, e, i) {
      assert i > k && t[i] == 'O';
      var e0 := if e == k then p else e;
      assert t[e0] == '.';
      var m :| e0 < m < i && m < |t| && t[m] == '#';
      assert r[m] == '#';
    }
  }

  /** The end of the scan: the other lines are kept, and a packed tail grows by the rock's cell. */
  lemma RollFinish(s0: seq<char>, s: seq<char>, w: nat, h: nat, l: Line, k: nat, j: int, p: int)
    requires |s0| == Row(w, h) && |s| == Row(w, h) && LineOk(w, h, l) && k < LineLen(w, h, l) && -1 <= j < k
    requires LineOf(s0, w, h, l)[k] == 'O'
    requires Rolling(s0, s, w, h, l, k, j + 1, p)
    requires j >= 0 ==> LineOf(s, w, h, l)[j] == '#'
    ensures |s| == |s0| && OthersKept(s0, s, w, h, l)
    ensures PackedFrom(LineOf(s0, w, h, l), k + 1) ==> PackedFrom(LineOf(s, w, h, l), k)
  {
    var t0 := LineOf(s0, w, h, l);
    if p == -1 {
      if PackedFrom(t0, k + 1) {
        BlockedPacked(t0, k, j);
      }
    } else {
      SwapLine(s0, w, h, l, k, p);
      forall l2: Line | l2.Column? == l.Column? && LineOk(w, h, l2) && l2 != l
        ensures LineOf(s, w, h, l2) == LineOf(s0, w, h, l2)
      {
        SwapOtherLine(s0, w, h, l, k, p, l2);
      }
      if PackedFrom(t0, k + 1) {
        MovedPacked(t0, k, p);
      }
    }
  }

  /**
   * The scan toward the line's end for the rock at k, cells k..j-1 scanned:
   * either nothing has moved and those cells are all round rocks, or the rock
   * has been swapped into the empty cell p, the first cell below its run.
   */
  ghost predicate RollingEnd(s0: seq<char>, s: seq<char>, w: nat, h: nat, l: Line, k: nat, j: nat, p: int)
    requires |s0| == Row(w, h) && LineOk(w, h, l) && k < LineLen(w, h, l) && j <= LineLen(w, h, l)
  {
    var t0 := LineOf(s0, w, h, l);
    if p == -1 then s == s0 && forall i :: k <= i < j ==> t0[i] == 'O'
    else
      k < p < j && t0[p] == '.' && (forall i :: k <= i < p ==> t0[i] == 'O') &&
      (PosBound(w, h, l, k); PosBound(w, h, l, p as nat);
       s == Swapped(s0, Pos(w, l, k), Pos(w, l, p as nat)))
  }

  /** Scanning one more cell j toward the end keeps the description. */
  lemma RollStepEnd(s0: seq<char>, before: seq<char>, s: seq<char>, w: nat, h: nat, l: Line, k: nat, j: nat, p: int)
    returns (p': int)
    requires |s0| == Row(w, h) && |before| == Row(w, h) && AllCells(s0)
    requires LineOk(w, h, l) && k <= j < LineLen(w, h, l) && LineOf(s0, w, h, l)[k] == 'O'
    requires RollingEnd(s0, before, w, h, l, k, j, p)
    requires LineOf(before, w, h, l)[j] != '#'
    requires Pos(w, l, k) < |before| && Pos(w, l, j) < |before|
    requires LineOf(before, w, h, l)[j] == '.' ==> s == Swapped(before, Pos(w, l, k), Pos(w, l, j))
    requires LineOf(before, w, h, l)[j] != '.' ==> s == before
    ensures RollingEnd(s0, s, w, h, l, k, j + 1, p')
  {
    var t0 := LineOf(s0, w, h, l);
    LineOfAt(s0, w, h, l, j);
    assert IsCell(s0[Pos(w, l, j)]);
    p' := p;
    if p == -1 {
      if t0[j] == '.' {
        p' := j;
      }
    } else {
      SwapLine(s0, w, h, l, k, p);
      assert LineOf(before, w, h, l)[j] == t0[j];
      if t0[j] == '.' {
        LineOfAt(before, w, h, l, k);
        LineOfAt(before, w, h, l, j);
        assert before[Pos(w, l, k)] == before[Pos(w, l, j)];
        assert s == before;
      }
    }
  }

  /** A rock blocked by a cube rock at j, or by the line's end (j == |t|), is packed where it is. */
  lemma BlockedPackedEnd(t: seq<char>, k: nat, j: nat)
    requires k < j <= |t| && t[k] == 'O' && PackedTo(t, k)
    requires j == |t| || t[j] == '#'
    requires forall i :: k <= i < j ==> t[i] == 'O'
    ensures PackedTo(t, k + 1)
  {
    forall i, e | 0 <= i < e < |t| && i < k + 1 && t[i] == 'O' && t[e] == '.' ensures CubeBetween(t, i, e) {
      if i == k {
        assert j < e && t[j] == '#';
      }
    }
  }

  /** A rock moved into the empty cell p below its run is packed, and so is every rock above it. */
  lemma MovedPackedEnd(t: seq<char>, k: nat, p: nat)
    requires k < p < |t| && t[k] == 'O' && t[p] == '.' && PackedTo(t, k)
    requires forall i :: k < i < p ==> t[i] == 'O'
    ensures PackedTo(t[k := t[p]][p := t[k]], k + 1)
  {
    var r := t[k := t[p]][p := t[k]];
    forall i, e | 0 <= i < e < |r| && i < k + 1 && r[i] == 'O' && r[e] == '.' ensures CubeBetween(r, i, e) {
      assert i < k && t[i] == 'O';
      var e0 := if e == k then p else e;
      assert t[e0] == '.';
      var m :| i < m < e0 && m < |t| && t[m] == '#';
      assert r[m] == '#';
    }
  }

  /** The end of the scan toward the end: the other lines are kept, and a packed head grows by the rock's cell. */
  lemma RollFinishEnd(s0: seq<char>, s: seq<char>, w: nat, h: nat, l: Line, k: nat, j: nat, p: int)
    requires |s0| == Row(w, h) && |s| == Row(w, h) && LineOk(w, h, l) && k < j <= LineLen(w, h, l)
    requires LineOf(s0, w, h, l)[k] == 'O'
    requires RollingEnd(s0, s, w, h, l, k, j, p)
    requires j < LineLen(w, h, l) ==> LineOf(s, w, h, l)[j] == '#'
    ensures OthersKept(s0, s, w, h, l)
    ensures PackedTo(LineOf(s0, w, h, l), k) ==> PackedTo(LineOf(s, w, h, l), k + 1)
  {
    var t0 := LineOf(s0, w, h, l);
    if p == -1 {
      if PackedTo(t0, k) {
        BlockedPackedEnd(t0, k, j);
      }
    } else {
      SwapLine(s0, w, h, l, k, p);
      forall l2: Line | l2.Column? == l.Column? && LineOk(w, h, l2) && l2 != l
        ensures LineOf(s, w, h, l2) == LineOf(s0, w, h, l2)
      {
        SwapOtherLine(s0, w, h, l, k, p, l2);
      }
      if PackedTo(t0, k) {
        MovedPackedEnd(t0, k, p);
      }
    }
  }

  /** Lines before l that were packed stay packed when only line l changes. */
  lemma KeptPacked(s0: seq<char>, s: seq<char>, w: nat, h: nat, l: Line, toStart: bool)
    requires |s0| == Row(w, h) && |s| == Row(w, h) && OthersKept(s0, s, w, h, l)
    requires PackedLines(s0, w, h, l.Column?, toStart, LineNo(l))
    ensures PackedLines(s, w, h, l.Column?, toStart, LineNo(l))
  {
    forall l2: Line | l2.Column? == l.Column? && LineOk(w, h, l2) && LineNo(l2) < LineNo(l)
      ensures Packed(LineOf(s, w, h, l2), toStart)
    {
      assert LineOf(s, w, h, l2) == LineOf(s0, w, h, l2);
    }
  }

  /** Once line l is packed too, the lines up to and including l are. */
  lemma PackedLinesNext(s: seq<char>, w: nat, h: nat, l: Line, toStart: bool)
    requires |s| == Row(w, h) && LineOk(w, h, l)
    requires PackedLines(s, w, h, l.Column?, toStart, LineNo(l)) && Packed(LineOf(s, w, h, l), toStart)
    ensures PackedLines(s, w, h, l.Column?, toStart, LineNo(l) + 1)
  {
    forall l2: Line | l2.Column? == l.Column? && LineOk(w, h, l2) && LineNo(l2) < LineNo(l) + 1
      ensures Packed(LineOf(s, w, h, l2), toStart)
    {
      if LineNo(l2) == LineNo(l) {
        assert l2 == l;
      }
    }
  }

  // ---------------------------------------------------------------------
  // A tilt has one result
  // ---------------------------------------------------------------------

  /** The round-rock count of a prefix grows with the prefix. */
  lemma {:induction false} CountMono(t: seq<char>, a: nat, b: nat)
    requires a <= b <= |t|
    ensures Count(t[..a]) <= Count(t[..b])
    decreases b - a
  {
    if a < b {
      CountMono(t, a, b - 1);
      assert t[..b][..b - 1] == t[..b - 1];
    }
  }

  /** A stretch without round rocks adds nothing to the count. */
  lemma {:induction false} CountFlat(t: seq<char>, a: nat, b: nat)
    requires a <= b <= |t| && forall i :: a <= i < b ==> t[i] != 'O'
    ensures Count(t[..a]) == Count(t[..b])
    decreases b - a
  {
    if a < b {
      CountFlat(t, a, b - 1);
      assert t[..b][..b - 1] == t[..b - 1];
    }
  }

  /** The end of the segment holding cell m: the next cube rock, or the line's end. */
  function NextCube(t: seq<char>, m: nat): (e: nat)
    requires m <= |t|
    ensures m <= e <= |t| && (e == |t| || t[e] == '#')
    ensures forall i :: m <= i < e ==> t[i] != '#'
    decreases |t| - m
  {
    if m == |t| || t[m] == '#' then m else NextCube(t, m + 1)
  }

  /**
   * In a line packed toward its start, an empty cell ends the rocks of its
   * segment: the segment holds no more rocks than the cells before it.
   */
  lemma SegmentCountAtHole(t: seq<char>, v: seq<char>, m: nat)
    requires SameSegments(t, v) && PackedFrom(v, 0) && m < |t| && v[m] == '.'
    ensures Count(t[..NextCube(t, m)]) == Count(v[..m])
  {
    var e := NextCube(t, m);
    forall i | m <= i < e ensures v[i] != 'O' {
      if i > m && v[i] == 'O' {
        assert false;
      }
    }
    CountFlat(v, m, e);
  }

  /** A round rock at cell m adds one to its segment's count past the cells before it. */
  lemma SegmentCountAtRock(t: seq<char>, u: seq<char>, m: nat)
    requires SameSegments(t, u) && m < |t| && u[m] == 'O'
    ensures Count(t[..NextCube(t, m)]) >= Count(u[..m]) + 1
  {
    CountMono(u, m + 1, NextCube(t, m));
    assert u[..m + 1][..m] == u[..m];
  }

  /**
   * Two packed lines with the segments of t that agree before cell m agree
   * at m when one of them has a round rock there: the other, holding an
   * empty cell, would have one rock fewer in that segment.
   */
  lemma PackedAgreeAt(t: seq<char>, u: seq<char>, v: seq<char>, m: nat)
    requires SameSegments(t, u) && SameSegments(t, v) && AllCells(v)
    requires PackedFrom(v, 0)
    requires m < |t| && u[..m] == v[..m] && u[m] == 'O'
    ensures v[m] == 'O'
  {
    if v[m] != 'O' {
      SegmentCountAtHole(t, v, m);
      SegmentCountAtRock(t, u, m);
      assert false;
    }
  }

  /** Two packed lines with the segments of t agree on every prefix. */
  lemma {:induction false} PackedPrefix(t: seq<char>, u: seq<char>, v: seq<char>, m: nat)
    requires SameSegments(t, u) && SameSegments(t, v) && AllCells(u) && AllCells(v)
    requires PackedFrom(u, 0) && PackedFrom(v, 0) && m <= |t|
    ensures u[..m] == v[..m]
  {
    if m > 0 {
      var k := m - 1;
      PackedPrefix(t, u, v, k);
      if u[k] == 'O' {
        PackedAgreeAt(t, u, v, k);
      } else if v[k] == 'O' {
        PackedAgreeAt(t, v, u, k);
      }
      assert u[..m] == u[..k] + [u[k]] && v[..m] == v[..k] + [v[k]];
    }
  }

  /** A line is determined by its segments' rock counts once its rocks are packed toward its start. */
  lemma PackedUnique(t: seq<char>, u: seq<char>, v: seq<char>)
    requires SameSegments(t, u) && SameSegments(t, v) && AllCells(u) && AllCells(v)
    requires PackedFrom(u, 0) && PackedFrom(v, 0)
    ensures u == v
  {
    PackedPrefix(t, u, v, |t|);
    assert u == u[..|t|] && v == v[..|t|];
  }

  /** Every index of a w-by-h buffer is the index of a cell. */
  lemma {:induction false} CellOf(w: nat, h: nat, i: nat) returns (x: nat, y: nat)
    requires i < Row(w, h)
    ensures x < w && y < h && Row(w, y) + x == i
  {
    if i < Row(w, h - 1) {
      x, y := CellOf(w, h - 1, i);
    } else {
      x, y := i - Row(w, h - 1), h - 1;
    }
  }

  /** The cells of a line are cells of the grid. */
  lemma LineCells(s: seq<char>, w: nat, h: nat, l: Line)
    requires |s| == Row(w, h) && LineOk(w, h, l) && AllCells(s)
    ensures AllCells(LineOf(s, w, h, l))
  {
    forall k | 0 <= k < LineLen(w, h, l) ensures IsCell(LineOf(s, w, h, l)[k]) {
      LineOfAt(s, w, h, l, k);
    }
  }

  /**
   * Tilting north has one result: two grids that keep every column segment's
   * rock count of s0 and have their rocks packed north are the same grid.
   */
  lemma TiltUpUnique(s0: seq<char>, s1: seq<char>, s2: seq<char>, w: nat, h: nat)
    requires |s0| == Row(w, h) && |s1| == Row(w, h) && |s2| == Row(w, h) && AllCells(s1) && AllCells(s2)
    requires Settled(s0, s1, w, h, true) && Settled(s0, s2, w, h, true)
    requires PackedLines(s1, w, h, true, true, w) && PackedLines(s2, w, h, true, true, w)
    ensures s1 == s2
  {
    forall i | 0 <= i < |s1| ensures s1[i] == s2[i] {
      var x, y := CellOf(w, h, i);
      var l := Column(x);
      LineCells(s1, w, h, l);
      LineCells(s2, w, h, l);
      assert Packed(LineOf(s1, w, h, l), true) && Packed(LineOf(s2, w, h, l), true);
      PackedUnique(LineOf(s0, w, h, l), LineOf(s1, w, h, l), LineOf(s2, w, h, l));
      LineOfAt(s1, w, h, l, y);
      LineOfAt(s2, w, h, l, y);
    }
  }

  // ---------------------------------------------------------------------
  // Load
  // ---------------------------------------------------------------------

  /** The load of one column: (height - y) for each round rock at row y. */
  function ColumnLoad(t: seq<char>, h: nat): nat {
    if t == [] then 0
    else ColumnLoad(t[..|t| - 1], h) + (if t[|t| - 1] == 'O' && |t| <= h then h - (|t| - 1) else 0)
  }

  /** The total load: the column loads summed over the first n columns. */
  function Load(s: seq<char>, w: nat, h: nat, n: nat): nat
    requires |s| == Row(w, h) && n <= w
  {
    if n == 0 then 0 else Load(s, w, h, n - 1) + ColumnLoad(LineOf(s, w, h, Column(n - 1)), h)
  }

  /** Each round rock in a column of height h adds between 1 and h to the load. */
  lemma {:induction false} ColumnLoadBounds(t: seq<char>, h: nat)
    requires |t| <= h
    ensures Count(t) <= ColumnLoad(t, h) <= h * Count(t)
  {
    if t != [] {
      ColumnLoadBounds(t[..|t| - 1], h);
      assert h * (Count(t[..|t| - 1]) + 1) == h * Count(t[..|t| - 1]) + h;
    }
  }

  // ---------------------------------------------------------------------
  // The grid
  // ---------------------------------------------------------------------

  class Grid {
    const width: nat
    const height: nat
    const chars: array<char>

    ghost predicate Valid()
      reads this, chars
    {
      chars.Length == Row(width, height) && AllCells(chars[..])
    }

    /** `Grid::from`: the lines' characters row-major, width from the first line. */
    constructor (text: string)
      requires Lines(text) != [] && |Lines(text)[0]| > 0
      requires Rectangular(Lines(text), |Lines(text)[0]|) && AllCells(Concat(Lines(text)))
      ensures Valid() && fresh(chars)
      ensures width == |Lines(text)[0]| && height == |Lines(text)|
      ensures chars[..] == Concat(Lines(text))
    {
      var ls := Lines(text);
      var w := |ls[0]|;
      var cs: seq<char> := [];
      for i := 0 to |ls|
        invariant cs == Concat(ls[..i])
      {
        assert ls[..i + 1] == ls[..i] + [ls[i]];
        ConcatSnoc(ls[..i], ls[i]);
        cs := cs + ls[i];
      }
      assert ls[..|ls|] == ls;
      RectangularLength(ls, w);
      RowProduct(w, |ls|);
      DivMod(0, |ls|, w);
      width := w;
      height := |cs| / w;
      chars := new char[|cs|](i requires 0 <= i < |cs| => cs[i]);
    }

    /** `Grid::get`. */
    function Get(c: Coord): (ch: char)
      reads this, chars
      requires Valid() && c.x < width && c.y < height
      ensures IsCell(ch)
    {
      IndexBound(c.x, c.y, width, height);
      chars[Index(width, c)]
    }

    /** `Grid::swap`: exchanges exactly the two addressed cells. */
    method Swap(a: Coord, b: Coord)
      requires Valid() && a.x < width && a.y < height && b.x < width && b.y < height
      modifies chars
      ensures Index(width, a) < chars.Length && Index(width, b) < chars.Length
      ensures chars[..] == old(chars[..])[Index(width, a) := old(chars[Index(width, b)])][Index(width, b) := old(chars[Index(width, a)])]
      ensures Valid()
    {
      IndexBound(a.x, a.y, width, height);
      IndexBound(b.x, b.y, width, height);
      var ia, ib := Index(width, a), Index(width, b);
      chars[ia], chars[ib] := chars[ib], chars[ia];
    }

    /**
     * The inner loop of `tilt_up` and `tilt_left`, for the rock at cell k of
     * line l: scan toward the line's start, swapping the rock's original cell
     * with each empty cell met, skipping round rocks and stopping at a cube rock.
     */
    method RollToStart(l: Line, k: nat)
      requires Valid() && LineOk(width, height, l) && k < LineLen(width, height, l)
      requires Get(CoordAt(l, k)) == 'O'
      modifies chars
      ensures Valid()
      ensures Settled(old(chars[..]), chars[..], width, height, l.Column?)
      ensures OthersKept(old(chars[..]), chars[..], width, height, l)
      ensures PackedFrom(LineOf(old(chars[..]), width, height, l), k + 1) ==>
        PackedFrom(LineOf(chars[..], width, height, l), k)
    {
      ghost var s0 := chars[..];
      SettledRefl(s0, width, height, l.Column?);
      ghost var n := LineLen(width, height, l);
      LineOfAt(chars[..], width, height, l, k);
      var j: nat := k;
      ghost var p: int := -1;
      ghost var done := false;
      while j > 0
        invariant j <= k < n && Valid() && !done
        invariant Settled(s0, chars[..], width, height, l.Column?)
        invariant forall i :: j <= i <= k ==> LineOf(chars[..], width, height, l)[i] != '#'
        invariant Rolling(s0, chars[..], width, height, l, k, j, p)
      {
        j := j - 1;
        ghost var before := chars[..];
        var cube := ScanCell(l, k, j, s0);
        if cube {
          RollFinish(s0, chars[..], width, height, l, k, j, p);
          done := true;
          break;
        }
        p := RollStep(s0, before, chars[..], width, height, l, k, j, p);
      }
      if !done {
        RollFinish(s0, chars[..], width, height, l, k, -1, p);
      }
    }

    /**
     * The inner loop of `tilt_down` and `tilt_right`: the same scan toward the
     * line's end, starting at the rock's own cell.
     */
    method RollToEnd(l: Line, k: nat)
      requires Valid() && LineOk(width, height, l) && k < LineLen(width, height, l)
      requires Get(CoordAt(l, k)) == 'O'
      modifies chars
      ensures Valid()
      ensures Settled(old(chars[..]), chars[..], width, height, l.Column?)
      ensures OthersKept(old(chars[..]), chars[..], width, height, l)
      ensures PackedTo(LineOf(old(chars[..]), width, height, l), k) ==>
        PackedTo(LineOf(chars[..], width, height, l), k + 1)
    {
      ghost var s0 := chars[..];
      SettledRefl(s0, width, height, l.Column?);
      var n := LineLen(width, height, l);
      LineOfAt(chars[..], width, height, l, k);
      var j: nat := k;
      ghost var p: int := -1;
      while j < n
        invariant k <= j <= n && Valid()
        invariant Settled(s0, chars[..], width, height, l.Column?)
        invariant forall i :: (k <= i < j || i == k) ==> LineOf(chars[..], width, height, l)[i] != '#'
        invariant RollingEnd(s0, chars[..], width, height, l, k, j, p)
        invariant j == k ==> LineOf(chars[..], width, height, l)[k] == 'O'
      {
        ghost var before := chars[..];
        var cube := ScanCell(l, k, j, s0);
        if cube {
          break;
        }
        p := RollStepEnd(s0, before, chars[..], width, height, l, k, j, p);
        j := j + 1;
      }
      RollFinishEnd(s0, chars[..], width, height, l, k, j, p);
    }

    /**
     * One cell j of the scan of line l for the rock at k: an empty cell is
     * swapped with cell k, a round rock is skipped, and a cube rock is
     * reported so that the scan stops.
     */
    method ScanCell(l: Line, k: nat, j: nat, ghost s0: seq<char>) returns (cube: bool)
      requires Valid() && LineOk(width, height, l) && k < LineLen(width, height, l) && j < LineLen(width, height, l)
      requires forall i :: (k <= i < j || j < i <= k) ==> LineOf(chars[..], width, height, l)[i] != '#'
      requires |s0| == chars.Length && Settled(s0, chars[..], width, height, l.Column?)
      modifies chars
      ensures Valid() && Settled(s0, chars[..], width, height, l.Column?)
      ensures cube == (LineOf(old(chars[..]), width, height, l)[j] == '#')
      ensures !cube ==> forall i :: (k <= i <= j || j <= i <= k) ==> LineOf(chars[..], width, height, l)[i] != '#'
      ensures Pos(width, l, k) < chars.Length && Pos(width, l, j) < chars.Length
      ensures LineOf(old(chars[..]), width, height, l)[j] == '.' ==>
        chars[..] == Swapped(old(chars[..]), Pos(width, l, k), Pos(width, l, j))
      ensures LineOf(old(chars[..]), width, height, l)[j] != '.' ==> chars[..] == old(chars[..])
    {
      PosBound(width, height, l, k);
      var c := Get(CoordAt(l, j));
      LineOfAt(chars[..], width, height, l, j);
      cube := c == '#';
      if c == '.' {
        SwapStep(l, k, j, s0);
      }
    }

    /** One swap of the scan: the two cells of line l and everything between them hold no cube rock. */
    method SwapStep(l: Line, k: nat, j: nat, ghost s0: seq<char>)
      requires Valid() && LineOk(width, height, l) && k < LineLen(width, height, l) && j < LineLen(width, height, l)
      requires forall i :: (k <= i <= j || j <= i <= k) ==> LineOf(chars[..], width, height, l)[i] != '#'
      requires |s0| == chars.Length && Settled(s0, chars[..], width, height, l.Column?)
      modifies chars
      ensures Valid() && Settled(s0, chars[..], width, height, l.Column?)
      ensures forall i :: (k <= i <= j || j <= i <= k) ==> LineOf(chars[..], width, height, l)[i] != '#'
      ensures Pos(width, l, k) < chars.Length && Pos(width, l, j) < chars.Length
      ensures chars[..] == Swapped(old(chars[..]), Pos(width, l, k), Pos(width, l, j))
    {
      ghost var before := chars[..];
      SwapSettled(before, width, height, l, k, j);
      Swap(CoordAt(l, k), CoordAt(l, j));
      SettledTrans(s0, before, chars[..], width, height, l.Column?);
      forall i | k <= i <= j || j <= i <= k ensures LineOf(chars[..], width, height, l)[i] != '#' {
        LineOfAt(chars[..], width, height, l, i);
        LineOfAt(before, width, height, l, i);
        LineOfAt(before, width, height, l, k);
        LineOfAt(before, width, height, l, j);
      }
    }

    /** `tilt_up`: every column, rocks from the bottom row up, each rolled toward row 0. */
    method TiltUp()
      requires Valid()
      modifies chars
      ensures Valid() && Settled(old(chars[..]), chars[..], width, height, true)
      ensures PackedLines(chars[..], width, height, true, true, width)
    {
      ghost var s0 := chars[..];
      SettledRefl(s0, width, height, true);
      for x := 0 to width
        invariant Valid() && Settled(s0, chars[..], width, height, true)
        invariant PackedLines(chars[..], width, height, true, true, x)
      {
        var y: nat := height;
        while y > 0
          invariant y <= height && Valid() && Settled(s0, chars[..], width, height, true)
          invariant PackedLines(chars[..], width, height, true, true, x)
          invariant PackedFrom(LineOf(chars[..], width, height, Column(x)), y)
        {
          y := y - 1;
          LineOfAt(chars[..], width, height, Column(x), y);
          if Get(Coord(x, y)) == 'O' {
            ghost var before := chars[..];
            RollToStart(Column(x), y);
            SettledTrans(s0, before, chars[..], width, height, true);
            KeptPacked(before, chars[..], width, height, Column(x), true);
          }
        }
        PackedLinesNext(chars[..], width, height, Column(x), true);
      }
    }

    /** `tilt_down`: every column, rocks from the top row down, each rolled toward the last row. */
    method TiltDown()
      requires Valid()
      modifies chars
      ensures Valid() && Settled(old(chars[..]), chars[..], width, height, true)
      ensures PackedLines(chars[..], width, height, true, false, width)
    {
      ghost var s0 := chars[..];
      SettledRefl(s0, width, height, true);
      for x := 0 to width
        invariant Valid() && Settled(s0, chars[..], width, height, true)
        invariant PackedLines(chars[..], width, height, true, false, x)
      {
        for y := 0 to height
          invariant Valid() && Settled(s0, chars[..], width, height, true)
          invariant PackedLines(chars[..], width, height, true, false, x)
          invariant PackedTo(LineOf(chars[..], width, height, Column(x)), y)
        {
          LineOfAt(chars[..], width, height, Column(x), y);
          if Get(Coord(x, y)) == 'O' {
            ghost var before := chars[..];
            RollToEnd(Column(x), y);
            SettledTrans(s0, before, chars[..], width, height, true);
            KeptPacked(before, chars[..], width, height, Column(x), false);
          }
        }
        PackedLinesNext(chars[..], width, height, Column(x), false);
      }
    }

    /** `tilt_left`: every row, rocks from the last column back, each rolled toward column 0. */
    method TiltLeft()
      requires Valid()
      modifies chars
      ensures Valid() && Settled(old(chars[..]), chars[..], width, height, false)
      ensures PackedLines(chars[..], width, height, false, true, height)
    {
      ghost var s0 := chars[..];
      SettledRefl(s0, width, height, false);
      for y := 0 to height
        invariant Valid() && Settled(s0, chars[..], width, height, false)
        invariant PackedLines(chars[..], width, height, false, true, y)
      {
        var x: nat := width;
        while x > 0
          invariant x <= width && Valid() && Settled(s0, chars[..], width, height, false)
          invariant PackedLines(chars[..], width, height, false, true, y)
          invariant PackedFrom(LineOf(chars[..], width, height, Across(y)), x)
        {
          x := x - 1;
          LineOfAt(chars[..], width, height, Across(y), x);
          if Get(Coord(x, y)) == 'O' {
            ghost var before := chars[..];
            RollToStart(Across(y), x);
            SettledTrans(s0, before, chars[..], width, height, false);
            KeptPacked(before, chars[..], width, height, Across(y), true);
          }
        }
        PackedLinesNext(chars[..], width, height, Across(y), true);
      }
    }

    /** `tilt_right`: every row, rocks from column 0 on, each rolled toward the last column. */
    method TiltRight()
      requires Valid()
      modifies chars
      ensures Valid() && Settled(old(chars[..]), chars[..], width, height, false)
      ensures PackedLines(chars[..], width, height, false, false, height)
    {
      ghost var s0 := chars[..];
      SettledRefl(s0, width, height, false);
      for y := 0 to height
        invariant Valid() && Settled(s0, chars[..], width, height, false)
        invariant PackedLines(chars[..], width, height, false, false, y)
      {
        for x := 0 to width
          invariant Valid() && Settled(s0, chars[..], width, height, false)
          invariant PackedLines(chars[..], width, height, false, false, y)
          invariant PackedTo(LineOf(chars[..], width, height, Across(y)), x)
        {
          LineOfAt(chars[..], width, height, Across(y), x);
          if Get(Coord(x, y)) == 'O' {
            ghost var before := chars[..];
            RollToEnd(Across(y), x);
            SettledTrans(s0, before, chars[..], width, height, false);
            KeptPacked(before, chars[..], width, height, Across(y), false);
          }
        }
        PackedLinesNext(chars[..], width, height, Across(y), false);
      }
    }

    /** `get_load`: (height - y) summed over the round rocks, column by column. */
    method GetLoad() returns (total: nat)
      requires Valid()
      ensures total == Load(chars[..], width, height, width)
    {
      total := 0;
      for x := 0 to width
        invariant total == Load(chars[..], width, height, x)
      {
        var colLoad := ColumnLoadAt(x);
        total := total + colLoad;
      }
    }

    /** The inner loop of `get_load`: the rows of column x from the top. */
    method ColumnLoadAt(x: nat) returns (colLoad: nat)
      requires Valid() && x < width
      ensures colLoad == ColumnLoad(LineOf(chars[..], width, height, Column(x)), height)
    {
      ghost var col := LineOf(chars[..], width, height, Column(x));
      colLoad := 0;
      for y := 0 to height
        invariant colLoad == ColumnLoad(col[..y], height)
      {
        assert col[..y + 1][..y] == col[..y];
        LineOfAt(chars[..], width, height, Column(x), y);
        if Get(Coord(x, y)) == 'O' {
          colLoad := colLoad + (height - y);
        }
      }
      assert col[..height] == col;
    }
  }

  /** A settled column pair keeps its round-rock count, so the load stays within the same bounds. */
  lemma SettledColumnLoad(s0: seq<char>, s: seq<char>, w: nat, h: nat, x: nat)
    requires |s0| == Row(w, h) && |s| == Row(w, h) && x < w && Settled(s0, s, w, h, true)
    ensures Count(LineOf(s, w, h, Column(x))) == Count(LineOf(s0, w, h, Column(x)))
    ensures Count(LineOf(s0, w, h, Column(x))) <= ColumnLoad(LineOf(s, w, h, Column(x)), h)
      <= h * Count(LineOf(s0, w, h, Column(x)))
  {
    var t, u := LineOf(s0, w, h, Column(x)), LineOf(s, w, h, Column(x));
    assert SameSegments(t, u);
    assert t[..|t|] == t && u[..|u|] == u;
    ColumnLoadBounds(u, h);
  }

  /** `solution_1`: tilt the dish north and weigh it. */
  method Solution1(text: string) returns (load: nat, tilted: seq<char>)
    requires Lines(text) != [] && |Lines(text)[0]| > 0
    requires Rectangular(Lines(text), |Lines(text)[0]|) && AllCells(Concat(Lines(text)))
    ensures |Concat(Lines(text))| == Row(|Lines(text)[0]|, |Lines(text)|) == |tilted|
    ensures Settled(Concat(Lines(text)), tilted, |Lines(text)[0]|, |Lines(text)|, true)
    ensures PackedLines(tilted, |Lines(text)[0]|, |Lines(text)|, true, true, |Lines(text)[0]|) && AllCells(tilted)
    ensures load == Load(tilted, |Lines(text)[0]|, |Lines(text)|, |Lines(text)[0]|)
  {
    var grid := new Grid(text);
    grid.TiltUp();
    load := grid.GetLoad();
    tilted := grid.chars[..];
  }
}
