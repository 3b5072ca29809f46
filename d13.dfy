/**
 * Mirrors in the ash and rock patterns (src/bin/d13.rs): a pattern is kept
 * as its rows and its columns, and a line of reflection is searched for
 * among the rows (a horizontal mirror) and among the columns (a vertical
 * one), exactly, or with exactly one character smudged.
 */
module D13 {
  import opened Text

  /** A pattern: its rows and its columns (the rows transposed). */
  datatype Grid = Grid(rows: seq<string>, cols: seq<string>)

  function Min(a: nat, b: nat): nat {
    if a <= b then a else b
  }

  /** Column i: the i-th character of every row long enough to have one, top to bottom. */
  function Column(rows: seq<string>, i: nat): seq<char>
    decreases |rows|
  {
    if rows == [] then []
    else
      var last := rows[|rows| - 1];
      Column(rows[..|rows| - 1], i) + (if i < |last| then [last[i]] else [])
  }

  /** What `Grid::from` needs: a first row, and no row longer than it (a longer one indexes past the columns). */
  predicate Fits(rows: seq<string>) {
    |rows| > 0 && forall j :: 0 <= j < |rows| ==> |rows[j]| <= |rows[0]|
  }

  /** The columns of the rows: as many as the first row is long. */
  function Cols(rows: seq<string>): (cols: seq<string>)
    requires Fits(rows)
    ensures |cols| == |rows[0]|
  {
    seq(|rows[0]|, i requires 0 <= i < |rows[0]| => Column(rows, i))
  }

  /** For rows of equal length the columns are the transpose: column i, row j is row j, column i. */
  lemma {:induction false} Transpose(rows: seq<string>, w: nat)
    requires Rectangular(rows, w)
    ensures forall i :: 0 <= i < w ==> |Column(rows, i)| == |rows|
    ensures forall i, j :: 0 <= i < w && 0 <= j < |rows| ==> Column(rows, i)[j] == rows[j][i]
    decreases |rows|
  {
    if rows != [] {
      var pre := rows[..|rows| - 1];
      assert Rectangular(pre, w) by {
        assert forall j :: 0 <= j < |pre| ==> pre[j] == rows[j];
      }
      Transpose(pre, w);
      forall i | 0 <= i < w ensures |Column(rows, i)| == |rows| {
        assert Column(rows, i) == Column(pre, i) + [rows[|rows| - 1][i]];
      }
      forall i, j | 0 <= i < w && 0 <= j < |rows| ensures Column(rows, i)[j] == rows[j][i] {
        if j < |pre| {
          assert rows[j] == pre[j];
        }
      }
    }
  }

  /** `Grid::from`: the lines are the rows; each character is pushed onto the column of its index. */
  method FromChunk(chunk: string) returns (g: Grid)
    requires Fits(Lines(chunk))
    ensures g == Grid(Lines(chunk), Cols(Lines(chunk)))
  {
    var rows := Lines(chunk);
    var w := |rows[0]|;
    var cols: seq<string> := Repeat([], w);
    for j := 0 to |rows|
      invariant |cols| == w && forall i :: 0 <= i < w ==> cols[i] == Column(rows[..j], i)
    {
      var line := rows[j];
      for i := 0 to |line|
        invariant |cols| == w
        invariant forall x :: 0 <= x < w ==> cols[x] == Column(rows[..j], x) + (if x < i then [line[x]] else [])
      {
        cols := cols[i := cols[i] + [line[i]]];
      }
      assert rows[..j + 1][..j] == rows[..j];
    }
    assert rows[..|rows|] == rows;
    g := Grid(rows, cols);
  }

  // ---------------------------------------------------------------------
  // Exact mirrors
  // ---------------------------------------------------------------------

  /** The t-th pair about line k (between entries k-1 and k) agrees: entry k-1-t equals entry k+t. */
  predicate PairAgrees(value: seq<string>, k: nat, t: nat)
    requires t < k && k + t < |value|
  {
    value[k - 1 - t] == value[k + t]
  }

  /** Line k reflects: every pair about it agrees, up to the nearer edge. */
  predicate Mirror(value: seq<string>, k: nat)
    requires k <= |value|
  {
    forall t: nat :: t < Min(k, |value| - k) ==> PairAgrees(value, k, t)
  }

  /** `zip(..).all(|(t, b)| t == b)`: the two lists agree as far as the shorter one goes. */
  function ZipEqual(ts: seq<string>, bs: seq<string>): (r: bool)
    ensures r <==> forall t :: 0 <= t < Min(|ts|, |bs|) ==> ts[t] == bs[t]
  {
    if ts == [] || bs == [] then true else ts[0] == bs[0] && ZipEqual(ts[1..], bs[1..])
  }

  /** The test of `get_reflect_1` for line k: the part above reversed against the part below. */
  lemma MirrorTest(value: seq<string>, k: nat)
    requires k <= |value|
    ensures ZipEqual(Reverse(value[..k]), value[k..]) <==> Mirror(value, k)
  {
    var ts, bs := Reverse(value[..k]), value[k..];
    forall t: nat | t < Min(k, |value| - k)
      ensures ts[t] == bs[t] <==> PairAgrees(value, k, t)
    {
      assert ts[t] == value[..k][k - 1 - t] == value[k - 1 - t];
      assert bs[t] == value[k + t];
    }
  }

  /** The first reflecting line from k on. */
  function FirstMirrorFrom(value: seq<string>, k: nat): (r: Option<nat>)
    requires 1 <= k
    decreases |value| - k
  {
    if k >= |value| then None
    else if Mirror(value, k) then Some(k)
    else FirstMirrorFrom(value, k + 1)
  }

  function FirstMirror(value: seq<string>): Option<nat> {
    FirstMirrorFrom(value, 1)
  }

  /** The first reflecting line is the least line in 1..len-1 that reflects, and there is none when it is None. */
  lemma {:induction false} FirstMirrorLeast(value: seq<string>, k: nat)
    requires 1 <= k
    ensures var r := FirstMirrorFrom(value, k);
      && (r.Some? ==> k <= r.value < |value| && Mirror(value, r.value)
                      && forall j :: k <= j < r.value ==> !Mirror(value, j))
      && (r.None? ==> forall j :: k <= j < |value| ==> !Mirror(value, j))
    decreases |value| - k
  {
    if k < |value| && !Mirror(value, k) {
      FirstMirrorLeast(value, k + 1);
    }
  }

  /** `get_reflect_1`: the first line from the top (or left) at which the pattern reflects. */
  method Reflect1(value: seq<string>) returns (r: Option<nat>)
    requires |value| >= 1
    ensures r == FirstMirror(value)
    ensures r.Some? ==> 1 <= r.value < |value| && Mirror(value, r.value)
    ensures forall j :: 1 <= j < |value| && (r.None? || j < r.value) ==> !Mirror(value, j)
  {
    for i := 0 to |value| - 1
      invariant FirstMirror(value) == FirstMirrorFrom(value, i + 1)
    {
      var t := value[0..i + 1];
      var b := value[i + 1..|value|];
      MirrorTest(value, i + 1);
      if ZipEqual(Reverse(t), b) {
        r := Some(i + 1);
        FirstMirrorLeast(value, 1);
        return;
      }
    }
    r := None;
    FirstMirrorLeast(value, 1);
  }

  // ---------------------------------------------------------------------
  // Mirrors with one smudge
  // ---------------------------------------------------------------------

  /** The positions below n where the two strings differ. */
  function CountDiff(a: string, b: string, n: nat): nat
    requires n <= |a| && n <= |b|
  {
    if n == 0 then 0 else CountDiff(a, b, n - 1) + (if a[n - 1] != b[n - 1] then 1 else 0)
  }

  /** The characters that differ between two zipped strings. */
  function PairDiff(a: string, b: string): nat {
    CountDiff(a, b, Min(|a|, |b|))
  }

  /** Identical strings differ nowhere, and strings differing nowhere are identical when equally long. */
  lemma {:induction false} CountDiffZero(a: string, b: string, n: nat)
    requires n <= |a| && n <= |b|
    ensures CountDiff(a, b, n) == 0 <==> a[..n] == b[..n]
    decreases n
  {
    if n > 0 {
      CountDiffZero(a, b, n - 1);
      assert a[..n] == a[..n - 1] + [a[n - 1]] && b[..n] == b[..n - 1] + [b[n - 1]];
      if a[..n] == b[..n] {
        assert a[..n - 1] == a[..n][..n - 1] && b[..n - 1] == b[..n][..n - 1];
        assert a[n - 1] == a[..n][n - 1];
      }
    }
  }

  /** The differences between the first n mirrored pairs about line k. */
  function Partial(value: seq<string>, k: nat, n: nat): nat
    requires k <= |value| && n <= Min(k, |value| - k)
  {
    if n == 0 then 0 else Partial(value, k, n - 1) + PairDiff(value[k - n], value[k + n - 1])
  }

  /** The differences between all mirrored pairs about line k. */
  function Smudges(value: seq<string>, k: nat): nat
    requires k <= |value|
  {
    Partial(value, k, Min(k, |value| - k))
  }

  lemma {:induction false} PartialMono(value: seq<string>, k: nat, n: nat, m: nat)
    requires k <= |value| && n <= m <= Min(k, |value| - k)
    ensures Partial(value, k, n) <= Partial(value, k, m)
    decreases m - n
  {
    if n < m {
      PartialMono(value, k, n, m - 1);
    }
  }

  /** A line with no smudges at all is an exact mirror, and an exact mirror has none (for rows of equal length). */
  lemma {:induction false} NoSmudgeIsMirror(value: seq<string>, k: nat, w: nat)
    requires k <= |value| && Rectangular(value, w)
    ensures Smudges(value, k) == 0 <==> Mirror(value, k)
  {
    var m := Min(k, |value| - k);
    PartialZero(value, k, m, w);
  }

  lemma {:induction false} PartialZero(value: seq<string>, k: nat, n: nat, w: nat)
    requires k <= |value| && n <= Min(k, |value| - k) && Rectangular(value, w)
    ensures Partial(value, k, n) == 0 <==> forall t: nat :: t < n ==> PairAgrees(value, k, t)
    decreases n
  {
    if n > 0 {
      PartialZero(value, k, n - 1, w);
      var a, b := value[k - n], value[k + n - 1];
      assert |a| == w && |b| == w;
      PairDiffZero(a, b, w);
      assert Partial(value, k, n) == Partial(value, k, n - 1) + PairDiff(a, b);
      assert PairAgrees(value, k, n - 1) <==> a == b;
    }
  }

  /** A line found by the smudged search is never an exact mirror of rows of equal length: the two parts find different lines. */
  lemma SmudgeIsNotMirror(value: seq<string>, k: nat, w: nat)
    requires k <= |value| && Rectangular(value, w) && Smudges(value, k) == 1
    ensures !Mirror(value, k)
  {
    NoSmudgeIsMirror(value, k, w);
  }

  /** Two strings of length w differ nowhere exactly when they are equal. */
  lemma PairDiffZero(a: string, b: string, w: nat)
    requires |a| == w && |b| == w
    ensures PairDiff(a, b) == 0 <==> a == b
  {
    CountDiffZero(a, b, w);
    assert a[..w] == a && b[..w] == b;
  }

  /** `diff_num += 1` for each differing character of one zipped pair (the innermost loop). */
  method AddPairDiff(a: string, b: string, diff: nat) returns (d: nat)
    ensures d == diff + PairDiff(a, b)
  {
    d := diff;
    for j := 0 to Min(|a|, |b|)
      invariant d == diff + CountDiff(a, b, j)
    {
      if a[j] != b[j] {
        d := d + 1;
      }
    }
  }

  /** The n-th pair of the reversed top half and the bottom half is the n-th mirrored pair about k. */
  lemma PartialStep(value: seq<string>, k: nat, n: nat, t: seq<string>, b: seq<string>)
    requires k <= |value| && t == Reverse(value[0..k]) && b == value[k..|value|] && n < Min(|t|, |b|)
    ensures n + 1 <= Min(k, |value| - k)
    ensures Partial(value, k, n + 1) == Partial(value, k, n) + PairDiff(t[n], b[n])
  {
    assert t[n] == value[0..k][k - 1 - n] == value[k - (n + 1)];
    assert b[n] == value[k + n];
  }

  /** Stopping at the end of the pairs, or once above one, decides whether the line has exactly one smudge. */
  lemma SmudgeCountDone(value: seq<string>, k: nat, n: nat, diff: nat)
    requires k <= |value| && n <= Min(k, |value| - k) && diff == Partial(value, k, n)
    requires n == Min(k, |value| - k) || diff > 1
    ensures diff == 1 <==> Smudges(value, k) == 1
  {
    PartialMono(value, k, n, Min(k, |value| - k));
  }

  /**
   * The pair loop of `get_reflect_2` for line k: adds up differences pair by
   * pair and stops once more than one is found, so the count is the line's
   * smudges, or a part of them already above one.
   */
  method CountSmudges(value: seq<string>, k: nat) returns (diff: nat)
    requires k <= |value|
    ensures diff == 1 <==> Smudges(value, k) == 1
  {
    var t := Reverse(value[0..k]);
    var b := value[k..|value|];
    diff := 0;
    var n := 0;
    while n < Min(|t|, |b|)
      invariant n <= Min(k, |value| - k) && diff == Partial(value, k, n)
    {
      PartialStep(value, k, n, t, b);
      diff := AddPairDiff(t[n], b[n], diff);
      n := n + 1;
      if diff > 1 {
        break;
      }
    }
    SmudgeCountDone(value, k, n, diff);
  }

  /** The first line from k on with exactly one smudge. */
  function FirstSmudgeFrom(value: seq<string>, k: nat): (r: Option<nat>)
    requires 1 <= k
    decreases |value| - k
  {
    if k >= |value| then None
    else if Smudges(value, k) == 1 then Some(k)
    else FirstSmudgeFrom(value, k + 1)
  }

  function FirstSmudge(value: seq<string>): Option<nat> {
    FirstSmudgeFrom(value, 1)
  }

  lemma {:induction false} FirstSmudgeLeast(value: seq<string>, k: nat)
    requires 1 <= k
    ensures var r := FirstSmudgeFrom(value, k);
      && (r.Some? ==> k <= r.value < |value| && Smudges(value, r.value) == 1
                      && forall j :: k <= j < r.value ==> Smudges(value, j) != 1)
      && (r.None? ==> forall j :: k <= j < |value| ==> Smudges(value, j) != 1)
    decreases |value| - k
  {
    if k < |value| && Smudges(value, k) != 1 {
      FirstSmudgeLeast(value, k + 1);
    }
  }

  /** `get_reflect_2`: the first line whose mirrored pairs differ in exactly one character in all. */
  method Reflect2(value: seq<string>) returns (r: Option<nat>)
    requires |value| >= 1
    ensures r == FirstSmudge(value)
    ensures r.Some? ==> 1 <= r.value < |value| && Smudges(value, r.value) == 1
    ensures forall j :: 1 <= j < |value| && (r.None? || j < r.value) ==> Smudges(value, j) != 1
  {
    FirstSmudgeLeast(value, 1);
    for i := 0 to |value| - 1
      invariant FirstSmudge(value) == FirstSmudgeFrom(value, i + 1)
    {
      var diffNum := CountSmudges(value, i + 1);
      if diffNum == 1 {
        return Some(i + 1);
      }
    }
    return None;
  }

  // ---------------------------------------------------------------------
  // Scores
  // ---------------------------------------------------------------------

  /** `filter_map(..).sum()`: the lines found, with nothing for a pattern without one. */
  function Found(r: Option<nat>): nat {
    if r.Some? then r.value else 0
  }

  /** What the solutions need of every pattern: a first row that is not empty and no longer row. */
  predicate Pattern(chunk: string) {
    Fits(Lines(chunk)) && |Lines(chunk)[0]| > 0
  }

  function RowsSum(chunks: seq<string>, smudge: bool): nat
    requires forall k :: 0 <= k < |chunks| ==> Pattern(chunks[k])
  {
    if chunks == [] then 0
    else
      var rows := Lines(chunks[|chunks| - 1]);
      RowsSum(chunks[..|chunks| - 1], smudge) + Found(if smudge then FirstSmudge(rows) else FirstMirror(rows))
  }

  function ColsSum(chunks: seq<string>, smudge: bool): nat
    requires forall k :: 0 <= k < |chunks| ==> Pattern(chunks[k])
  {
    if chunks == [] then 0
    else
      assert Pattern(chunks[|chunks| - 1]);
      var cols := Cols(Lines(chunks[|chunks| - 1]));
      ColsSum(chunks[..|chunks| - 1], smudge) + Found(if smudge then FirstSmudge(cols) else FirstMirror(cols))
  }

  /** The summary: a hundred times the rows above each horizontal mirror plus the columns left of each vertical one. */
  function Score(chunks: seq<string>, smudge: bool): nat
    requires forall k :: 0 <= k < |chunks| ==> Pattern(chunks[k])
  {
    RowsSum(chunks, smudge) * 100 + ColsSum(chunks, smudge)
  }

  /** grids[j] is the pattern of chunks[j]. */
  predicate Built(chunks: seq<string>, grids: seq<Grid>) {
    |grids| == |chunks| && forall j :: 0 <= j < |chunks| ==>
      Pattern(chunks[j]) && grids[j] == Grid(Lines(chunks[j]), Cols(Lines(chunks[j])))
  }

  /** `map(Grid::from).collect()`. */
  method Grids(chunks: seq<string>) returns (grids: seq<Grid>)
    requires forall k :: 0 <= k < |chunks| ==> Pattern(chunks[k])
    ensures Built(chunks, grids)
  {
    grids := [];
    for k := 0 to |chunks|
      invariant Built(chunks[..k], grids)
    {
      var g := FromChunk(chunks[k]);
      grids := grids + [g];
      assert chunks[..k + 1][..k] == chunks[..k];
    }
    assert chunks[..|chunks|] == chunks;
  }

  /** The mirror search of one solution on one list of rows or columns. */
  method Reflect(value: seq<string>, smudge: bool) returns (r: Option<nat>)
    requires |value| >= 1
    ensures r == if smudge then FirstSmudge(value) else FirstMirror(value)
  {
    if smudge {
      r := Reflect2(value);
    } else {
      r := Reflect1(value);
    }
  }

  /** `filter_map(|x| x.get_reflect(true)).sum()`. */
  method SumRows(chunks: seq<string>, grids: seq<Grid>, smudge: bool) returns (h: nat)
    requires forall k :: 0 <= k < |chunks| ==> Pattern(chunks[k])
    requires Built(chunks, grids)
    ensures h == RowsSum(chunks, smudge)
  {
    h := 0;
    for k := 0 to |grids|
      invariant h == RowsSum(chunks[..k], smudge)
    {
      var r := Reflect(grids[k].rows, smudge);
      assert chunks[..k + 1][..k] == chunks[..k];
      h := h + Found(r);
    }
    assert chunks[..|chunks|] == chunks;
  }

  /** `filter_map(|x| x.get_reflect(false)).sum()`. */
  method SumCols(chunks: seq<string>, grids: seq<Grid>, smudge: bool) returns (v: nat)
    requires forall k :: 0 <= k < |chunks| ==> Pattern(chunks[k])
    requires Built(chunks, grids)
    ensures v == ColsSum(chunks, smudge)
  {
    v := 0;
    for k := 0 to |grids|
      invariant v == ColsSum(chunks[..k], smudge)
    {
      assert Pattern(chunks[k]);
      var r := Reflect(grids[k].cols, smudge);
      assert chunks[..k + 1][..k] == chunks[..k];
      v := v + Found(r);
    }
    assert chunks[..|chunks|] == chunks;
  }

  /** `solution_1` (smudge false) and `solution_2` (smudge true) over the patterns separated by blank lines. */
  method Solution(text: string, smudge: bool) returns (score: nat)
    requires forall k :: 0 <= k < |Split(text, "\n\n")| ==> Pattern(Split(text, "\n\n")[k])
    ensures score == Score(Split(text, "\n\n"), smudge)
  {
    var chunks := Split(text, "\n\n");
    var grids := Grids(chunks);
    var h := SumRows(chunks, grids, smudge);
    var v := SumCols(chunks, grids, smudge);
    score := h * 100 + v;
  }
}
