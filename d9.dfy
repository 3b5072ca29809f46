/**
 * Mirage maintenance (src/bin/d9.rs): each line is a sequence of integers;
 * rows of differences are taken until a row is constant, and the next
 * value is extrapolated by adding that constant to the last element of
 * every row.  Part two reverses each sequence first, which extrapolates
 * backwards.
 */
module D9 {
  import opened Text

  // ---------------------------------------------------------------------
  // Difference rows
  // ---------------------------------------------------------------------

  /** `windows(2).map(|chunk| chunk[1] - chunk[0])`: one element shorter, or empty. */
  function Diffs(s: seq<int>): (d: seq<int>)
    ensures |d| == if |s| < 2 then 0 else |s| - 1
    decreases |s|
  {
    if |s| < 2 then [] else Diffs(s[..|s| - 1]) + [s[|s| - 1] - s[|s| - 2]]
  }

  /** Element i of the difference row is the step from element i to element i + 1. */
  lemma {:induction false} DiffsAt(s: seq<int>)
    ensures forall i {:trigger Diffs(s)[i]} :: 0 <= i < |Diffs(s)| ==> Diffs(s)[i] == s[i + 1] - s[i]
    decreases |s|
  {
    if |s| >= 2 {
      var t := s[..|s| - 1];
      DiffsAt(t);
      forall i | 0 <= i < |Diffs(s)| - 1 ensures Diffs(s)[i] == s[i + 1] - s[i] {
        assert Diffs(s)[i] == Diffs(t)[i];
        assert t[i + 1] == s[i + 1] && t[i] == s[i];
      }
    }
  }

  /** `iter().all(|&x| x == next_seq[0])`: every element equals the first; true of the empty row. */
  predicate AllEqual(d: seq<int>) {
    forall i :: 0 <= i < |d| ==> d[i] == d[0]
  }

  /** A non-empty row extended by x passes the test exactly when it passes and x equals its first element. */
  lemma AllEqualSnoc(d: seq<int>, x: int)
    requires |d| >= 1
    ensures AllEqual(d + [x]) <==> AllEqual(d) && x == d[0]
  {
    var e := d + [x];
    assert e[|d|] == x;
    assert forall i :: 0 <= i < |d| ==> e[i] == d[i];
  }

  /** The k-th row of differences; row 0 is the sequence itself. */
  function Level(s: seq<int>, k: nat): seq<int>
    decreases k
  {
    if k == 0 then s else Level(Diffs(s), k - 1)
  }

  /** Row 1 is the difference row. */
  lemma LevelOne(s: seq<int>)
    ensures Level(s, 1) == Diffs(s)
  {
    assert Level(s, 1) == Level(Diffs(s), 0);
  }

  lemma {:induction false} LevelLength(s: seq<int>, k: nat)
    requires k < |s|
    ensures |Level(s, k)| == |s| - k
    decreases k
  {
    if k > 0 {
      LevelLength(Diffs(s), k - 1);
    }
  }

  /** A row of one element is constant, so a sequence of two or more reaches a constant non-empty row. */
  lemma ShortIsConstant(d: seq<int>)
    ensures |d| <= 1 ==> AllEqual(d)
  {
  }

  /** How many rows below row 1 are taken before the first constant row. */
  function Depth(s: seq<int>): (n: nat)
    requires |s| >= 2
    ensures n + 2 <= |s|
    decreases |s|
  {
    var d := Diffs(s);
    if AllEqual(d) then 0
    else
      ShortIsConstant(d);
      1 + Depth(d)
  }

  /** The next value: the last element plus the next value of the difference row, down to a constant row. */
  function Extrap(s: seq<int>): int
    requires |s| >= 2
    decreases |s|
  {
    var d := Diffs(s);
    if AllEqual(d) then s[|s| - 1] + d[0]
    else
      ShortIsConstant(d);
      s[|s| - 1] + Extrap(d)
  }

  /** Row Depth(s) + 1 is the first constant row below the sequence, and it is not empty. */
  lemma DepthMeaning(s: seq<int>)
    requires |s| >= 2
    ensures AllEqual(Level(s, Depth(s) + 1)) && |Level(s, Depth(s) + 1)| >= 1
    ensures forall k :: 1 <= k <= Depth(s) ==> !AllEqual(Level(s, k))
  {
    DepthConstant(s);
    DepthFirst(s);
  }

  lemma {:induction false} DepthConstant(s: seq<int>)
    requires |s| >= 2
    ensures AllEqual(Level(s, Depth(s) + 1)) && |Level(s, Depth(s) + 1)| >= 1
    decreases |s|
  {
    var d := Diffs(s);
    if AllEqual(d) {
      assert Level(s, 1) == d;
    } else {
      ShortIsConstant(d);
      DepthConstant(d);
      assert Level(s, Depth(s) + 1) == Level(d, Depth(d) + 1);
    }
  }

  lemma {:induction false} DepthFirst(s: seq<int>)
    requires |s| >= 2
    ensures forall k :: 1 <= k <= Depth(s) ==> !AllEqual(Level(s, k))
    decreases |s|
  {
    var d := Diffs(s);
    if !AllEqual(d) {
      ShortIsConstant(d);
      DepthFirst(d);
      assert Level(s, 1) == d;
      forall k | 2 <= k <= Depth(s) ensures !AllEqual(Level(s, k)) {
        assert Level(s, k) == Level(d, k - 1);
      }
    }
  }

  /** Appending x to a sequence appends x minus the old last element to its differences. */
  lemma DiffsSnoc(s: seq<int>, x: int)
    requires |s| >= 1
    ensures Diffs(s + [x]) == Diffs(s) + [x - s[|s| - 1]]
  {
    var t := s + [x];
    DiffsAt(s);
    DiffsAt(t);
    var a, b := Diffs(t), Diffs(s) + [x - s[|s| - 1]];
    forall i | 0 <= i < |a| ensures a[i] == b[i] {
      if i < |s| - 1 {
        assert b[i] == Diffs(s)[i];
      }
    }
  }

  /**
   * The extrapolated value is the one value whose appending keeps the
   * constant row constant: with v appended, row Depth(s) + 1 stays all
   * equal exactly when v is Extrap(s).
   */
  lemma {:induction false} ExtrapUnique(s: seq<int>, v: int)
    requires |s| >= 2
    ensures AllEqual(Level(s + [v], Depth(s) + 1)) <==> v == Extrap(s)
    decreases |s|, 1
  {
    if AllEqual(Diffs(s)) {
      ExtrapUniqueBase(s, v);
    } else {
      ExtrapUniqueStep(s, v);
    }
  }

  /** The inductive step: the claim for the difference row, extended by v - last, gives the claim for s. */
  lemma {:induction false} ExtrapUniqueStep(s: seq<int>, v: int)
    requires |s| >= 2 && !AllEqual(Diffs(s))
    ensures AllEqual(Level(s + [v], Depth(s) + 1)) <==> v == Extrap(s)
    decreases |s|, 0
  {
    var d, x := Diffs(s), v - s[|s| - 1];
    LevelSnoc(s, v);
    ExtrapUnique(d, x);
    assert Extrap(s) == s[|s| - 1] + Extrap(d);
  }

  /** Below a non-constant difference row, row Depth(s) + 1 of s + [v] is row Depth(d) + 1 of d extended by v - last. */
  lemma LevelSnoc(s: seq<int>, v: int)
    requires |s| >= 2 && !AllEqual(Diffs(s))
    ensures |Diffs(s)| >= 2
    ensures Level(s + [v], Depth(s) + 1) == Level(Diffs(s) + [v - s[|s| - 1]], Depth(Diffs(s)) + 1)
  {
    var d := Diffs(s);
    ShortIsConstant(d);
    var k := Depth(d) + 1;
    assert Depth(s) + 1 == k + 1;
    LevelSuccSnoc(s, v, k);
  }

  /** Row k + 1 of s + [v] is row k of the difference row of s extended by v - last. */
  lemma LevelSuccSnoc(s: seq<int>, v: int, k: nat)
    requires |s| >= 1
    ensures Level(s + [v], k + 1) == Level(Diffs(s) + [v - s[|s| - 1]], k)
  {
    assert Level(s + [v], k + 1) == Level(Diffs(s + [v]), k);
    DiffsSnoc(s, v);
  }

  /** The base case: a constant difference row stays constant exactly when v extends it by d[0]. */
  lemma ExtrapUniqueBase(s: seq<int>, v: int)
    requires |s| >= 2 && AllEqual(Diffs(s))
    ensures AllEqual(Level(s + [v], 1)) <==> v == s[|s| - 1] + Diffs(s)[0]
  {
    LevelOne(s + [v]);
    SnocConstant(s, v);
  }

  /** A constant difference row extended by v - last stays constant exactly when v extends s by d[0]. */
  lemma SnocConstant(s: seq<int>, v: int)
    requires |s| >= 2 && AllEqual(Diffs(s))
    ensures AllEqual(Diffs(s + [v])) <==> v == s[|s| - 1] + Diffs(s)[0]
  {
    var d, x := Diffs(s), v - s[|s| - 1];
    DiffsSnoc(s, v);
    AllEqualSnoc(d, x);
    assert AllEqual(Diffs(s + [v])) == AllEqual(d + [x]);
  }

  /** For a sequence with a common difference c, the next value is the last one plus c. */
  lemma Arithmetic(s: seq<int>, c: int)
    requires |s| >= 2
    requires forall i :: 0 <= i < |Diffs(s)| ==> Diffs(s)[i] == c
    ensures Extrap(s) == s[|s| - 1] + c
  {
  }

  /** The second sequence of the puzzle's example: rows 2 3 4 5 6 and 1 1 1 1, so the next value is 28. */
  lemma ExampleForward()
    ensures Extrap([1, 3, 6, 10, 15, 21]) == 28
  {
    var s := [1, 3, 6, 10, 15, 21];
    DiffsAt(s);
    assert Diffs(s) == [2, 3, 4, 5, 6];
    assert !AllEqual([2, 3, 4, 5, 6]) by {
      assert [2, 3, 4, 5, 6][1] != [2, 3, 4, 5, 6][0];
    }
    DiffsAt([2, 3, 4, 5, 6]);
    Arithmetic([2, 3, 4, 5, 6], 1);
  }

  // ---------------------------------------------------------------------
  // The loop of `solution`
  // ---------------------------------------------------------------------

  /** The last elements of the stored rows, added. */
  function SumLasts(rows: seq<seq<int>>): int
    requires forall i :: 0 <= i < |rows| ==> |rows[i]| > 0
  {
    if rows == [] then 0 else rows[0][|rows[0]| - 1] + SumLasts(rows[1..])
  }

  /** With the rows 0..Depth(s) stored, the next value is the constant plus all their last elements. */
  lemma {:induction false} ExtrapTable(s: seq<int>, rows: seq<seq<int>>)
    requires |s| >= 2 && |rows| == Depth(s) + 1
    requires forall i :: 0 <= i < |rows| ==> rows[i] == Level(s, i)
    ensures forall i :: 0 <= i < |rows| ==> |rows[i]| > 0
    ensures |Level(s, |rows|)| > 0 && Extrap(s) == SumLasts(rows) + Level(s, |rows|)[0]
    decreases |s|, 1
  {
    TableNonEmpty(s, rows);
    var d := Diffs(s);
    assert rows[0] == s;
    if AllEqual(d) {
      assert rows[1..] == [];
      assert Level(s, 1) == d;
    } else {
      ExtrapTableStep(s, rows);
    }
  }

  /** A non-constant difference row: the table below row 0 is the table of the differences. */
  lemma {:induction false} ExtrapTableStep(s: seq<int>, rows: seq<seq<int>>)
    requires |s| >= 2 && |rows| == Depth(s) + 1 && !AllEqual(Diffs(s))
    requires forall i :: 0 <= i < |rows| ==> rows[i] == Level(s, i)
    ensures forall i :: 0 <= i < |rows| ==> |rows[i]| > 0
    ensures |Level(s, |rows|)| > 0 && Extrap(s) == SumLasts(rows) + Level(s, |rows|)[0]
    decreases |s|, 0
  {
    TableNonEmpty(s, rows);
    var d, rest := Diffs(s), rows[1..];
    ShortIsConstant(d);
    assert rows[0] == s;
    forall i | 0 <= i < |rest| ensures rest[i] == Level(d, i) {
      assert rest[i] == rows[i + 1];
    }
    ExtrapTable(d, rest);
    assert Level(s, |rows|) == Level(d, |rest|);
    assert SumLasts(rows) == s[|s| - 1] + SumLasts(rest);
  }

  lemma TableNonEmpty(s: seq<int>, rows: seq<seq<int>>)
    requires |s| >= 2 && |rows| == Depth(s) + 1
    requires forall i :: 0 <= i < |rows| ==> rows[i] == Level(s, i)
    ensures forall i :: 0 <= i < |rows| ==> |rows[i]| > 0
    ensures |Level(s, |rows|)| > 0
  {
    forall i | 0 <= i < |rows| ensures |rows[i]| > 0 {
      LevelLength(s, i);
    }
    LevelLength(s, |rows|);
  }

  /** The `for seq in seqs.iter().rev()` loop: c plus the last element of every row, last row first. */
  method AddLasts(rows: seq<seq<int>>, c: int) returns (nextVal: int)
    requires forall i :: 0 <= i < |rows| ==> |rows[i]| > 0
    ensures nextVal == c + SumLasts(rows)
  {
    nextVal := c;
    var k := |rows|;
    while k > 0
      invariant 0 <= k <= |rows|
      invariant nextVal == c + SumLasts(rows[k..])
    {
      k := k - 1;
      assert rows[k..][1..] == rows[k + 1..];
      nextVal := nextVal + rows[k][|rows[k]| - 1];
    }
  }

  /**
   * The `loop` of `solution` for one sequence: store rows until the next
   * difference row is constant, then add up.
   */
  method Extrapolate(s: seq<int>) returns (nextVal: int)
    requires |s| >= 2
    ensures nextVal == Extrap(s)
  {
    DepthMeaning(s);
    var seqs := [s];
    while true
      invariant 1 <= |seqs| <= Depth(s) + 1
      invariant forall i :: 0 <= i < |seqs| ==> seqs[i] == Level(s, i)
      decreases Depth(s) + 1 - |seqs|
    {
      var last := seqs[|seqs| - 1];
      var nextSeq := Diffs(last);
      assert nextSeq == Level(s, |seqs|) by {
        LevelStep(s, |seqs| - 1);
      }
      if AllEqual(nextSeq) {
        ExtrapTable(s, seqs);
        nextVal := AddLasts(seqs, nextSeq[0]);
        return;
      }
      seqs := seqs + [nextSeq];
    }
  }

  /** The row after row k is its difference row. */
  lemma {:induction false} LevelStep(s: seq<int>, k: nat)
    ensures Level(s, k + 1) == Diffs(Level(s, k))
    decreases k
  {
    if k > 0 {
      LevelStep(Diffs(s), k - 1);
    }
  }

  // ---------------------------------------------------------------------
  // Backward extrapolation
  // ---------------------------------------------------------------------

  function Negate(s: seq<int>): (r: seq<int>)
    ensures |r| == |s| && forall i :: 0 <= i < |s| ==> r[i] == -s[i]
  {
    seq(|s|, i requires 0 <= i < |s| => -s[i])
  }

  /** The reversed sequence, negated when neg holds. */
  function Mirror(s: seq<int>, neg: bool): seq<int> {
    if neg then Negate(Reverse(s)) else Reverse(s)
  }

  /** The differences of a reversed sequence are the reversed differences, negated. */
  lemma DiffsMirror(s: seq<int>, neg: bool)
    ensures Diffs(Mirror(s, neg)) == Mirror(Diffs(s), !neg)
  {
    var a, b := Diffs(Mirror(s, neg)), Mirror(Diffs(s), !neg);
    assert |a| == |b|;
    forall i | 0 <= i < |a| ensures a[i] == b[i] {
      DiffsMirrorAt(s, neg, i);
    }
  }

  lemma DiffsMirrorAt(s: seq<int>, neg: bool, i: nat)
    requires i < |Diffs(s)|
    ensures |Diffs(Mirror(s, neg))| == |Diffs(s)| && Diffs(Mirror(s, neg))[i] == Mirror(Diffs(s), !neg)[i]
  {
    var m, n := Mirror(s, neg), |s|;
    DiffsAt(m);
    DiffsAt(s);
    assert m[i] == if neg then -s[n - 1 - i] else s[n - 1 - i];
    assert m[i + 1] == if neg then -s[n - 2 - i] else s[n - 2 - i];
    assert Reverse(Diffs(s))[i] == Diffs(s)[n - 2 - i] == s[n - 1 - i] - s[n - 2 - i];
  }

  /** neg flipped k times. */
  function Flip(neg: bool, k: nat): bool
    decreases k
  {
    if k == 0 then neg else Flip(!neg, k - 1)
  }

  /** Every difference row of a mirrored sequence is the mirrored difference row, negated every other row. */
  lemma {:induction false} LevelMirror(s: seq<int>, neg: bool, k: nat)
    ensures Level(Mirror(s, neg), k) == Mirror(Level(s, k), Flip(neg, k))
    decreases k
  {
    if k > 0 {
      DiffsMirror(s, neg);
      LevelMirror(Diffs(s), !neg, k - 1);
    }
  }

  lemma MirrorAllEqual(s: seq<int>, neg: bool)
    ensures AllEqual(Mirror(s, neg)) <==> AllEqual(s)
  {
    var m := Mirror(s, neg);
    if AllEqual(s) && |s| > 0 {
      forall i | 0 <= i < |m| ensures m[i] == m[0] {
        assert s[|s| - 1 - i] == s[0] && s[|s| - 1] == s[0];
      }
    }
    if AllEqual(m) && |s| > 0 {
      forall i | 0 <= i < |s| ensures s[i] == s[0] {
        assert m[|s| - 1 - i] == m[0] && m[|s| - 1] == m[0];
      }
    }
  }

  lemma ReverseCons(s: seq<int>, v: int)
    ensures Reverse([v] + s) == Reverse(s) + [v]
  {
    var a, b := Reverse([v] + s), Reverse(s) + [v];
    assert |a| == |b|;
    forall i | 0 <= i < |a| ensures a[i] == b[i] {
      if i < |s| {
        assert ([v] + s)[|s| - i] == s[|s| - 1 - i];
      }
    }
  }

  /**
   * `rev = true`: the value extrapolated from the reversed sequence is the
   * one value whose prepending keeps the constant row constant.
   */
  lemma {:induction false} BackwardUnique(s: seq<int>, v: int)
    requires |s| >= 2
    ensures var n := Depth(Reverse(s)) + 1;
      AllEqual(Level([v] + s, n)) <==> v == Extrap(Reverse(s))
  {
    ReversalUnique(s, Reverse(s), v);
  }

  lemma ReversalUnique(s: seq<int>, r: seq<int>, v: int)
    requires |r| >= 2 && r == Reverse(s)
    ensures AllEqual(Level([v] + s, Depth(r) + 1)) <==> v == Extrap(r)
  {
    var n := Depth(r) + 1;
    calc {
      AllEqual(Level([v] + s, n));
    == { PrependLevels(s, v, n); }
      AllEqual(Level(r + [v], n));
    == { ExtrapUnique(r, v); }
      v == Extrap(r);
    }
  }

  lemma PrependLevels(s: seq<int>, v: int, n: nat)
    ensures AllEqual(Level(Reverse(s) + [v], n)) <==> AllEqual(Level([v] + s, n))
  {
    ReverseCons(s, v);
    ReversedLevels([v] + s, n);
  }

  /** A difference row of the reversed sequence is constant exactly when that row of the sequence is. */
  lemma ReversedLevels(t: seq<int>, n: nat)
    ensures AllEqual(Level(Reverse(t), n)) <==> AllEqual(Level(t, n))
  {
    assert Mirror(t, false) == Reverse(t);
    LevelMirror(t, false, n);
    MirrorAllEqual(Level(t, n), Flip(false, n));
  }

  /** The third sequence of the example, extrapolated backwards: 5. */
  lemma ExampleBackward()
    ensures Extrap(Reverse([10, 13, 16, 21, 30, 45])) == 5
  {
    ExampleReversed();
    ExampleReversedNext();
  }

  lemma ExampleReversed()
    ensures Reverse([10, 13, 16, 21, 30, 45]) == [45, 30, 21, 16, 13, 10]
  {
    var s := [10, 13, 16, 21, 30, 45];
    assert s[1..] == [13, 16, 21, 30, 45] && s[1..][1..] == [16, 21, 30, 45];
    assert s[1..][1..][1..] == [21, 30, 45] && s[1..][1..][1..][1..] == [30, 45] && s[1..][1..][1..][1..][1..] == [45];
  }

  lemma ExampleReversedNext()
    ensures Extrap([45, 30, 21, 16, 13, 10]) == 5
  {
    var r := [45, 30, 21, 16, 13, 10];
    DiffsAt(r);
    assert Diffs(r) == [-15, -9, -5, -3, -3];
    assert !AllEqual([-15, -9, -5, -3, -3]) by {
      assert [-15, -9, -5, -3, -3][1] != [-15, -9, -5, -3, -3][0];
    }
    ExampleFirstDiffsNext();
  }

  lemma ExampleFirstDiffsNext()
    ensures Extrap([-15, -9, -5, -3, -3]) == -5
  {
    DiffsAt([-15, -9, -5, -3, -3]);
    assert Diffs([-15, -9, -5, -3, -3]) == [6, 4, 2, 0];
    assert !AllEqual([6, 4, 2, 0]) by {
      assert [6, 4, 2, 0][1] != [6, 4, 2, 0][0];
    }
    Arithmetic([6, 4, 2, 0], -2);
  }

  // ---------------------------------------------------------------------
  // Parsing and the total
  // ---------------------------------------------------------------------

  /** A line `solution` accepts: at least two whitespace-separated integers. */
  predicate WellFormed(line: string) {
    |Words(line)| >= 2 && forall k :: 0 <= k < |Words(line)| ==> IsInt(Words(line)[k])
  }

  function Ints(line: string): (s: seq<int>)
    requires WellFormed(line)
    ensures |s| == |Words(line)| && |s| >= 2
  {
    var ws := Words(line);
    seq(|ws|, k requires 0 <= k < |ws| => IntValue(ws[k]))
  }

  /** The sequence `solution` extrapolates from a line: reversed when rev holds. */
  function Input(line: string, rev: bool): (s: seq<int>)
    requires WellFormed(line)
    ensures |s| >= 2
  {
    if rev then Reverse(Ints(line)) else Ints(line)
  }

  predicate AllWellFormed(ls: seq<string>) {
    forall k :: 0 <= k < |ls| ==> WellFormed(ls[k])
  }

  /** The sum of the extrapolated values of the lines. */
  function Total(ls: seq<string>, rev: bool): int
    requires AllWellFormed(ls)
  {
    if ls == [] then 0 else Total(ls[..|ls| - 1], rev) + Extrap(Input(ls[|ls| - 1], rev))
  }

  /** One more line adds its extrapolated value. */
  lemma TotalSnoc(ls: seq<string>, k: nat, rev: bool)
    requires AllWellFormed(ls) && k < |ls|
    ensures AllWellFormed(ls[..k]) && AllWellFormed(ls[..k + 1])
    ensures Total(ls[..k + 1], rev) == Total(ls[..k], rev) + Extrap(Input(ls[k], rev))
  {
    assert ls[..k + 1][..k] == ls[..k];
  }

  /** `solution(rev)`: the sum over all lines of the next (or, reversed, the previous) value. */
  method Solution(text: string, rev: bool) returns (total: int)
    requires AllWellFormed(Lines(text))
    ensures total == Total(Lines(text), rev)
  {
    var ls := Lines(text);
    total := 0;
    for k := 0 to |ls|
      invariant total == Total(ls[..k], rev)
    {
      var s := Ints(ls[k]);
      if rev {
        s := Reverse(s);
      }
      var nextVal := Extrapolate(s);
      TotalSnoc(ls, k, rev);
      total := total + nextVal;
    }
    assert ls[..|ls|] == ls;
  }
}
