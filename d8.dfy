/**
 * Haunted wasteland (src/bin/d8.rs): a network of nodes, each with a left
 * and a right successor, is walked by a cycling list of L/R instructions.
 * Part one counts the steps from AAA to the first ZZZ; part two counts,
 * for every node ending in 'A', the whole passes through the instructions
 * until a pass ends on a node ending in 'Z', and multiplies the counts.
 */
module D8 {
  import opened Text

  datatype Direction = Left | Right

  /** `Node`: the start and end flags and the indices of the two successors. */
  datatype Node = Node(isStart: bool, isEnd: bool, l: nat, r: nat)

  // ---------------------------------------------------------------------
  // Parsing
  // ---------------------------------------------------------------------

  predicate IsDirection(c: char) {
    c == 'L' || c == 'R'
  }

  /** The first line, letter by letter; any other letter is unreachable. */
  function Instructions(line: string): (ds: seq<Direction>)
    requires forall k :: 0 <= k < |line| ==> IsDirection(line[k])
    ensures |ds| == |line|
    ensures forall k :: 0 <= k < |line| ==> (ds[k] == Left <==> line[k] == 'L')
  {
    seq(|line|, k requires 0 <= k < |line| => if line[k] == 'L' then Left else Right)
  }

  /** The node lines: everything after the instruction line and the line after it. */
  function NodeLines(ls: seq<string>): seq<string> {
    if |ls| <= 2 then [] else ls[2..]
  }

  /** `raw_vals`: the labels at columns 0..3, 7..10 and 12..15 of each node line. */
  function Raw(nls: seq<string>): (raw: seq<(string, string, string)>)
    requires forall k :: 0 <= k < |nls| ==> |nls[k]| >= 15
    ensures |raw| == |nls|
  {
    seq(|nls|, k requires 0 <= k < |nls| => (nls[k][0..3], nls[k][7..10], nls[k][12..15]))
  }

  function Srcs(raw: seq<(string, string, string)>): (srcs: seq<string>)
    ensures |srcs| == |raw| && forall k :: 0 <= k < |raw| ==> srcs[k] == raw[k].0
  {
    seq(|raw|, k requires 0 <= k < |raw| => raw[k].0)
  }

  /** `src_map`: each label to the index of its line; a repeated label keeps its last index. */
  function SrcMap(srcs: seq<string>): (m: map<string, nat>)
    ensures forall s :: s in m <==> s in srcs
    ensures forall s :: s in m ==> m[s] < |srcs| && srcs[m[s]] == s
    ensures forall s, k :: s in m && m[s] < k < |srcs| ==> srcs[k] != s
  {
    if srcs == [] then map[]
    else
      var n := |srcs| - 1;
      var m := SrcMap(srcs[..n]);
      assert forall k :: 0 <= k < n ==> srcs[..n][k] == srcs[k];
      m[srcs[n] := n]
  }

  /**
   * Node lines whose successors are all labels of some line, checked line by
   * line: the lookups `src_map[l]` and `src_map[r]` of `nodes` then succeed.
   */
  predicate Closed(raw: seq<(string, string, string)>) {
    ClosedUpTo(raw, |raw|)
  }

  predicate ClosedUpTo(raw: seq<(string, string, string)>, n: nat)
    requires n <= |raw|
  {
    n == 0 || (ClosedUpTo(raw, n - 1) && raw[n - 1].1 in Srcs(raw) && raw[n - 1].2 in Srcs(raw))
  }

  /** Every successor label of a closed set of lines is in the label map, at the index of a line. */
  lemma ClosedIndices(raw: seq<(string, string, string)>, m: map<string, nat>)
    requires Closed(raw) && m == SrcMap(Srcs(raw))
    ensures forall k :: 0 <= k < |raw| ==> Linked(raw, m, k)
  {
    ClosedBelow(raw, |raw|);
  }

  /** Line k's successors are in the label map, at indices of lines. */
  predicate Linked(raw: seq<(string, string, string)>, m: map<string, nat>, k: nat)
    requires k < |raw|
  {
    raw[k].1 in m && m[raw[k].1] < |raw| && raw[k].2 in m && m[raw[k].2] < |raw|
  }

  lemma {:induction false} ClosedBelow(raw: seq<(string, string, string)>, n: nat)
    requires n <= |raw| && ClosedUpTo(raw, n)
    ensures forall k :: 0 <= k < n ==> raw[k].1 in Srcs(raw) && raw[k].2 in Srcs(raw)
    decreases n
  {
    if n > 0 {
      ClosedBelow(raw, n - 1);
    }
  }

  /** `nodes`, with the start and end tests of the given part. */
  function Nodes(raw: seq<(string, string, string)>, part2: bool): (nodes: seq<Node>)
    requires Closed(raw)
    ensures |nodes| == |raw| && Valid(nodes)
  {
    var srcs := Srcs(raw);
    var m := SrcMap(srcs);
    ClosedIndices(raw, m);
    BuildNodes(raw, m, part2)
  }

  function BuildNodes(raw: seq<(string, string, string)>, m: map<string, nat>, part2: bool): (nodes: seq<Node>)
    requires forall k :: 0 <= k < |raw| ==> Linked(raw, m, k)
    ensures |nodes| == |raw| && Valid(nodes)
  {
    var nodes := seq(|raw|, k requires 0 <= k < |raw| => assert Linked(raw, m, k); NodeOf(raw[k], m, part2));
    assert forall k :: 0 <= k < |raw| ==> Linked(raw, m, k) && nodes[k] == NodeOf(raw[k], m, part2);
    nodes
  }

  /** One node line's `Node`, its successors looked up in the label map. */
  function NodeOf(line: (string, string, string), m: map<string, nat>, part2: bool): Node
    requires line.1 in m && line.2 in m
  {
    Node(IsStart(line.0, part2), IsEnd(line.0, part2), m[line.1], m[line.2])
  }

  /** Part one: the label contains "AAA"; part two: it ends in 'A'. */
  predicate IsStart(s: string, part2: bool) {
    if part2 then |s| > 0 && s[|s| - 1] == 'A' else Find(s, "AAA").Some?
  }

  /** Part one: the label contains "ZZZ"; part two: it ends in 'Z'. */
  predicate IsEnd(s: string, part2: bool) {
    if part2 then |s| > 0 && s[|s| - 1] == 'Z' else Find(s, "ZZZ").Some?
  }

  /** Every successor index names a node. */
  predicate Valid(nodes: seq<Node>) {
    forall k :: 0 <= k < |nodes| ==> nodes[k].l < |nodes| && nodes[k].r < |nodes|
  }

  /** What `solution_1` and `solution_2` read: an instruction line, a separator, and node lines. */
  predicate WellFormed(ls: seq<string>) {
    |ls| >= 1 && (forall k :: 0 <= k < |ls[0]| ==> IsDirection(ls[0][k])) &&
    (forall k :: 0 <= k < |NodeLines(ls)| ==> |NodeLines(ls)[k]| >= 15) &&
    Closed(Raw(NodeLines(ls)))
  }

  // ---------------------------------------------------------------------
  // Walking
  // ---------------------------------------------------------------------

  function Next(nodes: seq<Node>, n: nat, d: Direction): (m: nat)
    requires Valid(nodes) && n < |nodes|
    ensures m < |nodes|
  {
    match d
    case Left => nodes[n].l
    case Right => nodes[n].r
  }

  /** The instruction position after p in `cycle()`. */
  function Wrap(p: nat, len: nat): nat {
    if p + 1 == len then 0 else p + 1
  }

  /** The node and instruction position after k steps from node n at position p. */
  function Steps(nodes: seq<Node>, ds: seq<Direction>, n: nat, p: nat, k: nat): (r: (nat, nat))
    requires Valid(nodes) && n < |nodes| && p < |ds|
    ensures r.0 < |nodes| && r.1 < |ds|
    decreases k
  {
    if k == 0 then (n, p) else Steps(nodes, ds, Next(nodes, n, ds[p]), Wrap(p, |ds|), k - 1)
  }

  /** Walking a + b steps is walking a steps, then b more. */
  lemma {:induction false} StepsAdd(nodes: seq<Node>, ds: seq<Direction>, n: nat, p: nat, a: nat, b: nat)
    requires Valid(nodes) && n < |nodes| && p < |ds|
    ensures var mid := Steps(nodes, ds, n, p, a);
      Steps(nodes, ds, n, p, a + b) == Steps(nodes, ds, mid.0, mid.1, b)
    decreases a
  {
    if a > 0 {
      StepsAdd(nodes, ds, Next(nodes, n, ds[p]), Wrap(p, |ds|), a - 1, b);
    }
  }

  /** The walk from the start node: k steps from instruction position 0. */
  function Walk(nodes: seq<Node>, ds: seq<Direction>, start: nat, k: nat): (n: nat)
    requires Valid(nodes) && start < |nodes| && |ds| > 0
    ensures n < |nodes|
  {
    Steps(nodes, ds, start, 0, k).0
  }

  /** The walk reaches an end node after k >= 1 steps. */
  predicate EndsAfter(nodes: seq<Node>, ds: seq<Direction>, start: nat, k: nat)
    requires Valid(nodes) && start < |nodes| && |ds| > 0
  {
    k >= 1 && nodes[Walk(nodes, ds, start, k)].isEnd
  }

  /**
   * The loop of `solution_1`: step along the cycled instructions, counting,
   * until a node marked as an end is reached.  With no instructions the
   * loop body never runs.
   */
  method CountSteps(nodes: seq<Node>, ds: seq<Direction>, start: nat) returns (i: nat)
    requires Valid(nodes) && start < |nodes|
    requires |ds| > 0 ==> exists k: nat :: EndsAfter(nodes, ds, start, k)
    ensures |ds| == 0 ==> i == 0
    ensures |ds| > 0 ==> LeastSteps(nodes, ds, start, i)
  {
    i := 0;
    if |ds| == 0 {
      return;
    }
    ghost var bound: nat :| EndsAfter(nodes, ds, start, bound);
    var currentIndex := start;
    var p := 0;
    while true
      invariant p < |ds| && (currentIndex, p) == Steps(nodes, ds, start, 0, i)
      invariant i < bound
      invariant forall k :: 1 <= k <= i ==> !EndsAfter(nodes, ds, start, k)
      decreases bound - i
    {
      StepsAdd(nodes, ds, start, 0, i, 1);
      var direction := ds[p];
      p := Wrap(p, |ds|);
      i := i + 1;
      currentIndex := match direction
        case Left => nodes[currentIndex].l
        case Right => nodes[currentIndex].r;
      if nodes[currentIndex].isEnd {
        return;
      }
    }
  }

  // ---------------------------------------------------------------------
  // Passes
  // ---------------------------------------------------------------------

  /** Following the directions ds from node n. */
  function Follow(nodes: seq<Node>, n: nat, ds: seq<Direction>): (m: nat)
    requires Valid(nodes) && n < |nodes|
    ensures m < |nodes|
    decreases |ds|
  {
    if ds == [] then n else Follow(nodes, Next(nodes, n, ds[0]), ds[1..])
  }

  /** m whole passes through the instructions from node n. */
  function Passes(nodes: seq<Node>, ds: seq<Direction>, n: nat, m: nat): (r: nat)
    requires Valid(nodes) && n < |nodes|
    ensures r < |nodes|
    decreases m
  {
    if m == 0 then n else Passes(nodes, ds, Follow(nodes, n, ds), m - 1)
  }

  /** The rest of a pass from position p is the walk of |ds| - p steps, which ends back at position 0. */
  lemma {:induction false} FollowIsSteps(nodes: seq<Node>, ds: seq<Direction>, n: nat, p: nat)
    requires Valid(nodes) && n < |nodes| && p < |ds|
    ensures Steps(nodes, ds, n, p, |ds| - p) == (Follow(nodes, n, ds[p..]), 0)
    decreases |ds| - p
  {
    var n1 := Next(nodes, n, ds[p]);
    assert ds[p..][1..] == ds[p + 1..];
    if p + 1 < |ds| {
      FollowIsSteps(nodes, ds, n1, p + 1);
    } else {
      assert ds[p + 1..] == [];
    }
  }

  /** m passes are the walk of m * |ds| steps, written Row(|ds|, m); the walk is then back at the first instruction. */
  lemma {:induction false} PassesAreSteps(nodes: seq<Node>, ds: seq<Direction>, n: nat, m: nat)
    requires Valid(nodes) && n < |nodes| && |ds| > 0
    ensures Steps(nodes, ds, n, 0, Row(|ds|, m)) == (Passes(nodes, ds, n, m), 0)
    decreases m
  {
    if m > 0 {
      FollowIsSteps(nodes, ds, n, 0);
      assert ds[0..] == ds;
      StepsAdd(nodes, ds, n, 0, |ds|, Row(|ds|, m - 1));
      PassesAreSteps(nodes, ds, Follow(nodes, n, ds), m - 1);
    }
  }

  /** One pass of `solution_2`: `for direction in &instructions`. */
  method Pass(nodes: seq<Node>, ds: seq<Direction>, n: nat) returns (current: nat)
    requires Valid(nodes) && n < |nodes|
    ensures current == Follow(nodes, n, ds)
  {
    current := n;
    for j := 0 to |ds|
      invariant current < |nodes| && Follow(nodes, current, ds[j..]) == Follow(nodes, n, ds)
    {
      assert ds[j..][1..] == ds[j + 1..];
      current := match ds[j]
        case Left => nodes[current].l
        case Right => nodes[current].r;
    }
    assert ds[|ds|..] == [];
  }

  /** After m >= 1 passes the node is an end node. */
  predicate EndsAfterPasses(nodes: seq<Node>, ds: seq<Direction>, n: nat, m: nat)
    requires Valid(nodes) && n < |nodes|
  {
    m >= 1 && nodes[Passes(nodes, ds, n, m)].isEnd
  }

  /** Some number of passes from n ends on an end node. */
  ghost predicate ReachesEnd(nodes: seq<Node>, ds: seq<Direction>, n: nat)
    requires Valid(nodes) && n < |nodes|
  {
    exists m: nat :: EndsAfterPasses(nodes, ds, n, m)
  }

  /** The `loop` of `solution_2` for one start node: count passes until one ends on an end node. */
  method CountPasses(nodes: seq<Node>, ds: seq<Direction>, start: nat) returns (i: nat)
    requires Valid(nodes) && start < |nodes|
    requires ReachesEnd(nodes, ds, start)
    ensures LeastPass(nodes, ds, start, i)
  {
    ghost var bound: nat :| EndsAfterPasses(nodes, ds, start, bound);
    i := 0;
    var current := start;
    while true
      invariant current == Passes(nodes, ds, start, i)
      invariant i < bound
      invariant forall m :: 1 <= m <= i ==> !EndsAfterPasses(nodes, ds, start, m)
      decreases bound - i
    {
      PassesSnoc(nodes, ds, start, i);
      current := Pass(nodes, ds, current);
      i := i + 1;
      if nodes[current].isEnd {
        return;
      }
    }
  }

  lemma {:induction false} PassesSnoc(nodes: seq<Node>, ds: seq<Direction>, n: nat, m: nat)
    requires Valid(nodes) && n < |nodes|
    ensures Passes(nodes, ds, n, m + 1) == Follow(nodes, Passes(nodes, ds, n, m), ds)
    decreases m
  {
    if m > 0 {
      PassesSnoc(nodes, ds, Follow(nodes, n, ds), m - 1);
    }
  }

  /** The pass count of a start node, as steps, is a walk that ends on an end node at the first instruction. */
  lemma PassCountAsSteps(nodes: seq<Node>, ds: seq<Direction>, start: nat, m: nat)
    requires Valid(nodes) && start < |nodes| && |ds| > 0 && EndsAfterPasses(nodes, ds, start, m)
    ensures Row(|ds|, m) >= 1 && EndsAfter(nodes, ds, start, Row(|ds|, m))
  {
    PassesAreSteps(nodes, ds, start, m);
    RowLess(|ds|, 0, m);
  }

  // ---------------------------------------------------------------------
  // Solutions
  // ---------------------------------------------------------------------

  /** The indices of the start nodes, in order: `filter(|&x| x.is_start)`. */
  function StartNodes(nodes: seq<Node>): (ss: seq<nat>)
    ensures forall k :: 0 <= k < |ss| ==> ss[k] < |nodes| && nodes[ss[k]].isStart
    ensures forall j :: 0 <= j < |nodes| && nodes[j].isStart ==> j in ss
  {
    if nodes == [] then []
    else
      var n := |nodes| - 1;
      StartNodes(nodes[..n]) + (if nodes[n].isStart then [n] else [])
  }

  function Product(xs: seq<nat>): nat {
    if xs == [] then 1 else Product(xs[..|xs| - 1]) * xs[|xs| - 1]
  }

  /** The product of the pass counts is a multiple of each of them. */
  lemma {:induction false} ProductMultiple(xs: seq<nat>, k: nat)
    requires k < |xs|
    ensures exists q: nat :: Product(xs) == q * xs[k]
    decreases |xs|
  {
    var n := |xs| - 1;
    if k == n {
      assert Product(xs) == Product(xs[..n]) * xs[n];
    } else {
      ProductMultiple(xs[..n], k);
      var q: nat :| Product(xs[..n]) == q * xs[..n][k];
      assert Product(xs) == (q * xs[k]) * xs[n] == (q * xs[n]) * xs[k];
    }
  }

  /** The network of the node lines, with the start and end tests of the given part. */
  function Network(ls: seq<string>, part2: bool): (nodes: seq<Node>)
    requires WellFormed(ls)
    ensures Valid(nodes) && |nodes| == |NodeLines(ls)|
  {
    Nodes(Raw(NodeLines(ls)), part2)
  }

  /** The instruction line. */
  function Directions(ls: seq<string>): (ds: seq<Direction>)
    requires WellFormed(ls)
    ensures |ds| == |ls[0]|
  {
    Instructions(ls[0])
  }

  /** Where `solution_1` starts: the line labelled "AAA" (the last one, if the label repeats). */
  function StartOf(raw: seq<(string, string, string)>): (n: nat)
    requires "AAA" in Srcs(raw)
    ensures n < |raw| && raw[n].0 == "AAA"
  {
    SrcMap(Srcs(raw))["AAA"]
  }

  /**
   * The answer of `solution_2` is a common multiple of the step counts: for
   * every start node, the steps of its least pass count divide the product
   * times the instruction count.
   */
  lemma AnswerIsCommonMultiple(counts: seq<nat>, len: nat, k: nat)
    requires k < |counts|
    ensures exists q: nat :: Product(counts) * len == q * Row(len, counts[k])
  {
    ProductMultiple(counts, k);
    var q: nat :| Product(counts) == q * counts[k];
    RowProduct(len, counts[k]);
    assert Product(counts) * len == q * (counts[k] * len);
  }

  /** The input of `solution_1`: "AAA" labels a node, and with instructions the walk reaches a "ZZZ" node. */
  ghost predicate Walkable1(ls: seq<string>)
    requires WellFormed(ls)
  {
    "AAA" in Srcs(Raw(NodeLines(ls))) &&
    (|ls[0]| > 0 ==> exists k: nat :: EndsAfter(Network(ls, false), Directions(ls), StartOf(Raw(NodeLines(ls))), k))
  }

  /** The least number of steps, at least one, after which the walk from start is on an end node. */
  ghost predicate LeastSteps(nodes: seq<Node>, ds: seq<Direction>, start: nat, i: nat)
    requires Valid(nodes) && start < |nodes| && |ds| > 0
  {
    EndsAfter(nodes, ds, start, i) && forall k :: 1 <= k < i ==> !EndsAfter(nodes, ds, start, k)
  }

  /** `solution_1`: the number of steps from AAA to the first end node; 0 without instructions. */
  method Solution1(text: string) returns (i: nat)
    requires WellFormed(Lines(text)) && Walkable1(Lines(text))
    ensures |Lines(text)[0]| == 0 ==> i == 0
    ensures |Lines(text)[0]| > 0 ==> LeastSteps(Network(Lines(text), false), Directions(Lines(text)), StartOf(Raw(NodeLines(Lines(text)))), i)
  {
    var ls := Lines(text);
    var instructions := Directions(ls);
    var nodes := Network(ls, false);
    var currentIndex := StartOf(Raw(NodeLines(ls)));
    i := CountSteps(nodes, instructions, currentIndex);
  }

  /** The input of `solution_2`: every start node reaches an end node after some whole number of passes. */
  ghost predicate Walkable2(ls: seq<string>)
    requires WellFormed(ls)
  {
    var nodes := Network(ls, true);
    forall k :: 0 <= k < |StartNodes(nodes)| ==> ReachesEnd(nodes, Directions(ls), StartNodes(nodes)[k])
  }

  /** m is the least pass count, at least one, after which the walk from start is on an end node. */
  ghost predicate LeastPass(nodes: seq<Node>, ds: seq<Direction>, start: nat, m: nat)
    requires Valid(nodes) && start < |nodes|
  {
    EndsAfterPasses(nodes, ds, start, m) && forall j :: 1 <= j < m ==> !EndsAfterPasses(nodes, ds, start, j)
  }

  /** The least pass counts, one per start node, in order. */
  ghost predicate LeastPasses(nodes: seq<Node>, ds: seq<Direction>, starts: seq<nat>, counts: seq<nat>)
    requires Valid(nodes) && forall k :: 0 <= k < |starts| ==> starts[k] < |nodes|
  {
    |counts| == |starts| && forall k :: 0 <= k < |starts| ==> LeastPass(nodes, ds, starts[k], counts[k])
  }

  /** The least pass count of a start node is unique, so the answer of `solution_2` is determined. */
  lemma LeastPassUnique(nodes: seq<Node>, ds: seq<Direction>, start: nat, m1: nat, m2: nat)
    requires Valid(nodes) && start < |nodes|
    requires LeastPass(nodes, ds, start, m1) && LeastPass(nodes, ds, start, m2)
    ensures m1 == m2
  {
  }

  /** The loop over the start nodes: one least pass count each. */
  method CountAll(nodes: seq<Node>, ds: seq<Direction>, starts: seq<nat>) returns (cycles: seq<nat>)
    requires Valid(nodes) && forall k :: 0 <= k < |starts| ==> starts[k] < |nodes|
    requires forall k :: 0 <= k < |starts| ==> ReachesEnd(nodes, ds, starts[k])
    ensures LeastPasses(nodes, ds, starts, cycles)
  {
    cycles := [];
    for k := 0 to |starts|
      invariant |cycles| == k
      invariant forall j :: 0 <= j < k ==> LeastPass(nodes, ds, starts[j], cycles[j])
    {
      var i := CountPasses(nodes, ds, starts[k]);
      cycles := cycles + [i];
    }
  }

  /** `solution_2`: the product of the least pass counts of all start nodes, times the instruction count. */
  method Solution2(text: string) returns (answer: nat)
    requires WellFormed(Lines(text)) && Walkable2(Lines(text))
    ensures var ls := Lines(text);
      var nodes := Network(ls, true);
      exists counts :: LeastPasses(nodes, Directions(ls), StartNodes(nodes), counts) && answer == Product(counts) * |ls[0]|
  {
    var ls := Lines(text);
    var instructions := Directions(ls);
    var nodes := Network(ls, true);
    answer := CycleProduct(nodes, instructions, StartNodes(nodes));
  }

  /** The pass counts of the start nodes, multiplied together and by the instruction count. */
  method CycleProduct(nodes: seq<Node>, ds: seq<Direction>, starts: seq<nat>) returns (answer: nat)
    requires Valid(nodes) && forall k :: 0 <= k < |starts| ==> starts[k] < |nodes|
    requires forall k :: 0 <= k < |starts| ==> ReachesEnd(nodes, ds, starts[k])
    ensures exists counts :: LeastPasses(nodes, ds, starts, counts) && answer == Product(counts) * |ds|
  {
    var cycles := CountAll(nodes, ds, starts);
    var product := Product(cycles);
    MulLe(0, product, |ds|);
    answer := product * |ds|;
  }
}
