/**
 * Hot springs (src/bin/d12.rs): a row of springs, some of unknown
 * condition, and the sizes of the groups of broken springs.  The solver
 * counts the arrangements with a dynamic programme over states
 * (groups done, current run, operational spring expected), keeping one
 * count per state in a hash map.
 */
module D12 {
  import opened Text

  datatype Spring = Unknown | Broken | Operational

  /** A record line: its springs and the sizes of its groups of broken springs. */
  datatype Row = Row(springs: seq<Spring>, counts: seq<nat>)

  // ---------------------------------------------------------------------
  // Parsing and unfolding
  // ---------------------------------------------------------------------

  predicate IsSpringChar(c: char) {
    c == '?' || c == '#' || c == '.'
  }

  predicate SpringText(s: string) {
    forall i :: 0 <= i < |s| ==> IsSpringChar(s[i])
  }

  function SpringOf(c: char): Spring
    requires IsSpringChar(c)
  {
    if c == '?' then Unknown else if c == '#' then Broken else Operational
  }

  /** The springs of a condition record: '?' unknown, '#' broken, '.' operational. */
  function Springs(s: string): (r: seq<Spring>)
    requires SpringText(s)
    ensures |r| == |s|
    ensures forall i :: 0 <= i < |s| ==>
      && (r[i] == Unknown <==> s[i] == '?')
      && (r[i] == Broken <==> s[i] == '#')
      && (r[i] == Operational <==> s[i] == '.')
  {
    seq(|s|, i requires 0 <= i < |s| => SpringOf(s[i]))
  }

  predicate AllNats(parts: seq<string>) {
    forall k :: 0 <= k < |parts| ==> IsNat(parts[k])
  }

  /** `parse().unwrap()` over every piece. */
  function ParseAll(parts: seq<string>): (r: seq<nat>)
    requires AllNats(parts)
    ensures |r| == |parts|
  {
    seq(|parts|, k requires 0 <= k < |parts| => NatValue(parts[k]))
  }

  /** What `Row::from` accepts: two words, the first of spring characters, the second comma-separated numbers. */
  predicate WellFormed(line: string) {
    var w := Words(line);
    |w| >= 2 && SpringText(w[0]) && AllNats(Split(w[1], ","))
  }

  /** `Row::from`. */
  function FromLine(line: string): (row: Row)
    requires WellFormed(line)
    ensures row.springs == Springs(Words(line)[0])
    ensures |row.counts| == |Split(Words(line)[1], ",")|
    ensures forall k :: 0 <= k < |row.counts| ==> row.counts[k] == NatValue(Split(Words(line)[1], ",")[k])
  {
    var w := Words(line);
    Row(Springs(w[0]), ParseAll(Split(w[1], ",")))
  }

  /** The unfolding of `solution(n)`: n copies of the springs joined by '?', n of the counts joined by ','. */
  function Unfold(line: string, n: nat): string
    requires |Words(line)| >= 2
  {
    var w := Words(line);
    Join([Join(Repeat(w[0], n), "?"), Join(Repeat(w[1], n), ",")], " ")
  }

  /** n copies of the springs with an unknown spring between neighbouring copies. */
  function UnfoldSprings(sp: seq<Spring>, n: nat): (r: seq<Spring>)
    requires n >= 1
    ensures |r| == n * (|sp| + 1) - 1
  {
    if n == 1 then sp else sp + [Unknown] + UnfoldSprings(sp, n - 1)
  }

  /** n copies of the group sizes, one after another. */
  function Cycle(cs: seq<nat>, n: nat): seq<nat> {
    if n == 0 then [] else cs + Cycle(cs, n - 1)
  }

  lemma JoinRepeat(w: string, sep: string, n: nat)
    requires n >= 2
    ensures Join(Repeat(w, n), sep) == w + sep + Join(Repeat(w, n - 1), sep)
  {
    assert Repeat(w, n)[1..] == Repeat(w, n - 1);
  }

  lemma SpringsAppend(a: string, b: string)
    requires SpringText(a) && SpringText(b)
    ensures SpringText(a + b) && Springs(a + b) == Springs(a) + Springs(b)
  {
    assert forall i :: 0 <= i < |a| ==> (a + b)[i] == a[i];
    assert forall i :: |a| <= i < |a + b| ==> (a + b)[i] == b[i - |a|];
  }

  /** The unfolded spring text is spring characters and parses to the unfolded springs. */
  lemma {:induction false} UnfoldedSpringText(w: string, n: nat)
    requires n >= 1 && |w| > 0 && SpringText(w)
    ensures var l := Join(Repeat(w, n), "?");
      |l| > 0 && NoSpace(l) && SpringText(l) && Springs(l) == UnfoldSprings(Springs(w), n)
  {
    if n >= 2 {
      UnfoldedSpringText(w, n - 1);
      JoinRepeat(w, "?", n);
      var rest := Join(Repeat(w, n - 1), "?");
      SpringsAppend(w, "?");
      SpringsAppend(w + "?", rest);
      assert Springs("?") == [Unknown];
    }
  }

  lemma ParseAllAppend(a: seq<string>, b: seq<string>)
    requires AllNats(a) && AllNats(b)
    ensures AllNats(a + b) && ParseAll(a + b) == ParseAll(a) + ParseAll(b)
  {
  }

  lemma NoSpaceAppend(a: string, b: string)
    requires NoSpace(a) && NoSpace(b)
    ensures NoSpace(a + b)
  {
    assert forall i :: 0 <= i < |a + b| ==> (a + b)[i] == if i < |a| then a[i] else b[i - |a|];
  }

  /** The unfolded group text has no whitespace. */
  lemma {:induction false} UnfoldedNoSpace(w: string, sep: string, n: nat)
    requires n >= 1 && |w| > 0 && NoSpace(w) && NoSpace(sep)
    ensures |Join(Repeat(w, n), sep)| > 0 && NoSpace(Join(Repeat(w, n), sep))
  {
    if n >= 2 {
      UnfoldedNoSpace(w, sep, n - 1);
      JoinRepeat(w, sep, n);
      NoSpaceAppend(w, sep);
      NoSpaceAppend(w + sep, Join(Repeat(w, n - 1), sep));
    }
  }

  /** The unfolded group text splits into n copies of the pieces and parses to the repeated sizes. */
  lemma {:induction false} UnfoldedCountText(w: string, n: nat)
    requires n >= 1 && AllNats(Split(w, ","))
    ensures var r := Join(Repeat(w, n), ",");
      AllNats(Split(r, ",")) && ParseAll(Split(r, ",")) == Cycle(ParseAll(Split(w, ",")), n)
  {
    if n == 1 {
      assert ParseAll(Split(w, ",")) + [] == ParseAll(Split(w, ","));
    } else {
      var parts, rest, r := Split(w, ","), Join(Repeat(w, n - 1), ","), Join(Repeat(w, n), ",");
      UnfoldedCountText(w, n - 1);
      JoinRepeat(w, ",", n);
      SplitAppend(w, ',', rest);
      assert r == w + [','] + rest;
      ParseAllAppend(parts, Split(rest, ","));
      assert ParseAll(Split(r, ",")) == ParseAll(parts) + Cycle(ParseAll(parts), n - 1);
    }
  }

  /** Unfolding the text and parsing it gives the unfolded row: n copies of the springs joined by an unknown spring, and the group sizes repeated n times. */
  lemma UnfoldParses(line: string, n: nat)
    requires WellFormed(line) && n >= 1
    ensures WellFormed(Unfold(line, n))
    ensures FromLine(Unfold(line, n)) == Row(UnfoldSprings(FromLine(line).springs, n), Cycle(FromLine(line).counts, n))
  {
    var w := Words(line);
    WordsNoSpace(line);
    var l := Join(Repeat(w[0], n), "?");
    var r := Join(Repeat(w[1], n), ",");
    UnfoldedSpringText(w[0], n);
    UnfoldedCountText(w[1], n);
    UnfoldedNoSpace(w[1], ",", n);
    assert [l, r][1..] == [r];
    assert Join([r], " ") == r;
    assert Join([l, r], " ") == l + " " + Join([r], " ");
    assert Unfold(line, n) == l + " " + r;
    WordsPair(l, r);
  }

  // ---------------------------------------------------------------------
  // The state machine
  // ---------------------------------------------------------------------

  /**
   * A state of the programme: idx groups are complete, the current run of
   * broken springs has length run, and expectOp is 1 right after a group
   * is complete (the next spring must be operational).
   */
  datatype State = State(idx: nat, run: nat, expectOp: nat)

  const Start := State(0, 0, 0)

  /** One more broken spring: the run grows, and a run reaching its group's size completes the group. */
  function Grow(counts: seq<nat>, st: State): State
    requires st.idx < |counts|
  {
    if st.run + 1 == counts[st.idx] then State(st.idx + 1, 0, 1) else State(st.idx, st.run + 1, 0)
  }

  /**
   * The reference machine on a known spring (broken or not): a broken
   * spring needs an unfinished group and no pending operational spring; an
   * operational one needs no open run, and clears the pending flag.
   */
  function Step(counts: seq<nat>, st: State, broken: bool): (r: Option<State>)
    ensures r.Some? && broken ==> st.idx < |counts|
    ensures r.Some? ==> st.idx <= r.value.idx <= st.idx + 1
    ensures r.Some? && r.value.idx > st.idx ==> broken && st.run + 1 == counts[st.idx]
  {
    if broken then
      if st.idx < |counts| && st.expectOp == 0 then Some(Grow(counts, st)) else None
    else
      if st.run == 0 then Some(State(st.idx, 0, 0)) else None
  }

  /** The conditions a spring may have: an unknown one is either. */
  function Choices(s: Spring): (bs: seq<bool>)
    ensures |bs| <= 2 && (|bs| == 2 ==> bs[0] != bs[1])
  {
    match s
    case Operational => [false]
    case Broken => [true]
    case Unknown => [false, true]
  }

  /** The successors under each choice, in order. */
  function Successors(counts: seq<nat>, st: State, bs: seq<bool>): seq<State> {
    if bs == [] then []
    else
      (match Step(counts, st, bs[0]) case None => [] case Some(t) => [t]) + Successors(counts, st, bs[1..])
  }

  /**
   * The states the match of `solution` enters for one state and one
   * spring, in the order it enters them: first the operational reading of
   * an unknown spring at run 0, then the broken reading; otherwise the
   * operational reading; otherwise none.
   */
  function Advance(counts: seq<nat>, st: State, s: Spring): (next: seq<State>)
    ensures |next| <= 2 && (|next| == 2 ==> next[0] != next[1])
  {
    if s != Operational && st.idx < |counts| && st.expectOp == 0 then
      (if s == Unknown && st.run == 0 then [st] else []) + [Grow(counts, st)]
    else if s != Broken && st.run == 0 then
      [State(st.idx, st.run, 0)]
    else []
  }

  /** The source's match is the reference machine run on each condition the spring may have. */
  lemma AdvanceIsChoice(counts: seq<nat>, st: State, s: Spring)
    ensures Advance(counts, st, s) == Successors(counts, st, Choices(s))
  {
    var one := Successors(counts, st, [false]);
    var two := Successors(counts, st, [true]);
    assert [false, true][1..] == [true] && [true][1..] == [] && [false][1..] == [];
    assert Successors(counts, st, []) == [];
    assert Successors(counts, st, [false, true]) == one + two by {
      assert one == (match Step(counts, st, false) case None => [] case Some(t) => [t]) + [];
    }
  }

  // ---------------------------------------------------------------------
  // Arrangements: concrete conditions for the unknown springs
  // ---------------------------------------------------------------------

  /** The machine run from the start state over known conditions. */
  function Run(counts: seq<nat>, c: seq<bool>): Option<State>
    decreases |c|
  {
    if c == [] then Some(Start)
    else match Run(counts, c[..|c| - 1])
      case None => None
      case Some(st) => Step(counts, st, c[|c| - 1])
  }

  /** c assigns a condition to every spring and agrees with every known one. */
  predicate Compatible(springs: seq<Spring>, c: seq<bool>) {
    |c| == |springs| && forall i :: 0 <= i < |c| ==> c[i] in Choices(springs[i])
  }

  /** An arrangement of the springs that the machine accepts: every group complete. */
  predicate Arrangement(counts: seq<nat>, springs: seq<Spring>, c: seq<bool>) {
    Compatible(springs, c) && Run(counts, c).Some? && Run(counts, c).value.idx == |counts|
  }

  /** A concrete reading of a prefix of the springs and the state it leaves. */
  datatype Path = Path(choice: seq<bool>, end: State)

  function ExtendPath(counts: seq<nat>, p: Path, bs: seq<bool>): seq<Path> {
    if bs == [] then []
    else
      (match Step(counts, p.end, bs[0]) case None => [] case Some(t) => [Path(p.choice + [bs[0]], t)])
      + ExtendPath(counts, p, bs[1..])
  }

  function ExtendAll(counts: seq<nat>, ps: seq<Path>, s: Spring): seq<Path> {
    if ps == [] then [] else ExtendPath(counts, ps[0], Choices(s)) + ExtendAll(counts, ps[1..], s)
  }

  /** Every reading of the springs the machine survives, one path per reading. */
  function Paths(counts: seq<nat>, springs: seq<Spring>): seq<Path>
    decreases |springs|
  {
    if springs == [] then [Path([], Start)]
    else ExtendAll(counts, Paths(counts, springs[..|springs| - 1]), springs[|springs| - 1])
  }

  lemma {:induction false} ExtendPathFrom(counts: seq<nat>, p: Path, bs: seq<bool>, q: Path)
    requires q in ExtendPath(counts, p, bs)
    ensures exists b :: b in bs && q.choice == p.choice + [b] && Step(counts, p.end, b) == Some(q.end)
    decreases |bs|
  {
    if q !in ExtendPath(counts, p, bs[1..]) {
      assert q.choice == p.choice + [bs[0]];
    } else {
      ExtendPathFrom(counts, p, bs[1..], q);
      var b :| b in bs[1..] && q.choice == p.choice + [b] && Step(counts, p.end, b) == Some(q.end);
      assert b in bs;
    }
  }

  lemma {:induction false} ExtendPathTo(counts: seq<nat>, p: Path, bs: seq<bool>, b: bool)
    requires b in bs && Step(counts, p.end, b).Some?
    ensures Path(p.choice + [b], Step(counts, p.end, b).value) in ExtendPath(counts, p, bs)
    decreases |bs|
  {
    if bs[0] != b {
      ExtendPathTo(counts, p, bs[1..], b);
    }
  }

  /** Each extended path extends a path of the prefix by one allowed condition. */
  lemma {:induction false} ExtendAllFrom(counts: seq<nat>, ps: seq<Path>, s: Spring, q: Path)
    requires q in ExtendAll(counts, ps, s)
    ensures exists p, b :: p in ps && b in Choices(s) && q.choice == p.choice + [b] && Step(counts, p.end, b) == Some(q.end)
    decreases |ps|
  {
    if q in ExtendPath(counts, ps[0], Choices(s)) {
      ExtendPathFrom(counts, ps[0], Choices(s), q);
    } else {
      ExtendAllFrom(counts, ps[1..], s, q);
      var p, b :| p in ps[1..] && b in Choices(s) && q.choice == p.choice + [b] && Step(counts, p.end, b) == Some(q.end);
      assert p in ps;
    }
  }

  /** Every allowed one-step extension of a path of the prefix is listed. */
  lemma {:induction false} ExtendAllTo(counts: seq<nat>, ps: seq<Path>, s: Spring, p: Path, b: bool)
    requires p in ps && b in Choices(s) && Step(counts, p.end, b).Some?
    ensures Path(p.choice + [b], Step(counts, p.end, b).value) in ExtendAll(counts, ps, s)
    decreases |ps|
  {
    if ps[0] == p {
      ExtendPathTo(counts, p, Choices(s), b);
    } else {
      ExtendAllTo(counts, ps[1..], s, p, b);
    }
  }

  lemma RunSnoc(counts: seq<nat>, c: seq<bool>, b: bool)
    ensures Run(counts, c + [b]) == (match Run(counts, c) case None => None case Some(st) => Step(counts, st, b))
  {
    assert (c + [b])[..|c|] == c;
  }

  /** A one-step extension of a sound path is sound. */
  lemma SoundStep(counts: seq<nat>, springs: seq<Spring>, p: Path, b: bool, q: Path)
    requires springs != [] && b in Choices(springs[|springs| - 1])
    requires Compatible(springs[..|springs| - 1], p.choice) && Run(counts, p.choice) == Some(p.end)
    requires q.choice == p.choice + [b] && Step(counts, p.end, b) == Some(q.end)
    ensures Compatible(springs, q.choice) && Run(counts, q.choice) == Some(q.end)
  {
    RunSnoc(counts, p.choice, b);
    CompatibleSnoc(springs, p.choice, b);
  }

  /** A reading of all springs but the last, extended by a choice the last one allows. */
  lemma CompatibleSnoc(springs: seq<Spring>, c: seq<bool>, b: bool)
    requires springs != [] && b in Choices(springs[|springs| - 1])
    requires Compatible(springs[..|springs| - 1], c)
    ensures Compatible(springs, c + [b])
  {
    var pre := springs[..|springs| - 1];
    forall i | 0 <= i < |c| + 1
      ensures (c + [b])[i] in Choices(springs[i])
    {
      if i < |c| {
        assert pre[i] == springs[i];
      }
    }
  }

  /** Every path is a reading compatible with the springs, ending in the state the machine reaches on it. */
  lemma {:induction false} PathsSound(counts: seq<nat>, springs: seq<Spring>)
    ensures forall q :: q in Paths(counts, springs) ==>
      Compatible(springs, q.choice) && Run(counts, q.choice) == Some(q.end)
    decreases |springs|
  {
    if springs != [] {
      var pre := springs[..|springs| - 1];
      var s := springs[|springs| - 1];
      PathsSound(counts, pre);
      forall q | q in Paths(counts, springs)
        ensures Compatible(springs, q.choice) && Run(counts, q.choice) == Some(q.end)
      {
        ExtendAllFrom(counts, Paths(counts, pre), s, q);
        var p, b :| p in Paths(counts, pre) && b in Choices(s) && q.choice == p.choice + [b] && Step(counts, p.end, b) == Some(q.end);
        SoundStep(counts, springs, p, b, q);
      }
    }
  }

  /** Every reading compatible with the springs that the machine survives has a path. */
  lemma {:induction false} PathsComplete(counts: seq<nat>, springs: seq<Spring>, c: seq<bool>)
    requires Compatible(springs, c) && Run(counts, c).Some?
    ensures Path(c, Run(counts, c).value) in Paths(counts, springs)
    decreases |springs|
  {
    if springs != [] {
      var pre := springs[..|springs| - 1];
      var c0 := c[..|c| - 1];
      var b := c[|c| - 1];
      assert c == c0 + [b];
      RunSnoc(counts, c0, b);
      assert Compatible(pre, c0) by {
        assert forall i :: 0 <= i < |c0| ==> c0[i] == c[i] && pre[i] == springs[i];
      }
      PathsComplete(counts, pre, c0);
      ExtendAllTo(counts, Paths(counts, pre), springs[|springs| - 1], Path(c0, Run(counts, c0).value), b);
    }
  }

  /** No reading has two paths. */
  predicate DistinctChoices(ps: seq<Path>) {
    forall i, j :: 0 <= i < j < |ps| ==> ps[i].choice != ps[j].choice
  }

  predicate SameLength(ps: seq<Path>, n: nat) {
    forall k :: 0 <= k < |ps| ==> |ps[k].choice| == n
  }

  lemma {:induction false} ExtendPathDistinct(counts: seq<nat>, p: Path, bs: seq<bool>)
    requires forall i, j :: 0 <= i < j < |bs| ==> bs[i] != bs[j]
    ensures DistinctChoices(ExtendPath(counts, p, bs))
    ensures SameLength(ExtendPath(counts, p, bs), |p.choice| + 1)
    decreases |bs|
  {
    if bs != [] {
      ExtendPathDistinct(counts, p, bs[1..]);
      var rest := ExtendPath(counts, p, bs[1..]);
      forall q | q in rest ensures q.choice != p.choice + [bs[0]] {
        ExtendPathFrom(counts, p, bs[1..], q);
        var b :| b in bs[1..] && q.choice == p.choice + [b] && Step(counts, p.end, b) == Some(q.end);
        assert q.choice[|p.choice|] == b;
      }
    }
  }

  lemma Disjoint(xs: seq<Path>, ys: seq<Path>)
    requires DistinctChoices(xs) && DistinctChoices(ys)
    requires forall x, y :: x in xs && y in ys ==> x.choice != y.choice
    ensures DistinctChoices(xs + ys)
  {
    var zs := xs + ys;
    forall i, j | 0 <= i < j < |zs| ensures zs[i].choice != zs[j].choice {
      if j < |xs| {
        assert zs[i] == xs[i] && zs[j] == xs[j];
      } else if i >= |xs| {
        assert zs[i] == ys[i - |xs|] && zs[j] == ys[j - |xs|];
      } else {
        assert zs[i] in xs && zs[j] in ys;
      }
    }
  }

  lemma {:induction false} ExtendAllDistinct(counts: seq<nat>, ps: seq<Path>, s: Spring, n: nat)
    requires DistinctChoices(ps) && SameLength(ps, n)
    ensures DistinctChoices(ExtendAll(counts, ps, s)) && SameLength(ExtendAll(counts, ps, s), n + 1)
    decreases |ps|
  {
    if ps != [] {
      var head := ExtendPath(counts, ps[0], Choices(s));
      var rest := ExtendAll(counts, ps[1..], s);
      ExtendPathDistinct(counts, ps[0], Choices(s));
      assert DistinctChoices(ps[1..]) && SameLength(ps[1..], n) by {
        assert forall k :: 0 <= k < |ps| - 1 ==> ps[1..][k] == ps[k + 1];
      }
      ExtendAllDistinct(counts, ps[1..], s, n);
      HeadRestApart(counts, ps, s, n);
      Disjoint(head, rest);
    }
  }

  /** The extensions of the first path and those of the others differ in their first n choices. */
  lemma HeadRestApart(counts: seq<nat>, ps: seq<Path>, s: Spring, n: nat)
    requires ps != [] && DistinctChoices(ps) && SameLength(ps, n)
    ensures forall x, y :: x in ExtendPath(counts, ps[0], Choices(s)) && y in ExtendAll(counts, ps[1..], s) ==> x.choice != y.choice
  {
    forall x, y | x in ExtendPath(counts, ps[0], Choices(s)) && y in ExtendAll(counts, ps[1..], s) ensures x.choice != y.choice {
      ExtendPathFrom(counts, ps[0], Choices(s), x);
      ExtendAllFrom(counts, ps[1..], s, y);
      var p, b :| p in ps[1..] && b in Choices(s) && y.choice == p.choice + [b] && Step(counts, p.end, b) == Some(y.end);
      var k :| 0 <= k < |ps[1..]| && ps[1..][k] == p;
      assert ps[k + 1] == p;
      assert x.choice[..n] == ps[0].choice && y.choice[..n] == p.choice;
    }
  }

  /** Each reading of the springs has at most one path. */
  lemma {:induction false} PathsDistinct(counts: seq<nat>, springs: seq<Spring>)
    ensures DistinctChoices(Paths(counts, springs)) && SameLength(Paths(counts, springs), |springs|)
    decreases |springs|
  {
    if springs != [] {
      var pre := springs[..|springs| - 1];
      PathsDistinct(counts, pre);
      ExtendAllDistinct(counts, Paths(counts, pre), springs[|springs| - 1], |pre|);
    }
  }

  // ---------------------------------------------------------------------
  // The counting programme
  // ---------------------------------------------------------------------

  function Ends(ps: seq<Path>): (r: seq<State>)
    ensures |r| == |ps| && forall k :: 0 <= k < |ps| ==> r[k] == ps[k].end
  {
    if ps == [] then [] else [ps[0].end] + Ends(ps[1..])
  }

  /** Every state entered, once per state it is entered from. */
  function AdvanceAll(counts: seq<nat>, r: seq<State>, s: Spring): seq<State> {
    if r == [] then [] else Advance(counts, r[0], s) + AdvanceAll(counts, r[1..], s)
  }

  /** The states after each spring, once per surviving reading. */
  function Reach(counts: seq<nat>, springs: seq<Spring>): seq<State>
    decreases |springs|
  {
    if springs == [] then [Start]
    else AdvanceAll(counts, Reach(counts, springs[..|springs| - 1]), springs[|springs| - 1])
  }

  lemma {:induction false} EndsExtendPath(counts: seq<nat>, p: Path, bs: seq<bool>)
    ensures Ends(ExtendPath(counts, p, bs)) == Successors(counts, p.end, bs)
    decreases |bs|
  {
    if bs != [] {
      EndsExtendPath(counts, p, bs[1..]);
      EndsAppend(
        (match Step(counts, p.end, bs[0]) case None => [] case Some(t) => [Path(p.choice + [bs[0]], t)]),
        ExtendPath(counts, p, bs[1..]));
    }
  }

  lemma EndsAppend(xs: seq<Path>, ys: seq<Path>)
    ensures Ends(xs + ys) == Ends(xs) + Ends(ys)
  {
  }

  lemma {:induction false} EndsExtendAll(counts: seq<nat>, ps: seq<Path>, s: Spring)
    ensures Ends(ExtendAll(counts, ps, s)) == AdvanceAll(counts, Ends(ps), s)
    decreases |ps|
  {
    if ps != [] {
      EndsExtendAll(counts, ps[1..], s);
      EndsExtendPath(counts, ps[0], Choices(s));
      AdvanceIsChoice(counts, ps[0].end, s);
      EndsAppend(ExtendPath(counts, ps[0], Choices(s)), ExtendAll(counts, ps[1..], s));
      assert Ends(ps)[1..] == Ends(ps[1..]);
    }
  }

  /** The states the programme tracks are the end states of the surviving readings, one per reading. */
  lemma {:induction false} ReachIsEnds(counts: seq<nat>, springs: seq<Spring>)
    ensures Reach(counts, springs) == Ends(Paths(counts, springs))
    decreases |springs|
  {
    if springs != [] {
      var pre := springs[..|springs| - 1];
      ReachIsEnds(counts, pre);
      EndsExtendAll(counts, Paths(counts, pre), springs[|springs| - 1]);
    }
  }

  /** The count the hash map holds for a state (absent keys count zero). */
  function Mult(m: map<State, nat>, st: State): nat {
    if st in m then m[st] else 0
  }

  /** `entry(st).and_modify(|x| *x += num).or_insert(num)`. */
  function Add(m: map<State, nat>, st: State, num: nat): (r: map<State, nat>)
    ensures forall x :: Mult(r, x) == Mult(m, x) + (if x == st then num else 0)
    ensures r.Keys == m.Keys + {st}
  {
    if st in m then m[st := m[st] + num] else m[st := num]
  }

  /** The map holds, for every state, how often it occurs in r. */
  ghost predicate Tallies(m: map<State, nat>, r: seq<State>) {
    forall st :: Mult(m, st) == multiset(r)[st]
  }

  /** The entries of r whose state is in d. */
  function Only(r: seq<State>, d: set<State>): seq<State> {
    if r == [] then []
    else if r[0] in d then [r[0]] + Only(r[1..], d) else Only(r[1..], d)
  }

  lemma {:induction false} AdvanceAllAppend(counts: seq<nat>, a: seq<State>, b: seq<State>, s: Spring)
    ensures AdvanceAll(counts, a + b, s) == AdvanceAll(counts, a, s) + AdvanceAll(counts, b, s)
    decreases |a|
  {
    if a != [] {
      assert (a + b)[1..] == a[1..] + b;
      AdvanceAllAppend(counts, a[1..], b, s);
    } else {
      assert a + b == b;
    }
  }

  /** Taking one more key adds that key's share. */
  /** The advanced states of a state list, as a multiset. */
  ghost function Advanced(counts: seq<nat>, r: seq<State>, s: Spring): multiset<State> {
    multiset(AdvanceAll(counts, r, s))
  }

  lemma ConsAdvanced(counts: seq<nat>, x: State, t: seq<State>, s: Spring)
    ensures Advanced(counts, [x] + t, s) == Advanced(counts, [x], s) + Advanced(counts, t, s)
  {
    AdvanceAllAppend(counts, [x], t, s);
  }

  lemma {:induction false} OnlySplit(counts: seq<nat>, r: seq<State>, d: set<State>, k: State, s: Spring)
    requires k !in d
    ensures Advanced(counts, Only(r, d + {k}), s) == Advanced(counts, Only(r, d), s) + Advanced(counts, Only(r, {k}), s)
    decreases |r|
  {
    if r != [] {
      var t := r[1..];
      OnlySplit(counts, t, d, k, s);
      var dk, a, b := Only(t, d + {k}), Only(t, d), Only(t, {k});
      if r[0] in d {
        assert Only(r, d + {k}) == [r[0]] + dk && Only(r, d) == [r[0]] + a && Only(r, {k}) == b;
        ConsAdvanced(counts, r[0], dk, s);
        ConsAdvanced(counts, r[0], a, s);
      } else if r[0] == k {
        assert Only(r, d + {k}) == [r[0]] + dk && Only(r, d) == a && Only(r, {k}) == [r[0]] + b;
        ConsAdvanced(counts, r[0], dk, s);
        ConsAdvanced(counts, r[0], b, s);
      } else {
        assert Only(r, d + {k}) == dk && Only(r, d) == a && Only(r, {k}) == b;
      }
    }
  }

  /** A state entered from one state is entered once. */
  lemma AdvanceOnce(counts: seq<nat>, k: State, s: Spring, x: State)
    ensures multiset(Advance(counts, k, s))[x] == if x in Advance(counts, k, s) then 1 else 0
  {
    var next := Advance(counts, k, s);
    if |next| == 2 {
      assert next == [next[0]] + [next[1]];
    } else if |next| == 1 {
      assert next == [next[0]];
    }
  }

  /** One key's share: every state it enters, as often as the key occurs. */
  lemma {:induction false} OnlyOne(counts: seq<nat>, r: seq<State>, k: State, s: Spring, x: State)
    ensures multiset(AdvanceAll(counts, Only(r, {k}), s))[x]
      == if x in Advance(counts, k, s) then multiset(r)[k] else 0
    decreases |r|
  {
    if r != [] {
      OnlyOne(counts, r[1..], k, s, x);
      assert r == [r[0]] + r[1..];
      if r[0] == k {
        AdvanceAllAppend(counts, [r[0]], Only(r[1..], {k}), s);
        assert AdvanceAll(counts, [r[0]], s) == Advance(counts, k, s) by {
          assert [r[0]][1..] == [];
        }
        AdvanceOnce(counts, k, s, x);
      }
    }
  }

  lemma {:induction false} OnlyAll(r: seq<State>, d: set<State>)
    requires forall x :: x in r ==> x in d
    ensures Only(r, d) == r
    decreases |r|
  {
    if r != [] {
      OnlyAll(r[1..], d);
    }
  }

  lemma {:induction false} OnlyNone(r: seq<State>)
    ensures Only(r, {}) == []
    decreases |r|
  {
    if r != [] {
      OnlyNone(r[1..]);
    }
  }

  /** One state's share after the source's match: the map gains num for each state entered. */
  lemma TransferStep(counts: seq<nat>, r: seq<State>, d: set<State>, k: State, s: Spring,
    to: map<State, nat>, to': map<State, nat>, num: nat)
    requires k !in d && num == multiset(r)[k]
    requires Tallies(to, AdvanceAll(counts, Only(r, d), s))
    requires forall x :: Mult(to', x) == Mult(to, x) + (if x in Advance(counts, k, s) then num else 0)
    ensures Tallies(to', AdvanceAll(counts, Only(r, d + {k}), s))
  {
    OnlySplit(counts, r, d, k, s);
    forall x ensures Mult(to', x) == multiset(AdvanceAll(counts, Only(r, d + {k}), s))[x] {
      OnlyOne(counts, r, k, s, x);
    }
  }

  /** The match of `solution` for one state: each state it enters gains the state's count. */
  method Pass(counts: seq<nat>, to: map<State, nat>, st: State, num: nat, s: Spring) returns (to': map<State, nat>)
    ensures forall x :: Mult(to', x) == Mult(to, x) + (if x in Advance(counts, st, s) then num else 0)
  {
    to' := to;
    if s != Operational && st.idx < |counts| && st.expectOp == 0 {
      if s == Unknown && st.run == 0 {
        to' := Add(to', st, num);
      }
      var idx, run, expectOp := st.idx, st.run + 1, st.expectOp;
      if run == counts[idx] {
        idx, run, expectOp := idx + 1, 0, 1;
      }
      to' := Add(to', State(idx, run, expectOp), num);
    } else if s != Broken && st.run == 0 {
      to' := Add(to', State(st.idx, st.run, 0), num);
    }
  }

  /**
   * The inner loop of `solution` for one spring: every state of `from`
   * passes its count to each state the match enters; `to` then tallies the
   * states after the spring.
   */
  method Transfer(counts: seq<nat>, from: map<State, nat>, s: Spring, ghost r: seq<State>)
    returns (to: map<State, nat>)
    requires Tallies(from, r)
    ensures Tallies(to, AdvanceAll(counts, r, s))
  {
    to := map[];
    var keys := from.Keys;
    ghost var done: set<State> := {};
    OnlyNone(r);
    while keys != {}
      invariant keys + done == from.Keys && keys !! done
      invariant Tallies(to, AdvanceAll(counts, Only(r, done), s))
      decreases |keys|
    {
      var st :| st in keys;
      var num := from[st];
      ghost var to0 := to;
      to := Pass(counts, to, st, num, s);
      assert num == multiset(r)[st] by {
        assert Mult(from, st) == num;
      }
      TransferStep(counts, r, done, st, s, to0, to, num);
      keys := keys - {st};
      done := done + {st};
    }
    TalliedKeys(from, r);
    OnlyAll(r, from.Keys);
  }

  /** The number of entries of r with every group complete. */
  function Accepted(counts: seq<nat>, r: seq<State>): nat {
    if r == [] then 0 else (if r[0].idx == |counts| then 1 else 0) + Accepted(counts, r[1..])
  }

  lemma {:induction false} AcceptedSplit(counts: seq<nat>, r: seq<State>, d: set<State>, k: State)
    requires k !in d
    ensures Accepted(counts, Only(r, d + {k})) == Accepted(counts, Only(r, d)) + (if k.idx == |counts| then multiset(r)[k] else 0)
    decreases |r|
  {
    if r != [] {
      AcceptedSplit(counts, r[1..], d, k);
      assert r == [r[0]] + r[1..];
      if r[0] in d + {k} {
        assert ([r[0]] + Only(r[1..], d + {k}))[1..] == Only(r[1..], d + {k});
      }
      if r[0] in d {
        assert ([r[0]] + Only(r[1..], d))[1..] == Only(r[1..], d);
      }
    }
  }

  /** The final sum of `solution`: the counts of the states with every group complete. */
  method SumAccepted(counts: seq<nat>, from: map<State, nat>, ghost r: seq<State>) returns (total: nat)
    requires Tallies(from, r)
    ensures total == Accepted(counts, r)
  {
    total := 0;
    var keys := from.Keys;
    ghost var done: set<State> := {};
    OnlyNone(r);
    while keys != {}
      invariant keys + done == from.Keys && keys !! done
      invariant total == Accepted(counts, Only(r, done))
      decreases |keys|
    {
      var st :| st in keys;
      AcceptedSplit(counts, r, done, st);
      assert from[st] == Mult(from, st) == multiset(r)[st];
      total := total + if st.idx == |counts| then from[st] else 0;
      keys := keys - {st};
      done := done + {st};
    }
    TalliedKeys(from, r);
    OnlyAll(r, from.Keys);
  }

  /** Every state of a tallied list has an entry in the map. */
  lemma TalliedKeys(m: map<State, nat>, r: seq<State>)
    requires Tallies(m, r)
    ensures forall x :: x in r ==> x in m.Keys
  {
    forall x | x in r ensures x in m.Keys {
      assert Mult(m, x) == multiset(r)[x] > 0;
    }
  }

  /** The programme for one row: the tally starts at the start state and passes through every spring. */
  method Arrangements(row: Row) returns (total: nat)
    ensures total == Accepted(row.counts, Reach(row.counts, row.springs))
  {
    var toStates: map<State, nat> := map[];
    var fromStates: map<State, nat> := map[Start := 1];
    for i := 0 to |row.springs|
      invariant Tallies(fromStates, Reach(row.counts, row.springs[..i]))
    {
      ghost var r := Reach(row.counts, row.springs[..i]);
      ghost var next := Reach(row.counts, row.springs[..i + 1]);
      assert next == AdvanceAll(row.counts, r, row.springs[i]) by {
        assert row.springs[..i + 1][..i] == row.springs[..i];
      }
      toStates := Transfer(row.counts, fromStates, row.springs[i], r);
      fromStates, toStates := toStates, fromStates;
      toStates := map[];
    }
    assert row.springs[..|row.springs|] == row.springs;
    total := SumAccepted(row.counts, fromStates, Reach(row.counts, row.springs));
  }

  lemma {:induction false} AcceptedEnds(counts: seq<nat>, ps: seq<Path>)
    ensures Accepted(counts, Ends(ps)) == |AcceptedPaths(counts, ps)|
    decreases |ps|
  {
    if ps != [] {
      AcceptedEnds(counts, ps[1..]);
      assert Ends(ps)[1..] == Ends(ps[1..]);
    }
  }

  /** The paths whose readings the machine accepts. */
  function AcceptedPaths(counts: seq<nat>, ps: seq<Path>): (r: seq<Path>)
    ensures forall q :: q in r <==> q in ps && q.end.idx == |counts|
  {
    if ps == [] then []
    else if ps[0].end.idx == |counts| then [ps[0]] + AcceptedPaths(counts, ps[1..])
    else AcceptedPaths(counts, ps[1..])
  }

  lemma {:induction false} AcceptedPathsDistinct(counts: seq<nat>, ps: seq<Path>)
    requires DistinctChoices(ps)
    ensures DistinctChoices(AcceptedPaths(counts, ps))
    decreases |ps|
  {
    if ps != [] {
      assert DistinctChoices(ps[1..]) by {
        assert forall k :: 0 <= k < |ps| - 1 ==> ps[1..][k] == ps[k + 1];
      }
      AcceptedPathsDistinct(counts, ps[1..]);
      if ps[0].end.idx == |counts| {
        forall y | y in AcceptedPaths(counts, ps[1..]) ensures ps[0].choice != y.choice {
          var k :| 0 <= k < |ps[1..]| && ps[1..][k] == y;
          assert ps[k + 1] == y;
        }
        Disjoint([ps[0]], AcceptedPaths(counts, ps[1..]));
      }
    }
  }

  /**
   * The count of a row is the number of its arrangements: the programme's
   * total counts a list of readings that holds every arrangement of the
   * springs, holds nothing else, and holds each one once.
   */
  lemma ArrangementsCounted(row: Row)
    ensures var listed := AcceptedPaths(row.counts, Paths(row.counts, row.springs));
      && Accepted(row.counts, Reach(row.counts, row.springs)) == |listed|
      && (forall q :: q in listed ==> Arrangement(row.counts, row.springs, q.choice))
      && (forall c :: Arrangement(row.counts, row.springs, c) ==> exists q :: q in listed && q.choice == c)
      && DistinctChoices(listed)
  {
    var ps := Paths(row.counts, row.springs);
    ReachIsEnds(row.counts, row.springs);
    AcceptedEnds(row.counts, ps);
    PathsSound(row.counts, row.springs);
    PathsDistinct(row.counts, row.springs);
    AcceptedPathsDistinct(row.counts, ps);
    forall c | Arrangement(row.counts, row.springs, c)
      ensures exists q :: q in AcceptedPaths(row.counts, ps) && q.choice == c
    {
      PathsComplete(row.counts, row.springs, c);
      assert Path(c, Run(row.counts, c).value) in AcceptedPaths(row.counts, ps);
    }
  }

  // ---------------------------------------------------------------------
  // The shape of the states
  // ---------------------------------------------------------------------

  predicate Positive(counts: seq<nat>) {
    forall k :: 0 <= k < |counts| ==> counts[k] > 0
  }

  /**
   * The states that can occur: at most every group done, the flag 0 or 1,
   * no open run while the flag is set, and an open run shorter than its
   * group.
   */
  predicate Good(counts: seq<nat>, st: State) {
    && st.idx <= |counts| && st.expectOp <= 1
    && (st.expectOp == 1 ==> st.run == 0)
    && (st.idx < |counts| ==> st.run < counts[st.idx])
    && (st.idx == |counts| ==> st.run == 0)
  }

  lemma AdvanceGood(counts: seq<nat>, st: State, s: Spring)
    requires Positive(counts) && Good(counts, st)
    ensures forall t :: t in Advance(counts, st, s) ==> Good(counts, t)
  {
  }

  lemma {:induction false} AdvanceAllGood(counts: seq<nat>, r: seq<State>, s: Spring)
    requires Positive(counts) && forall st :: st in r ==> Good(counts, st)
    ensures forall t :: t in AdvanceAll(counts, r, s) ==> Good(counts, t)
    decreases |r|
  {
    if r != [] {
      AdvanceGood(counts, r[0], s);
      AdvanceAllGood(counts, r[1..], s);
    }
  }

  /** With positive group sizes every state the programme tracks is one of the states that can occur. */
  lemma {:induction false} ReachGood(counts: seq<nat>, springs: seq<Spring>)
    requires Positive(counts)
    ensures forall st :: st in Reach(counts, springs) ==> Good(counts, st)
    decreases |springs|
  {
    if springs != [] {
      ReachGood(counts, springs[..|springs| - 1]);
      AdvanceAllGood(counts, Reach(counts, springs[..|springs| - 1]), springs[|springs| - 1]);
    }
  }

  // ---------------------------------------------------------------------
  // The machine counts groups of broken springs
  // ---------------------------------------------------------------------

  /** The length of the run of broken springs at the end of a reading. */
  function Open(c: seq<bool>): nat
    decreases |c|
  {
    if c == [] || !c[|c| - 1] then 0 else Open(c[..|c| - 1]) + 1
  }

  /** The sizes of the groups of broken springs a reading has closed (each followed by an operational spring). */
  function Closed(c: seq<bool>): seq<nat>
    decreases |c|
  {
    if c == [] then []
    else if c[|c| - 1] then Closed(c[..|c| - 1])
    else Closed(c[..|c| - 1]) + (if Open(c[..|c| - 1]) > 0 then [Open(c[..|c| - 1])] else [])
  }

  /** The sizes of the maximal runs of broken springs, left to right. */
  function Groups(c: seq<bool>): seq<nat> {
    Closed(c) + (if Open(c) > 0 then [Open(c)] else [])
  }

  /** The groups closed so far are the first group sizes, and an open run does not exceed its group. */
  predicate Fits(counts: seq<nat>, c: seq<bool>) {
    var cl, o := Closed(c), Open(c);
    && |cl| <= |counts| && cl == counts[..|cl|]
    && (o > 0 ==> |cl| < |counts| && o <= counts[|cl|])
  }

  /** The state the machine is in after a fitting reading. */
  function Abstract(counts: seq<nat>, c: seq<bool>): State
    requires Fits(counts, c)
  {
    var cl, o := Closed(c), Open(c);
    if o == 0 then State(|cl|, 0, 0)
    else if o == counts[|cl|] then State(|cl| + 1, 0, 1)
    else State(|cl|, o, 0)
  }

  /** With positive group sizes, the machine survives a reading exactly when it fits, and then its state is the abstract one. */
  lemma {:induction false} RunTracks(counts: seq<nat>, c: seq<bool>)
    requires Positive(counts)
    ensures Run(counts, c).Some? <==> Fits(counts, c)
    ensures Run(counts, c).Some? ==> Run(counts, c).value == Abstract(counts, c)
    decreases |c|
  {
    if c != [] {
      var c0 := c[..|c| - 1];
      var b := c[|c| - 1];
      RunTracks(counts, c0);
      var cl0, o0 := Closed(c0), Open(c0);
      if b {
        assert Closed(c) == cl0 && Open(c) == o0 + 1;
      } else {
        assert Open(c) == 0 && Closed(c) == cl0 + (if o0 > 0 then [o0] else []);
        if o0 > 0 && Fits(counts, c) {
          assert Closed(c)[|cl0|] == o0;
          assert cl0 == Closed(c)[..|cl0|];
        }
      }
    }
  }

  /** With positive group sizes, the machine accepts a reading exactly when its groups of broken springs are the group sizes. */
  lemma AcceptsIffGroups(counts: seq<nat>, c: seq<bool>)
    requires Positive(counts)
    ensures (Run(counts, c).Some? && Run(counts, c).value.idx == |counts|) <==> Groups(c) == counts
  {
    RunTracks(counts, c);
    var cl, o := Closed(c), Open(c);
    if Groups(c) == counts && o > 0 {
      assert counts[|cl|] == o;
      assert cl == counts[..|cl|];
    }
  }

  /** With positive group sizes, an arrangement is a reading of the springs whose groups of broken springs are the group sizes. */
  lemma ArrangementMeaning(row: Row, c: seq<bool>)
    requires Positive(row.counts)
    ensures Arrangement(row.counts, row.springs, c) <==> Compatible(row.springs, c) && Groups(c) == row.counts
  {
    AcceptsIffGroups(row.counts, c);
  }

  // ---------------------------------------------------------------------
  // solution
  // ---------------------------------------------------------------------

  /** The number of arrangements of every unfolded line. */
  predicate AllWellFormed(ls: seq<string>) {
    forall k :: 0 <= k < |ls| ==> WellFormed(ls[k])
  }

  function Total(ls: seq<string>, n: nat): nat
    requires n >= 1 && AllWellFormed(ls)
  {
    if ls == [] then 0
    else
      UnfoldParses(ls[|ls| - 1], n);
      var row := FromLine(Unfold(ls[|ls| - 1], n));
      Total(ls[..|ls| - 1], n) + Accepted(row.counts, Reach(row.counts, row.springs))
  }

  /** `solution(n)`: unfold every line n times and add up the arrangement counts. */
  method Solution(text: string, n: nat) returns (sum: nat)
    requires n >= 1 && forall k :: 0 <= k < |Lines(text)| ==> WellFormed(Lines(text)[k])
    ensures sum == Total(Lines(text), n)
  {
    var ls := Lines(text);
    sum := 0;
    for i := 0 to |ls|
      invariant sum == Total(ls[..i], n)
    {
      TotalSnoc(ls, i, n);
      var row := FromLine(Unfold(ls[i], n));
      var count := Arrangements(row);
      sum := sum + count;
    }
    assert ls[..|ls|] == ls;
  }

  /** One more line adds its unfolded arrangement count. */
  lemma TotalSnoc(ls: seq<string>, i: nat, n: nat)
    requires n >= 1 && i < |ls| && AllWellFormed(ls)
    ensures AllWellFormed(ls[..i]) && AllWellFormed(ls[..i + 1])
    ensures WellFormed(Unfold(ls[i], n))
    ensures var row := FromLine(Unfold(ls[i], n));
      Total(ls[..i + 1], n) == Total(ls[..i], n) + Accepted(row.counts, Reach(row.counts, row.springs))
  {
    UnfoldParses(ls[i], n);
    var pre := ls[..i + 1];
    assert pre[..i] == ls[..i] && pre[i] == ls[i];
    forall k | 0 <= k < |pre| ensures WellFormed(pre[k]) {
      assert pre[k] == ls[k];
    }
  }
}
