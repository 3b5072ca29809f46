/**
 * Scratchcards (src/bin/d4.rs): each card lists winning numbers and the
 * numbers drawn; part one scores every card by its matches, part two lets
 * every match win copies of the following cards.
 */
module D4 {
  import opened Text

  /** `Card`: its id, the set of winning numbers, and my numbers in order. */
  datatype Card = Card(id: nat, winning: set<nat>, mine: seq<nat>)

  // ---------------------------------------------------------------------
  // Parsing
  // ---------------------------------------------------------------------

  /** `filter(|&s| s != "")`: the pieces that are not empty, in order. */
  function NonEmpty(parts: seq<string>): (r: seq<string>)
    ensures forall s :: s in r <==> s in parts && s != []
    ensures |r| <= |parts|
  {
    if parts == [] then []
    else (if parts[0] == [] then [] else [parts[0]]) + NonEmpty(parts[1..])
  }

  predicate AllNats(ws: seq<string>) {
    forall k :: 0 <= k < |ws| ==> IsNat(ws[k])
  }

  function Nats(ws: seq<string>): (ns: seq<nat>)
    requires AllNats(ws)
    ensures |ns| == |ws|
  {
    seq(|ws|, k requires 0 <= k < |ws| => NatValue(ws[k]))
  }

  /** A line `Card::from` accepts: "Card <id>: <numbers> | <numbers>". */
  predicate WellFormed(line: string) {
    var parts := NonEmpty(Split(line, ": "));
    |parts| >= 2 && |Words(parts[0])| >= 2 && IsNat(Words(parts[0])[1]) &&
    var nums := Split(parts[1], " | ");
    |nums| >= 2 && AllNats(Words(nums[0])) && AllNats(Words(nums[1]))
  }

  /** `Card::from`: the id after the first word, the winning numbers before " | ", mine after it. */
  function ParseCard(line: string): (c: Card)
    requires WellFormed(line)
    ensures var nums := Split(NonEmpty(Split(line, ": "))[1], " | ");
      (forall n :: n in c.winning <==> n in Nats(Words(nums[0]))) && |c.mine| == |Words(nums[1])|
  {
    var parts := NonEmpty(Split(line, ": "));
    var nums := Split(parts[1], " | ");
    var winning := Nats(Words(nums[0]));
    Card(NatValue(Words(parts[0])[1]), set k | 0 <= k < |winning| :: winning[k], Nats(Words(nums[1])))
  }

  // ---------------------------------------------------------------------
  // Matches and score
  // ---------------------------------------------------------------------

  /** The `winners` filter: my numbers that are winning numbers, each repeat kept. */
  function Winners(mine: seq<nat>, winning: set<nat>): (w: seq<nat>)
    ensures forall n :: multiset(w)[n] == if n in winning then multiset(mine)[n] else 0
    ensures |w| <= |mine|
  {
    if mine == [] then []
    else
      assert mine == [mine[0]] + mine[1..];
      (if mine[0] in winning then [mine[0]] else []) + Winners(mine[1..], winning)
  }

  function Matches(c: Card): nat {
    |Winners(c.mine, c.winning)|
  }

  /** The number of matches depends only on how often each number occurs, not on the order. */
  lemma MatchesOrderFree(a: seq<nat>, b: seq<nat>, winning: set<nat>)
    requires multiset(a) == multiset(b)
    ensures |Winners(a, winning)| == |Winners(b, winning)|
  {
    assert multiset(Winners(a, winning)) == multiset(Winners(b, winning));
    assert |multiset(Winners(a, winning))| == |Winners(a, winning)|;
    assert |multiset(Winners(b, winning))| == |Winners(b, winning)|;
  }

  function Pow2(k: nat): (r: nat)
    ensures r >= 1
  {
    if k == 0 then 1 else 2 * Pow2(k - 1)
  }

  /** A card's worth: nothing without matches, else 2 to the power matches - 1. */
  function Score(m: nat): nat {
    if m > 0 then Pow2(m - 1) else 0
  }

  /** Each further match doubles the worth, and the worth is never below the match count. */
  lemma {:induction false} ScoreGrowth(m: nat)
    ensures m >= 1 ==> Score(m + 1) == 2 * Score(m)
    ensures m <= Score(m)
    ensures Score(m) == 0 <==> m == 0
  {
    if m >= 2 {
      ScoreGrowth(m - 1);
    }
  }

  function SumScores(cards: seq<Card>): nat {
    if cards == [] then 0
    else SumScores(cards[..|cards| - 1]) + Score(Matches(cards[|cards| - 1]))
  }

  /** The cards of the input, one per line. */
  function Cards(ls: seq<string>): (cards: seq<Card>)
    requires forall k :: 0 <= k < |ls| ==> WellFormed(ls[k])
    ensures |cards| == |ls| && forall k :: 0 <= k < |ls| ==> cards[k] == ParseCard(ls[k])
  {
    seq(|ls|, k requires 0 <= k < |ls| => ParseCard(ls[k]))
  }

  /** `solution_1`: the worth of all cards. */
  method Solution1(text: string) returns (total: nat)
    requires forall k :: 0 <= k < |Lines(text)| ==> WellFormed(Lines(text)[k])
    ensures total == SumScores(Cards(Lines(text)))
  {
    var cards := Cards(Lines(text));
    total := 0;
    for k := 0 to |cards|
      invariant total == SumScores(cards[..k])
    {
      var winners := Winners(cards[k].mine, cards[k].winning);
      if |winners| > 0 {
        total := total + Pow2(|winners| - 1);
      }
      SumScoresSnoc(cards, k);
    }
    assert cards[..|cards|] == cards;
  }

  lemma SumScoresSnoc(cards: seq<Card>, k: nat)
    requires k < |cards|
    ensures SumScores(cards[..k + 1]) == SumScores(cards[..k]) + Score(Matches(cards[k]))
  {
    assert cards[..k + 1][..k] == cards[..k];
  }

  // ---------------------------------------------------------------------
  // The copies cascade
  // ---------------------------------------------------------------------

  /** Card `id` with k matches only indexes `card_counts` when k > 0, and then id..id+k-1 must exist. */
  predicate Fits(id: nat, k: nat, n: nat) {
    k == 0 || (1 <= id && id + k <= n)
  }

  predicate AllFit(cards: seq<Card>, n: nat) {
    forall j :: 0 <= j < |cards| ==> Fits(cards[j].id, Matches(cards[j]), n)
  }

  /** One card's inner loop: the k cards after card `id` each gain as many copies as card `id` has. */
  function Won(counts: seq<nat>, id: nat, k: nat): (r: seq<nat>)
    requires Fits(id, k, |counts|)
    ensures |r| == |counts|
  {
    if k == 0 then counts
    else seq(|counts|, j requires 0 <= j < |counts| => if id <= j < id + k then counts[j] + counts[id - 1] else counts[j])
  }

  /** The counts after the cards in order, starting from `counts`. */
  function Cascade(cards: seq<Card>, counts: seq<nat>): (r: seq<nat>)
    requires AllFit(cards, |counts|)
    ensures |r| == |counts|
  {
    if cards == [] then counts
    else
      var last := cards[|cards| - 1];
      Won(Cascade(cards[..|cards| - 1], counts), last.id, Matches(last))
  }

  function Sum(s: seq<nat>): nat {
    if s == [] then 0 else Sum(s[..|s| - 1]) + s[|s| - 1]
  }

  lemma {:induction false} SumUpdate(s: seq<nat>, j: nat, v: nat)
    requires j < |s|
    ensures Sum(s[j := v]) + s[j] == Sum(s) + v
    decreases |s|
  {
    var n := |s| - 1;
    if j < n {
      assert s[j := v][..n] == s[..n][j := v];
      SumUpdate(s[..n], j, v);
    } else {
      assert s[j := v][..n] == s[..n];
    }
  }

  /** The first i steps of the inner loop. */
  function WonUpTo(counts: seq<nat>, id: nat, i: nat): (r: seq<nat>)
    requires 1 <= id && id + i <= |counts|
    ensures |r| == |counts|
  {
    seq(|counts|, j requires 0 <= j < |counts| => if id <= j < id + i then counts[j] + counts[id - 1] else counts[j])
  }

  /** Each step of the inner loop adds the copies of card `id` once. */
  lemma {:induction false} WonUpToSum(counts: seq<nat>, id: nat, i: nat)
    requires 1 <= id && id + i <= |counts|
    ensures Sum(WonUpTo(counts, id, i)) == Sum(counts) + i * counts[id - 1]
    decreases i
  {
    if i == 0 {
      assert WonUpTo(counts, id, 0) == counts;
    } else {
      var prev := WonUpTo(counts, id, i - 1);
      WonUpToStep(counts, id, i);
      WonUpToSum(counts, id, i - 1);
      SumUpdate(prev, id + i - 1, counts[id + i - 1] + counts[id - 1]);
      assert i * counts[id - 1] == (i - 1) * counts[id - 1] + counts[id - 1];
    }
  }

  /** Step i of the inner loop changes only entry id + i - 1. */
  lemma WonUpToStep(counts: seq<nat>, id: nat, i: nat)
    requires 1 <= id && id + i <= |counts| && i > 0
    ensures WonUpTo(counts, id, i) == WonUpTo(counts, id, i - 1)[id + i - 1 := counts[id + i - 1] + counts[id - 1]]
  {
  }

  /** A card with k matches adds k times its own count to the total, and no count shrinks. */
  lemma WonGrowth(counts: seq<nat>, id: nat, k: nat)
    requires Fits(id, k, |counts|)
    ensures k > 0 ==> Sum(Won(counts, id, k)) == Sum(counts) + k * counts[id - 1]
    ensures forall j :: 0 <= j < |counts| ==> Won(counts, id, k)[j] >= counts[j]
  {
    if k > 0 {
      assert Won(counts, id, k) == WonUpTo(counts, id, k);
      WonUpToSum(counts, id, k);
    }
  }

  lemma WonSumGrows(counts: seq<nat>, id: nat, k: nat)
    requires Fits(id, k, |counts|)
    ensures Sum(Won(counts, id, k)) >= Sum(counts)
  {
    if k > 0 {
      WonGrowth(counts, id, k);
      MulLe(0, k, counts[id - 1]);
    }
  }

  /** Counts never decrease, so every card keeps at least its starting count. */
  lemma {:induction false} CascadeGrows(cards: seq<Card>, counts: seq<nat>)
    requires AllFit(cards, |counts|)
    ensures forall j :: 0 <= j < |counts| ==> Cascade(cards, counts)[j] >= counts[j]
    decreases |cards|
  {
    if cards != [] {
      var last := cards[|cards| - 1];
      var prev := Cascade(cards[..|cards| - 1], counts);
      CascadeGrows(cards[..|cards| - 1], counts);
      WonGrowth(prev, last.id, Matches(last));
    }
  }

  /** The total number of cards never falls. */
  lemma {:induction false} CascadeSum(cards: seq<Card>, counts: seq<nat>)
    requires AllFit(cards, |counts|)
    ensures Sum(Cascade(cards, counts)) >= Sum(counts)
    decreases |cards|
  {
    if cards != [] {
      var last := cards[|cards| - 1];
      var prev := Cascade(cards[..|cards| - 1], counts);
      CascadeSum(cards[..|cards| - 1], counts);
      WonSumGrows(prev, last.id, Matches(last));
    }
  }

  lemma {:induction false} SumOnes(n: nat)
    ensures Sum(Repeat<nat>(1, n)) == n
  {
    if n > 0 {
      SumOnes(n - 1);
      var r: seq<nat> := Repeat(1, n);
      assert r[..n - 1] == Repeat<nat>(1, n - 1);
      assert Sum(r) == Sum(r[..n - 1]) + r[n - 1];
    }
  }

  /** The inner loop of `solution_2`, in place on `card_counts`. */
  method AddCopies(counts: array<nat>, id: nat, k: nat)
    requires Fits(id, k, counts.Length)
    modifies counts
    ensures counts[..] == Won(old(counts[..]), id, k)
  {
    ghost var before := counts[..];
    for i := 0 to k
      invariant i > 0 ==> 1 <= id && id + i <= counts.Length
      invariant forall j :: 0 <= j < counts.Length ==> counts[j] == if id <= j < id + i then before[j] + before[id - 1] else before[j]
    {
      counts[id + i] := counts[id + i] + counts[id - 1];
    }
  }

  /** `solution_2`: one copy of each card, then the cascade in card order; the total of all copies. */
  method TotalCards(cards: seq<Card>) returns (total: nat)
    requires AllFit(cards, |cards|)
    ensures total == Sum(Cascade(cards, Repeat(1, |cards|)))
    ensures total >= |cards|
  {
    var n := |cards|;
    var counts := new nat[n](_ => 1);
    assert counts[..] == Repeat(1, n);
    for c := 0 to n
      invariant AllFit(cards[..c], n) && counts[..] == Cascade(cards[..c], Repeat(1, n))
    {
      var card := cards[c];
      var winners := Winners(card.mine, card.winning);
      CascadeSnoc(cards, c, Repeat(1, n));
      AddCopies(counts, card.id, |winners|);
    }
    assert cards[..n] == cards;
    total := SumAll(counts);
    CascadeSum(cards, Repeat(1, n));
    SumOnes(n);
  }

  /** One more card: the cascade over the longer prefix is the shorter one's followed by that card's copies. */
  lemma CascadeSnoc(cards: seq<Card>, c: nat, counts: seq<nat>)
    requires c < |cards| && AllFit(cards, |counts|)
    ensures AllFit(cards[..c], |counts|) && AllFit(cards[..c + 1], |counts|)
    ensures Fits(cards[c].id, Matches(cards[c]), |counts|)
    ensures Cascade(cards[..c + 1], counts) == Won(Cascade(cards[..c], counts), cards[c].id, Matches(cards[c]))
  {
    var pre := cards[..c + 1];
    AllFitPrefix(cards, c, |counts|);
    AllFitPrefix(cards, c + 1, |counts|);
    assert pre[..c] == cards[..c] && pre[c] == cards[c];
  }

  lemma AllFitPrefix(cards: seq<Card>, m: nat, n: nat)
    requires m <= |cards| && AllFit(cards, n)
    ensures AllFit(cards[..m], n)
  {
    forall j | 0 <= j < m ensures Fits(cards[..m][j].id, Matches(cards[..m][j]), n) {
      assert cards[..m][j] == cards[j];
    }
  }

  /** `card_counts.iter().sum()`. */
  method SumAll(counts: array<nat>) returns (total: nat)
    ensures total == Sum(counts[..])
  {
    total := 0;
    for j := 0 to counts.Length
      invariant total == Sum(counts[..j])
    {
      assert counts[..j + 1][..j] == counts[..j];
      total := total + counts[j];
    }
    assert counts[..counts.Length] == counts[..];
  }

  method Solution2(text: string) returns (total: nat)
    requires forall k :: 0 <= k < |Lines(text)| ==> WellFormed(Lines(text)[k])
    requires AllFit(Cards(Lines(text)), |Lines(text)|)
    ensures total == Sum(Cascade(Cards(Lines(text)), Repeat(1, |Lines(text)|)))
    ensures total >= |Lines(text)|
  {
    total := TotalCards(Cards(Lines(text)));
  }
}
