/**
 * Camel Cards with jokers (src/bin/d7_part_2.rs): 'J' is now the weakest
 * card, and before a hand is classified its jokers are counted as copies
 * of its most frequent other card.  Ordering, sorting and winnings are
 * those of the first rules.
 */
module D7Part2 {
  import opened Text
  import opened D7Part1

  /** The card letters from weakest to strongest, the joker first. */
  const Order2: string := "J23456789TQKA"

  /** The `CardType` a letter maps to: its place in `Order2`, the joker being 0. */
  function Rank2(c: char): (r: nat)
    requires IsCard(c)
    ensures r < |Order2| && Order2[r] == c
  {
    match c
    case 'J' => 0
    case '2' => 1
    case '3' => 2
    case '4' => 3
    case '5' => 4
    case '6' => 5
    case '7' => 6
    case '8' => 7
    case '9' => 8
    case 'T' => 9
    case 'Q' => 10
    case 'K' => 11
    case _ => 12
  }

  const Joker: nat := 0

  /** The joker ranks below every other card. */
  lemma JokerWeakest(c: char)
    requires IsCard(c) && c != 'J'
    ensures Rank2('J') == Joker < Rank2(c)
  {
  }

  // ---------------------------------------------------------------------
  // The joker merge
  // ---------------------------------------------------------------------

  /** k is a non-joker card with the largest count among the non-joker cards. */
  predicate IsTop(m: map<nat, nat>, k: nat) {
    k in m && k != Joker && forall j :: j in m && j != Joker ==> m[j] <= m[k]
  }

  /** The jokers' count added to card k, and the joker entry removed. */
  function Merge(m: map<nat, nat>, k: nat): (r: map<nat, nat>)
    requires k in m && Joker in m
    ensures r.Keys == m.Keys - {Joker}
  {
    m[k := m[k] + m[Joker]] - {Joker}
  }

  lemma {:induction false} TopExists(m: map<nat, nat>, ks: set<nat>)
    requires ks <= m.Keys && ks != {}
    ensures exists k :: k in ks && forall j :: j in ks ==> m[j] <= m[k]
    decreases ks
  {
    var k :| k in ks;
    if ks != {k} {
      TopExists(m, ks - {k});
      var t :| t in ks - {k} && forall j :: j in ks - {k} ==> m[j] <= m[t];
      if m[k] > m[t] {
        assert forall j :: j in ks ==> m[j] <= m[k];
      } else {
        assert forall j :: j in ks ==> m[j] <= m[t];
      }
    }
  }

  /** Whether `get_hand_type` merges: there are jokers and some other card. */
  predicate Merges(m: map<nat, nat>) {
    Joker in m && m.Keys - {Joker} != {}
  }

  lemma TopOf(m: map<nat, nat>)
    requires Merges(m)
    ensures exists k :: IsTop(m, k)
  {
    TopExists(m, m.Keys - {Joker});
    var t :| t in m.Keys - {Joker} && forall j :: j in m.Keys - {Joker} ==> m[j] <= m[t];
    assert IsTop(m, t);
  }

  /** The count map after the merge, for some top card (the source's choice depends on the map's order). */
  ghost function Merged(m: map<nat, nat>): map<nat, nat> {
    if Merges(m) then
      TopOf(m);
      var k :| IsTop(m, k);
      Merge(m, k)
    else m
  }

  /** The type of a hand under the joker rule. */
  ghost function TypeOf2(cards: seq<nat>): HandType {
    Kind(Values(Merged(Tally(cards))))
  }

  /**
   * The merged counts: the non-joker counts with the top one raised by the
   * joker count, so they depend on the top card's count only.
   */
  lemma MergeValues(m: map<nat, nat>, k: nat)
    requires IsTop(m, k) && Joker in m
    ensures Values(Merge(m, k)) + multiset{m[k]} == ValuesOn(m, m.Keys - {Joker}) + multiset{m[k] + m[Joker]}
    ensures Total(Merge(m, k)) == Total(m)
  {
    var r := Merge(m, k);
    var rest := m.Keys - {Joker} - {k};
    ValuesAny(r, r.Keys, k);
    TotalAny(r, r.Keys, k);
    assert r.Keys - {k} == rest;
    AgreeOn(r, m, rest);
    ValuesAny(m, m.Keys - {Joker}, k);
    TotalAny(m, m.Keys - {Joker}, k);
    TotalAny(m, m.Keys, Joker);
  }

  /** Which top card receives the jokers does not change the type. */
  lemma MergeChoiceFree(m: map<nat, nat>, k1: nat, k2: nat)
    requires IsTop(m, k1) && IsTop(m, k2) && Joker in m
    ensures Values(Merge(m, k1)) == Values(Merge(m, k2))
  {
    MergeValues(m, k1);
    MergeValues(m, k2);
    assert m[k1] == m[k2];
    Cancel(Values(Merge(m, k1)), Values(Merge(m, k2)), m[k1]);
  }

  lemma Cancel(a: multiset<nat>, b: multiset<nat>, v: nat)
    requires a + multiset{v} == b + multiset{v}
    ensures a == b
  {
    assert a == (a + multiset{v}) - multiset{v};
    assert b == (b + multiset{v}) - multiset{v};
  }

  /** An all-joker hand keeps its five jokers and is five of a kind. */
  lemma AllJokers()
    ensures TypeOf2([Joker, Joker, Joker, Joker, Joker]) == FiveOfAKind
  {
    var cards := [Joker, Joker, Joker, Joker, Joker];
    var m := Tally(cards);
    assert m.Keys == {Joker} && m[Joker] == 5;
    assert !Merges(m);
    ValuesAny(m, m.Keys, Joker);
    assert m.Keys - {Joker} == {};
  }

  /** A hand without jokers is classified as under the first rules. */
  lemma NoJokers(cards: seq<nat>)
    requires Joker !in cards
    ensures TypeOf2(cards) == TypeOf(cards)
  {
    assert Joker !in Tally(cards);
  }

  /** The search of `sort_by_key(..).last()`: a top card; among equal counts the one met last wins. */
  method LastTop(m: map<nat, nat>) returns (top: nat)
    requires Merges(m)
    ensures IsTop(m, top)
  {
    var keys := m.Keys - {Joker};
    top :| top in keys;
    keys := keys - {top};
    while keys != {}
      invariant keys <= m.Keys - {Joker} && top in m && top != Joker
      invariant forall j :: j in m && j != Joker && j !in keys ==> m[j] <= m[top]
      decreases keys
    {
      var k :| k in keys;
      if m[k] >= m[top] {
        top := k;
      }
      keys := keys - {k};
    }
  }

  /** The joker branch of `get_hand_type`: add the jokers to a top card and drop the joker entry. */
  method MergeJokers(counts: map<nat, nat>) returns (merged: map<nat, nat>)
    requires forall c :: c in counts ==> counts[c] >= 1
    ensures Values(merged) == Values(Merged(counts)) && Total(merged) == Total(counts)
    ensures forall c :: c in merged ==> merged[c] >= 1
  {
    merged := counts;
    if Joker in counts {
      if counts.Keys - {Joker} != {} {
        var maxCount := LastTop(counts);
        var jokers := counts[Joker];
        merged := merged[maxCount := merged[maxCount] + jokers];
        merged := merged - {Joker};
        assert merged == Merge(counts, maxCount);
        MergeAnyTop(counts, maxCount);
      }
    }
  }

  /** Merging into any top card gives the counts of `Merged`, keeps the total and leaves no zero count. */
  lemma MergeAnyTop(counts: map<nat, nat>, top: nat)
    requires forall c :: c in counts ==> counts[c] >= 1
    requires Merges(counts) && IsTop(counts, top)
    ensures Values(Merge(counts, top)) == Values(Merged(counts)) && Total(Merge(counts, top)) == Total(counts)
    ensures forall c :: c in Merge(counts, top) ==> Merge(counts, top)[c] >= 1
  {
    MergeValues(counts, top);
    TopOf(counts);
    var k :| IsTop(counts, k) && Merged(counts) == Merge(counts, k);
    MergeChoiceFree(counts, k, top);
  }

  /** `get_hand_type` of the second rules: merge the jokers into a top card, then classify. */
  method GetHandType2(cards: seq<nat>) returns (t: HandType)
    requires |cards| == 5
    ensures t == TypeOf2(cards)
  {
    var counts := CountCards(cards);
    counts := MergeJokers(counts);
    t := ClassifyCounts(counts);
  }

  // ---------------------------------------------------------------------
  // Parsing and the solution
  // ---------------------------------------------------------------------

  /** The card mapping of `Hand::from` with jokers. */
  function Cards2(w: string): (cards: seq<nat>)
    requires forall c :: c in w ==> IsCard(c)
    ensures |cards| == |w| && forall i :: 0 <= i < |w| ==> cards[i] < |Order2| && Order2[cards[i]] == w[i]
  {
    seq(|w|, i requires 0 <= i < |w| => Rank2(w[i]))
  }

  method ParseHand2(line: string) returns (h: Hand)
    requires WellFormed(line)
    ensures h == Hand(Cards2(Words(line)[0]), NatValue(Words(line)[1]), TypeOf2(Cards2(Words(line)[0])))
  {
    var split := Words(line);
    var cards := Cards2(split[0]);
    var handType := GetHandType2(cards);
    h := Hand(cards, NatValue(split[1]), handType);
  }

  ghost function Hands2(ls: seq<string>): (hs: seq<Hand>)
    requires forall k :: 0 <= k < |ls| ==> WellFormed(ls[k])
    ensures |hs| == |ls|
  {
    if ls == [] then []
    else
      assert WellFormed(ls[|ls| - 1]);
      var w := Words(ls[|ls| - 1]);
      Hands2(ls[..|ls| - 1]) + [Hand(Cards2(w[0]), NatValue(w[1]), TypeOf2(Cards2(w[0])))]
  }

  method ParseHands2(ls: seq<string>) returns (hs: seq<Hand>)
    requires forall k :: 0 <= k < |ls| ==> WellFormed(ls[k])
    ensures hs == Hands2(ls)
    ensures forall k :: 0 <= k < |hs| ==> |hs[k].cards| == 5
  {
    hs := [];
    for i := 0 to |ls|
      invariant hs == Hands2(ls[..i]) && forall k :: 0 <= k < |hs| ==> |hs[k].cards| == 5
    {
      var h := ParseHand2(ls[i]);
      assert ls[..i + 1][..i] == ls[..i];
      hs := hs + [h];
    }
    assert ls[..|ls|] == ls;
  }

  /** `solution_2`: the joker hands sorted weakest first, each bid times its rank. */
  method Solution2(text: string) returns (total: nat)
    requires forall k :: 0 <= k < |Lines(text)| ==> WellFormed(Lines(text)[k])
    ensures total == Winnings(Sort(Hands2(Lines(text))))
    ensures forall i, j :: 0 <= i < j < |Lines(text)| ==>
      Compare(Sort(Hands2(Lines(text)))[i], Sort(Hands2(Lines(text)))[j]) != Greater
  {
    var hands := ParseHands2(Lines(text));
    var sorted := Sort(hands);
    forall k | 0 <= k < |sorted| ensures |sorted[k].cards| == 5 {
      assert sorted[k] in multiset(hands);
    }
    SortedPairs(sorted, 5);
    total := TotalWinnings(sorted);
  }
}
