/**
 * Camel Cards, first rules (src/bin/d7_part_1.rs): each hand of five cards
 * is classified from how often its cards repeat, hands are ordered by type
 * and then card by card, and each bid is multiplied by its hand's rank in
 * that order.
 */
module D7Part1 {
  import opened Text

  // ---------------------------------------------------------------------
  // Cards and hand types
  // ---------------------------------------------------------------------

  datatype HandType = HighCard | OnePair | TwoPair | ThreeOfAKind | FullHouse | FourOfAKind | FiveOfAKind

  /** The discriminant that the derived `Ord` of `HandType` compares. */
  function TypeRank(t: HandType): nat {
    match t
    case HighCard => 1
    case OnePair => 2
    case TwoPair => 3
    case ThreeOfAKind => 4
    case FullHouse => 5
    case FourOfAKind => 6
    case FiveOfAKind => 7
  }

  /** The card letters from weakest to strongest. */
  const Order: string := "23456789TJQKA"

  predicate IsCard(c: char) {
    c in Order
  }

  /** The `CardType` a letter maps to: its place in `Order`, counting from one. */
  function Rank(c: char): (r: nat)
    requires IsCard(c)
    ensures 1 <= r <= |Order| && Order[r - 1] == c
  {
    match c
    case '2' => 1
    case '3' => 2
    case '4' => 3
    case '5' => 4
    case '6' => 5
    case '7' => 6
    case '8' => 7
    case '9' => 8
    case 'T' => 9
    case 'J' => 10
    case 'Q' => 11
    case 'K' => 12
    case _ => 13
  }

  /** Stronger letters get larger ranks. */
  lemma RankOrder(i: nat, j: nat)
    requires i < j < |Order|
    ensures Rank(Order[i]) < Rank(Order[j])
  {
    RankOfOrder(i);
    RankOfOrder(j);
  }

  /** Each letter's rank is its place in `Order`, counting from one. */
  lemma RankOfOrder(i: nat)
    requires i < |Order|
    ensures Rank(Order[i]) == i + 1
  {
    assert Order == ['2', '3', '4', '5', '6', '7', '8', '9', 'T', 'J', 'Q', 'K', 'A'];
  }

  // ---------------------------------------------------------------------
  // Count maps
  // ---------------------------------------------------------------------

  /** `char_counts`: every card of the hand mapped to the number of its copies. */
  function Tally(cards: seq<nat>): (m: map<nat, nat>)
    ensures forall c :: c in m <==> c in cards
    ensures forall c :: c in m ==> m[c] >= 1
  {
    map c | c in cards :: multiset(cards)[c]
  }

  /** The values of a count map at the keys ks, as a multiset: what `values()` yields, in whatever order. */
  ghost function ValuesOn(m: map<nat, nat>, ks: set<nat>): multiset<nat>
    requires ks <= m.Keys
  {
    if ks == {} then multiset{}
    else
      var k :| k in ks;
      multiset{m[k]} + ValuesOn(m, ks - {k})
  }

  ghost function Values(m: map<nat, nat>): multiset<nat> {
    ValuesOn(m, m.Keys)
  }

  /** The sum of the values of a count map at the keys ks. */
  ghost function TotalOn(m: map<nat, nat>, ks: set<nat>): nat
    requires ks <= m.Keys
  {
    if ks == {} then 0
    else
      var k :| k in ks;
      m[k] + TotalOn(m, ks - {k})
  }

  ghost function Total(m: map<nat, nat>): nat {
    TotalOn(m, m.Keys)
  }

  /** `ValuesOn` may take the keys in any order. */
  lemma {:induction false} ValuesAny(m: map<nat, nat>, ks: set<nat>, k: nat)
    requires ks <= m.Keys && k in ks
    ensures ValuesOn(m, ks) == multiset{m[k]} + ValuesOn(m, ks - {k})
    decreases ks
  {
    var j :| j in ks && ValuesOn(m, ks) == multiset{m[j]} + ValuesOn(m, ks - {j});
    if j != k {
      ValuesAny(m, ks - {j}, k);
      ValuesAny(m, ks - {k}, j);
      assert ks - {j} - {k} == ks - {k} - {j};
    }
  }

  lemma {:induction false} TotalAny(m: map<nat, nat>, ks: set<nat>, k: nat)
    requires ks <= m.Keys && k in ks
    ensures TotalOn(m, ks) == m[k] + TotalOn(m, ks - {k})
    decreases ks
  {
    var j :| j in ks && TotalOn(m, ks) == m[j] + TotalOn(m, ks - {j});
    if j != k {
      TotalAny(m, ks - {j}, k);
      TotalAny(m, ks - {k}, j);
      assert ks - {j} - {k} == ks - {k} - {j};
    }
  }

  /** Maps that agree on the keys ks have the same values and total there. */
  lemma {:induction false} AgreeOn(m1: map<nat, nat>, m2: map<nat, nat>, ks: set<nat>)
    requires ks <= m1.Keys && ks <= m2.Keys && forall k :: k in ks ==> m1[k] == m2[k]
    ensures ValuesOn(m1, ks) == ValuesOn(m2, ks) && TotalOn(m1, ks) == TotalOn(m2, ks)
    decreases ks
  {
    if ks != {} {
      var k :| k in ks;
      ValuesAny(m1, ks, k);
      ValuesAny(m2, ks, k);
      TotalAny(m1, ks, k);
      TotalAny(m2, ks, k);
      AgreeOn(m1, m2, ks - {k});
    }
  }

  /** The multiset of values holds exactly the values of the map. */
  lemma {:induction false} ValuesMeaning(m: map<nat, nat>, ks: set<nat>)
    requires ks <= m.Keys
    ensures forall v :: v in ValuesOn(m, ks) <==> exists k :: k in ks && m[k] == v
    decreases ks
  {
    if ks != {} {
      var k :| k in ks;
      ValuesAny(m, ks, k);
      ValuesMeaning(m, ks - {k});
      forall v | v in ValuesOn(m, ks) ensures exists j :: j in ks && m[j] == v {
        if v != m[k] {
          var j :| j in ks - {k} && m[j] == v;
        }
      }
      forall v | exists j :: j in ks && m[j] == v ensures v in ValuesOn(m, ks) {
        var j :| j in ks && m[j] == v;
        if j != k {
          assert j in ks - {k};
        }
      }
    }
  }

  /** One more copy of c adds one to the total. */
  lemma CountStep(counts: map<nat, nat>, c: nat)
    ensures Total(counts[c := (if c in counts then counts[c] else 0) + 1]) == Total(counts) + 1
  {
    var next := counts[c := (if c in counts then counts[c] else 0) + 1];
    TotalAny(next, next.Keys, c);
    assert next.Keys - {c} == counts.Keys - {c};
    AgreeOn(next, counts, next.Keys - {c});
    if c in counts {
      TotalAny(counts, counts.Keys, c);
    } else {
      assert counts.Keys - {c} == counts.Keys;
    }
  }

  lemma TallyStep(cards: seq<nat>, i: nat)
    requires i < |cards|
    ensures var c := cards[i]; var t := Tally(cards[..i]);
      Tally(cards[..i + 1]) == t[c := (if c in t then t[c] else 0) + 1]
  {
    assert cards[..i + 1] == cards[..i] + [cards[i]];
  }

  /** `*char_counts.entry(c).or_insert(0) += 1` for each card. */
  method CountCards(cards: seq<nat>) returns (counts: map<nat, nat>)
    ensures counts == Tally(cards)
    ensures Total(counts) == |cards|
  {
    counts := map[];
    for i := 0 to |cards|
      invariant counts == Tally(cards[..i]) && Total(counts) == i
    {
      var c := cards[i];
      CountStep(counts, c);
      TallyStep(cards, i);
      counts := counts[c := (if c in counts then counts[c] else 0) + 1];
    }
    assert cards[..|cards|] == cards;
  }

  // ---------------------------------------------------------------------
  // Classification
  // ---------------------------------------------------------------------

  function Sum(s: seq<nat>): nat {
    if s == [] then 0 else s[0] + Sum(s[1..])
  }

  lemma {:induction false} SumAppend(a: seq<nat>, b: seq<nat>)
    ensures Sum(a + b) == Sum(a) + Sum(b)
    decreases |a|
  {
    if a == [] {
      assert a + b == b;
    } else {
      SumAppend(a[1..], b);
      assert (a + b)[0] == a[0] && (a + b)[1..] == a[1..] + b;
    }
  }

  /** Moving key c's count from the unvisited keys to the collected list changes neither the values nor their sum. */
  lemma CollectStep(counts: map<nat, nat>, rest: set<nat>, vals: seq<nat>, c: nat)
    requires rest <= counts.Keys && c in rest
    ensures multiset(vals + [counts[c]]) + ValuesOn(counts, rest - {c}) == multiset(vals) + ValuesOn(counts, rest)
    ensures Sum(vals + [counts[c]]) + TotalOn(counts, rest - {c}) == Sum(vals) + TotalOn(counts, rest)
  {
    ValuesAny(counts, rest, c);
    TotalAny(counts, rest, c);
    SumAppend(vals, [counts[c]]);
    assert Sum([counts[c]]) == counts[c];
  }

  /** `values().collect()`: the counts in the order the map happens to yield them. */
  method CollectValues(counts: map<nat, nat>) returns (vals: seq<nat>)
    ensures multiset(vals) == Values(counts)
    ensures Sum(vals) == Total(counts)
  {
    vals := [];
    var rest := counts.Keys;
    while rest != {}
      invariant rest <= counts.Keys
      invariant multiset(vals) + ValuesOn(counts, rest) == Values(counts)
      invariant Sum(vals) + TotalOn(counts, rest) == Total(counts)
      decreases rest
    {
      var c :| c in rest;
      CollectStep(counts, rest, vals, c);
      vals := vals + [counts[c]];
      rest := rest - {c};
    }
  }

  predicate Ascending(s: seq<nat>) {
    forall i, j :: 0 <= i < j < |s| ==> s[i] <= s[j]
  }

  predicate Descending(s: seq<nat>) {
    forall i, j :: 0 <= i < j < |s| ==> s[i] >= s[j]
  }

  /** Ascending insertion, the step of `sort()` on the counts. */
  function InsertAsc(s: seq<nat>, x: nat): (r: seq<nat>)
    ensures |r| == |s| + 1 && multiset(r) == multiset(s) + multiset{x}
    ensures r[0] == x || (s != [] && r[0] == s[0])
  {
    if s == [] then [x]
    else if x <= s[0] then [x] + s
    else
      assert s == [s[0]] + s[1..];
      [s[0]] + InsertAsc(s[1..], x)
  }

  lemma {:induction false} InsertAscSorted(s: seq<nat>, x: nat)
    requires Ascending(s)
    ensures Ascending(InsertAsc(s, x))
    decreases |s|
  {
    if s != [] && x > s[0] {
      var r := InsertAsc(s[1..], x);
      InsertAscSorted(s[1..], x);
      assert s[0] <= r[0];
      assert InsertAsc(s, x) == [s[0]] + r;
    }
  }

  lemma {:induction false} InsertAscSum(s: seq<nat>, x: nat)
    ensures Sum(InsertAsc(s, x)) == Sum(s) + x
    decreases |s|
  {
    if s != [] && x > s[0] {
      InsertAscSum(s[1..], x);
      assert ([s[0]] + InsertAsc(s[1..], x))[1..] == InsertAsc(s[1..], x);
    } else if s != [] {
      assert ([x] + s)[1..] == s;
    }
  }

  /** `sort()`: an ascending permutation, so with the same sum. */
  function SortAsc(s: seq<nat>): (r: seq<nat>)
    ensures |r| == |s| && multiset(r) == multiset(s)
  {
    if s == [] then []
    else
      assert s == [s[0]] + s[1..];
      InsertAsc(SortAsc(s[1..]), s[0])
  }

  lemma {:induction false} SortAscSorted(s: seq<nat>)
    ensures Ascending(SortAsc(s)) && Sum(SortAsc(s)) == Sum(s)
    decreases |s|
  {
    if s != [] {
      SortAscSorted(s[1..]);
      InsertAscSorted(SortAsc(s[1..]), s[0]);
      InsertAscSum(SortAsc(s[1..]), s[0]);
    }
  }

  lemma {:induction false} ReverseKeeps(s: seq<nat>)
    ensures multiset(Reverse(s)) == multiset(s) && Sum(Reverse(s)) == Sum(s)
    decreases |s|
  {
    if s != [] {
      ReverseKeeps(s[1..]);
      assert Reverse(s) == Reverse(s[1..]) + [s[0]];
      assert s == [s[0]] + s[1..];
      SumAppend(Reverse(s[1..]), [s[0]]);
      assert Sum([s[0]]) == s[0];
    }
  }

  lemma ReverseDescending(s: seq<nat>)
    requires Ascending(s)
    ensures Descending(Reverse(s))
  {
  }

  /** The `match` on the largest count and, for three or two, the next largest. */
  function Classify(desc: seq<nat>): HandType
    requires |desc| >= 1 && 1 <= desc[0] <= 5 && (desc[0] == 2 || desc[0] == 3 ==> |desc| >= 2)
  {
    if desc[0] == 5 then FiveOfAKind
    else if desc[0] == 4 then FourOfAKind
    else if desc[0] == 3 then (if desc[1] == 2 then FullHouse else ThreeOfAKind)
    else if desc[0] == 2 then (if desc[1] == 2 then TwoPair else OnePair)
    else HighCard
  }

  /**
   * The hand types as the rules name them, from the multiset of card
   * multiplicities: five alike, four alike, three and two, three, two
   * pairs, one pair, all different.
   */
  function Kind(p: multiset<nat>): HandType {
    if 5 in p then FiveOfAKind
    else if 4 in p then FourOfAKind
    else if 3 in p && 2 in p then FullHouse
    else if 3 in p then ThreeOfAKind
    else if p[2] >= 2 then TwoPair
    else if 2 in p then OnePair
    else HighCard
  }

  /** The type of a hand: the kind of its card multiplicities, whatever the order of its cards. */
  ghost function TypeOf(cards: seq<nat>): HandType {
    Kind(Values(Tally(cards)))
  }

  /** The multiplicities `Kind` looks at are exactly how often each card of the hand occurs. */
  lemma Multiplicities(cards: seq<nat>)
    ensures forall v :: v in Values(Tally(cards)) <==> exists c :: c in cards && multiset(cards)[c] == v
  {
    var m := Tally(cards);
    ValuesMeaning(m, m.Keys);
    forall v ensures v in Values(m) <==> exists c :: c in cards && multiset(cards)[c] == v {
      if exists c :: c in cards && multiset(cards)[c] == v {
        var c :| c in cards && multiset(cards)[c] == v;
        assert c in m.Keys && m[c] == v;
      }
    }
  }

  lemma {:induction false} SumAtLeast(d: seq<nat>)
    requires forall i :: 0 <= i < |d| ==> d[i] >= 1
    ensures Sum(d) >= |d| && (|d| > 0 ==> Sum(d) >= d[0] + |d| - 1)
    decreases |d|
  {
    if d != [] {
      SumAtLeast(d[1..]);
    }
  }

  /** Positive counts summing to five, largest first: the largest is at most five and bounds the others. */
  lemma ShapeFacts(d: seq<nat>)
    requires Descending(d) && Sum(d) == 5 && forall i :: 0 <= i < |d| ==> d[i] >= 1
    ensures |d| >= 1 && 1 <= d[0] <= 5 && (d[0] == 2 || d[0] == 3 ==> |d| >= 2)
    ensures forall i :: 1 <= i < |d| ==> d[i] <= 5 - d[0] && d[i] <= d[0] && d[i] <= d[1]
  {
    SumAtLeast(d);
    SumAtLeast(d[1..]);
    assert forall i :: 1 <= i < |d| ==> d[1..][i - 1] == d[i];
  }

  /** The source's match on the two largest counts names the rules' type. */
  lemma KindOfShape(d: seq<nat>)
    requires |d| >= 1 && 1 <= d[0] <= 5 && (d[0] == 2 || d[0] == 3 ==> |d| >= 2)
    requires forall i :: 1 <= i < |d| ==> d[i] <= 5 - d[0] && d[i] <= d[0] && d[i] <= d[1]
    ensures Classify(d) == Kind(multiset(d))
  {
    var a := d[0];
    var p := multiset(d);
    assert a in p;
    if a <= 4 {
      assert 5 !in p by { assert forall i :: 0 <= i < |d| ==> d[i] != 5; }
    }
    if a <= 3 {
      assert 4 !in p by { assert forall i :: 0 <= i < |d| ==> d[i] != 4; }
    }
    if a <= 2 {
      assert 3 !in p by { assert forall i :: 0 <= i < |d| ==> d[i] != 3; }
    }
    if a == 1 {
      assert 2 !in p by { assert forall i :: 0 <= i < |d| ==> d[i] != 2; }
    }
    if (a == 2 || a == 3) && d[1] != 2 {
      assert forall i :: 1 <= i < |d| ==> d[i] <= 1;
      var rest := d[1..];
      assert d == [a] + rest && p == multiset{a} + multiset(rest);
      assert 2 !in multiset(rest) by { assert forall i :: 0 <= i < |rest| ==> rest[i] != 2; }
    }
    if a == 3 && d[1] == 2 {
      assert 2 in p;
    }
    if a == 2 && d[1] == 2 {
      assert d == [d[0], d[1]] + d[2..];
      assert p == multiset{2, 2} + multiset(d[2..]);
    }
  }

  /** The shared tail of `get_hand_type`: collect the counts, sort them largest first, match. */
  method ClassifyCounts(counts: map<nat, nat>) returns (t: HandType)
    requires Total(counts) == 5 && forall c :: c in counts ==> counts[c] >= 1
    ensures t == Kind(Values(counts))
  {
    var vals := CollectValues(counts);
    var sorted := SortAsc(vals);
    SortAscSorted(vals);
    ReverseKeeps(sorted);
    ReverseDescending(sorted);
    var desc := Reverse(sorted);
    ValuesMeaning(counts, counts.Keys);
    forall i | 0 <= i < |desc| ensures desc[i] >= 1 {
      assert desc[i] in multiset(desc);
    }
    ShapeFacts(desc);
    KindOfShape(desc);
    t := Classify(desc);
  }

  /** `get_hand_type`: the rules' type of the hand. */
  method GetHandType(cards: seq<nat>) returns (t: HandType)
    requires |cards| == 5
    ensures t == TypeOf(cards)
  {
    var counts := CountCards(cards);
    t := ClassifyCounts(counts);
  }

  // ---------------------------------------------------------------------
  // Hands and their order
  // ---------------------------------------------------------------------

  datatype Hand = Hand(cards: seq<nat>, bid: nat, handType: HandType)

  /** `c.cmp(o)` on ranks. */
  function CompareNat(a: nat, b: nat): (o: Ordering)
    ensures (o == Less <==> a < b) && (o == Equal <==> a == b) && (o == Greater <==> a > b)
  {
    if a < b then Less else if a == b then Equal else Greater
  }

  /** The first differing card of the zipped hands decides; Equal when the shorter one runs out. */
  function CompareCards(cs: seq<nat>, os: seq<nat>): Ordering {
    if cs == [] || os == [] then Equal
    else if cs[0] != os[0] then CompareNat(cs[0], os[0])
    else CompareCards(cs[1..], os[1..])
  }

  /** `Ord for Hand`: hand type first, then the cards in order. */
  function Compare(a: Hand, b: Hand): Ordering {
    if TypeRank(a.handType) != TypeRank(b.handType) then CompareNat(TypeRank(a.handType), TypeRank(b.handType))
    else CompareCards(a.cards, b.cards)
  }

  /** `PartialEq for Hand`: the zipped cards agree; bid and type are not compared. */
  predicate Eq(a: Hand, b: Hand) {
    forall i :: 0 <= i < |a.cards| && i < |b.cards| ==> a.cards[i] == b.cards[i]
  }

  function Flip(o: Ordering): Ordering {
    match o
    case Less => Greater
    case Equal => Equal
    case Greater => Less
  }

  /** The card comparison reports Equal exactly when the zipped cards agree. */
  lemma {:induction false} CompareCardsEqual(cs: seq<nat>, os: seq<nat>)
    ensures CompareCards(cs, os) == Equal <==> forall i :: 0 <= i < |cs| && i < |os| ==> cs[i] == os[i]
    decreases |cs|
  {
    if cs != [] && os != [] && cs[0] == os[0] {
      CompareCardsEqual(cs[1..], os[1..]);
      forall i | 0 <= i < |cs| && i < |os| && forall j :: 0 <= j < |cs[1..]| && j < |os[1..]| ==> cs[1..][j] == os[1..][j]
        ensures cs[i] == os[i]
      {
        if i > 0 {
          assert cs[1..][i - 1] == cs[i];
        }
      }
    }
  }

  /** A non-Equal card comparison is decided by the first position where the hands differ. */
  lemma {:induction false} CompareCardsFirstDiff(cs: seq<nat>, os: seq<nat>)
    ensures CompareCards(cs, os) != Equal ==>
      exists k :: 0 <= k < |cs| && k < |os| && cs[..k] == os[..k] && CompareCards(cs, os) == CompareNat(cs[k], os[k])
    decreases |cs|
  {
    if cs != [] && os != [] && cs[0] == os[0] {
      CompareCardsFirstDiff(cs[1..], os[1..]);
      if CompareCards(cs, os) != Equal {
        var k :| 0 <= k < |cs[1..]| && k < |os[1..]| && cs[1..][..k] == os[1..][..k]
          && CompareCards(cs[1..], os[1..]) == CompareNat(cs[1..][k], os[1..][k]);
        assert cs[..k + 1] == [cs[0]] + cs[1..][..k];
        assert os[..k + 1] == [os[0]] + os[1..][..k];
      }
    } else if cs != [] && os != [] {
      assert cs[..0] == os[..0];
    }
  }

  /** Swapping the hands flips the card comparison. */
  lemma {:induction false} CompareCardsFlip(cs: seq<nat>, os: seq<nat>)
    ensures CompareCards(os, cs) == Flip(CompareCards(cs, os))
    decreases |cs|
  {
    if cs != [] && os != [] && cs[0] == os[0] {
      CompareCardsFlip(cs[1..], os[1..]);
    }
  }

  /** The card comparison reports the first position where the hands differ. */
  lemma CompareCardsMeaning(cs: seq<nat>, os: seq<nat>)
    ensures CompareCards(cs, os) == Equal <==> forall i :: 0 <= i < |cs| && i < |os| ==> cs[i] == os[i]
    ensures CompareCards(cs, os) != Equal ==>
      exists k :: 0 <= k < |cs| && k < |os| && cs[..k] == os[..k] && CompareCards(cs, os) == CompareNat(cs[k], os[k])
    ensures CompareCards(os, cs) == Flip(CompareCards(cs, os))
  {
    CompareCardsEqual(cs, os);
    CompareCardsFirstDiff(cs, os);
    CompareCardsFlip(cs, os);
  }

  /** `cmp` is antisymmetric, and reports Equal exactly when the types match and `eq` holds. */
  lemma CompareFlip(a: Hand, b: Hand)
    ensures Compare(b, a) == Flip(Compare(a, b))
    ensures Compare(a, b) == Equal <==> a.handType == b.handType && Eq(a, b)
  {
    CompareCardsMeaning(a.cards, b.cards);
    assert TypeRank(a.handType) == TypeRank(b.handType) <==> a.handType == b.handType;
  }

  /** For hands of one length, `cmp` is transitive. */
  lemma {:induction false} CompareCardsTrans(a: seq<nat>, b: seq<nat>, c: seq<nat>)
    requires |a| == |b| == |c|
    requires CompareCards(a, b) != Greater && CompareCards(b, c) != Greater
    ensures CompareCards(a, c) != Greater
    ensures CompareCards(a, b) == Less || CompareCards(b, c) == Less ==> CompareCards(a, c) == Less
    decreases |a|
  {
    if a != [] && a[0] == b[0] && b[0] == c[0] {
      CompareCardsTrans(a[1..], b[1..], c[1..]);
    }
  }

  lemma CompareTrans(a: Hand, b: Hand, c: Hand)
    requires |a.cards| == |b.cards| == |c.cards|
    requires Compare(a, b) != Greater && Compare(b, c) != Greater
    ensures Compare(a, c) != Greater
  {
    if TypeRank(a.handType) == TypeRank(b.handType) == TypeRank(c.handType) {
      CompareCardsTrans(a.cards, b.cards, c.cards);
    }
  }

  /** Hands whose type is the type of their cards and that have equally many cards: `cmp` is Equal iff `eq` iff the cards agree. */
  lemma EqIsSameCards(a: Hand, b: Hand)
    requires |a.cards| == |b.cards| && a.handType == TypeOf(a.cards) && b.handType == TypeOf(b.cards)
    ensures Eq(a, b) <==> a.cards == b.cards
    ensures Compare(a, b) == Equal <==> a.cards == b.cards
  {
    CompareFlip(a, b);
    if Eq(a, b) {
      assert a.cards == b.cards;
    }
  }

  /** The loop of `cmp`: ties on the type go to the first pair of zipped cards that differ. */
  method Cmp(a: Hand, b: Hand) returns (ordering: Ordering)
    ensures ordering == Compare(a, b)
  {
    ordering := CompareNat(TypeRank(a.handType), TypeRank(b.handType));
    if ordering == Equal {
      var ord := Equal;
      var n := if |a.cards| <= |b.cards| then |a.cards| else |b.cards|;
      var i := 0;
      while i < n
        invariant i <= n && a.cards[..i] == b.cards[..i] && ord == Equal
        invariant CompareCards(a.cards, b.cards) == CompareCards(a.cards[i..], b.cards[i..])
      {
        ord := CompareNat(a.cards[i], b.cards[i]);
        if ord == Equal {
          assert a.cards[i..][1..] == a.cards[i + 1..] && b.cards[i..][1..] == b.cards[i + 1..];
          assert a.cards[..i + 1] == a.cards[..i] + [a.cards[i]] && b.cards[..i + 1] == b.cards[..i] + [b.cards[i]];
          i := i + 1;
          continue;
        } else {
          break;
        }
      }
      ordering := ord;
    }
  }

  // ---------------------------------------------------------------------
  // Sorting and winnings
  // ---------------------------------------------------------------------

  /** Each hand is no greater than the next. */
  predicate Sorted(hs: seq<Hand>) {
    forall i :: 0 < i < |hs| ==> Compare(hs[i - 1], hs[i]) != Greater
  }

  /** Insertion: the new hand goes after every leading hand it does not beat... */
  function Insert(hs: seq<Hand>, h: Hand): (r: seq<Hand>)
    ensures |r| == |hs| + 1
    ensures multiset(r) == multiset(hs) + multiset{h}
    ensures r[0] == h || (hs != [] && r[0] == hs[0])
  {
    if hs == [] then [h]
    else if Compare(h, hs[0]) == Less then [h] + hs
    else
      assert hs == [hs[0]] + hs[1..];
      [hs[0]] + Insert(hs[1..], h)
  }

  /** ...so inserting into sorted hands keeps them sorted. */
  lemma {:induction false} InsertSorted(hs: seq<Hand>, h: Hand)
    requires Sorted(hs)
    ensures Sorted(Insert(hs, h))
    decreases |hs|
  {
    if hs != [] && Compare(h, hs[0]) != Less {
      var tail := hs[1..];
      assert Sorted(tail) by {
        forall i | 0 < i < |tail| ensures Compare(tail[i - 1], tail[i]) != Greater {
          assert tail[i - 1] == hs[i] && tail[i] == hs[i + 1];
        }
      }
      InsertSorted(tail, h);
      CompareFlip(h, hs[0]);
      var r := Insert(hs, h);
      assert r == [hs[0]] + Insert(tail, h);
    }
  }

  /** `hands.sort()`: the hands in ascending order, as a permutation of the input. */
  function Sort(hs: seq<Hand>): (r: seq<Hand>)
    ensures |r| == |hs| && Sorted(r) && multiset(r) == multiset(hs)
  {
    if hs == [] then []
    else
      assert hs == hs[..|hs| - 1] + [hs[|hs| - 1]];
      InsertSorted(Sort(hs[..|hs| - 1]), hs[|hs| - 1]);
      Insert(Sort(hs[..|hs| - 1]), hs[|hs| - 1])
  }

  /** Sorted hands of one length are in order pairwise, not just neighbour by neighbour. */
  lemma {:induction false} SortedPairs(hs: seq<Hand>, n: nat)
    requires Sorted(hs) && forall k :: 0 <= k < |hs| ==> |hs[k].cards| == n
    ensures forall i, j :: 0 <= i < j < |hs| ==> Compare(hs[i], hs[j]) != Greater
    decreases |hs|
  {
    if hs != [] {
      var pre := hs[..|hs| - 1];
      assert Sorted(pre) by {
        assert forall i :: 0 <= i < |pre| ==> pre[i] == hs[i];
      }
      SortedPairs(pre, n);
      forall i | 0 <= i < |hs| - 1 ensures Compare(hs[i], hs[|hs| - 1]) != Greater {
        if i < |hs| - 2 {
          assert pre[i] == hs[i] && pre[|hs| - 2] == hs[|hs| - 2];
          CompareTrans(hs[i], hs[|hs| - 2], hs[|hs| - 1]);
        }
      }
      forall i, j | 0 <= i < j < |hs| ensures Compare(hs[i], hs[j]) != Greater {
        if j < |hs| - 1 {
          assert pre[i] == hs[i] && pre[j] == hs[j];
        }
      }
    }
  }

  /** Σ (i + 1) · bid over the hands in the given order. */
  function Winnings(hs: seq<Hand>): nat {
    if hs == [] then 0 else Winnings(hs[..|hs| - 1]) + |hs| * hs[|hs| - 1].bid
  }

  function SumBids(hs: seq<Hand>): nat {
    if hs == [] then 0 else SumBids(hs[..|hs| - 1]) + hs[|hs| - 1].bid
  }

  /** Every bid is won at least once and at most as many times as there are hands. */
  lemma {:induction false} WinningsBounds(hs: seq<Hand>)
    ensures SumBids(hs) <= Winnings(hs) <= |hs| * SumBids(hs)
    decreases |hs|
  {
    if hs != [] {
      var pre := hs[..|hs| - 1];
      WinningsBounds(pre);
      BoundsStep(|hs|, SumBids(pre), Winnings(pre), hs[|hs| - 1].bid);
    }
  }

  /** One more hand, ranked n, keeps the bounds of WinningsBounds. */
  lemma BoundsStep(n: nat, s: nat, w: nat, b: nat)
    requires 1 <= n && s <= w <= (n - 1) * s
    ensures s + b <= w + n * b <= n * (s + b)
  {
    MulLe(n - 1, n, s);
    MulLe(1, n, b);
    assert n * (s + b) == n * s + n * b;
  }

  /** The `enumerate().map(..).sum()` of the winnings. */
  method TotalWinnings(hs: seq<Hand>) returns (total: nat)
    ensures total == Winnings(hs)
  {
    total := 0;
    for i := 0 to |hs|
      invariant total == Winnings(hs[..i])
    {
      assert hs[..i + 1][..i] == hs[..i];
      total := total + (i + 1) * hs[i].bid;
    }
    assert hs[..|hs|] == hs;
  }

  // ---------------------------------------------------------------------
  // Parsing and the solution
  // ---------------------------------------------------------------------

  /** A line `Hand::from` accepts: five card letters, then a bid. */
  predicate WellFormed(line: string) {
    var ws := Words(line);
    |ws| >= 2 && |ws[0]| == 5 && (forall c :: c in ws[0] ==> IsCard(c)) && IsNat(ws[1])
  }

  /** The card mapping of `Hand::from`. */
  function Cards(w: string): (cards: seq<nat>)
    requires forall c :: c in w ==> IsCard(c)
    ensures |cards| == |w| && forall i :: 0 <= i < |w| ==> 1 <= cards[i] <= |Order| && Order[cards[i] - 1] == w[i]
  {
    seq(|w|, i requires 0 <= i < |w| => Rank(w[i]))
  }

  /** `Hand::from`: the cards of the first word, the bid of the second, and the type of the cards. */
  method ParseHand(line: string) returns (h: Hand)
    requires WellFormed(line)
    ensures h == Hand(Cards(Words(line)[0]), NatValue(Words(line)[1]), TypeOf(Cards(Words(line)[0])))
  {
    var split := Words(line);
    var cards := Cards(split[0]);
    var handType := GetHandType(cards);
    h := Hand(cards, NatValue(split[1]), handType);
  }

  /** The hands of all lines. */
  ghost function Hands(ls: seq<string>): (hs: seq<Hand>)
    requires forall k :: 0 <= k < |ls| ==> WellFormed(ls[k])
    ensures |hs| == |ls|
  {
    if ls == [] then []
    else
      assert WellFormed(ls[|ls| - 1]);
      var w := Words(ls[|ls| - 1]);
      Hands(ls[..|ls| - 1]) + [Hand(Cards(w[0]), NatValue(w[1]), TypeOf(Cards(w[0])))]
  }

  method ParseHands(ls: seq<string>) returns (hs: seq<Hand>)
    requires forall k :: 0 <= k < |ls| ==> WellFormed(ls[k])
    ensures hs == Hands(ls)
    ensures forall k :: 0 <= k < |hs| ==> |hs[k].cards| == 5
  {
    hs := [];
    for i := 0 to |ls|
      invariant hs == Hands(ls[..i]) && forall k :: 0 <= k < |hs| ==> |hs[k].cards| == 5
    {
      var h := ParseHand(ls[i]);
      assert ls[..i + 1][..i] == ls[..i];
      hs := hs + [h];
    }
    assert ls[..|ls|] == ls;
  }

  /** `solution_1`: the hands sorted weakest first, each bid times its rank. */
  method Solution(text: string) returns (total: nat)
    requires forall k :: 0 <= k < |Lines(text)| ==> WellFormed(Lines(text)[k])
    ensures total == Winnings(Sort(Hands(Lines(text))))
    ensures forall i, j :: 0 <= i < j < |Lines(text)| ==>
      Compare(Sort(Hands(Lines(text)))[i], Sort(Hands(Lines(text)))[j]) != Greater
  {
    var hands := ParseHands(Lines(text));
    var sorted := Sort(hands);
    assert forall k :: 0 <= k < |sorted| ==> |sorted[k].cards| == 5 by {
      forall k | 0 <= k < |sorted| ensures |sorted[k].cards| == 5 {
        assert sorted[k] in multiset(hands);
      }
    }
    SortedPairs(sorted, 5);
    total := TotalWinnings(sorted);
  }
}
