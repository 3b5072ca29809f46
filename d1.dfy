/**
 * Trebuchet calibration (src/bin/d1.rs): each line's value is its first
 * digit times ten plus its last digit; in the second part spelled-out
 * digits count too, found by `find` and `rfind` of every token.
 */
module D1 {
  import opened Text

  // ---------------------------------------------------------------------
  // Part one: digit characters
  // ---------------------------------------------------------------------

  predicate HasDigit(line: string) {
    exists i :: 0 <= i < |line| && IsDigit(line[i])
  }

  /** `chars().find(is_ascii_digit)`: the index of the first digit. */
  function FirstDigit(line: string): (i: nat)
    requires HasDigit(line)
    ensures i < |line| && IsDigit(line[i])
    ensures forall j :: 0 <= j < i ==> !IsDigit(line[j])
  {
    if IsDigit(line[0]) then 0
    else
      var k :| 0 <= k < |line| && IsDigit(line[k]);
      assert IsDigit(line[1..][k - 1]);
      1 + FirstDigit(line[1..])
  }

  /** `chars().rev().find(is_ascii_digit)`: the index of the last digit. */
  function LastDigit(line: string): (i: nat)
    requires HasDigit(line)
    ensures i < |line| && IsDigit(line[i])
    ensures forall j :: i < j < |line| ==> !IsDigit(line[j])
  {
    var n := |line| - 1;
    if IsDigit(line[n]) then n
    else
      var k :| 0 <= k < |line| && IsDigit(line[k]);
      assert IsDigit(line[..n][k]);
      LastDigit(line[..n])
  }

  /** `format!("{}{}", first, last).parse()`: the two-digit number written by the two digits. */
  function Value1(line: string): (v: nat)
    requires HasDigit(line)
    ensures FirstDigit(line) <= LastDigit(line) && v <= 99
    ensures (forall j :: 0 <= j < |line| && IsDigit(line[j]) ==> j == FirstDigit(line)) ==>
      v == 11 * DigitValue(line[FirstDigit(line)])
  {
    DigitValue(line[FirstDigit(line)]) * 10 + DigitValue(line[LastDigit(line)])
  }

  predicate AllHaveDigits(ls: seq<string>) {
    forall k :: 0 <= k < |ls| ==> HasDigit(ls[k])
  }

  function Sum1(ls: seq<string>): nat
    requires AllHaveDigits(ls)
  {
    if ls == [] then 0 else Sum1(ls[..|ls| - 1]) + Value1(ls[|ls| - 1])
  }

  /** `solution_1`: the line values added. */
  method Solution1(text: string) returns (result: nat)
    requires AllHaveDigits(Lines(text))
    ensures result == Sum1(Lines(text))
  {
    var ls := Lines(text);
    result := 0;
    for k := 0 to |ls|
      invariant result == Sum1(ls[..k])
    {
      var line := ls[k];
      var first := FirstDigit(line);
      var last := LastDigit(line);
      result := result + DigitValue(line[first]) * 10 + DigitValue(line[last]);
      assert ls[..k + 1][..k] == ls[..k];
    }
    assert ls[..|ls|] == ls;
  }

  // ---------------------------------------------------------------------
  // Part two: digit tokens
  // ---------------------------------------------------------------------

  /** `valid_numbers`: the digits and their names, each with its value. */
  const Tokens: seq<(string, nat)> := [
    ("1", 1), ("2", 2), ("3", 3), ("4", 4), ("5", 5), ("6", 6), ("7", 7), ("8", 8), ("9", 9),
    ("one", 1), ("two", 2), ("three", 3), ("four", 4), ("five", 5),
    ("six", 6), ("seven", 7), ("eight", 8), ("nine", 9)]

  predicate Digits(toks: seq<(string, nat)>) {
    forall t :: 0 <= t < |toks| ==> 1 <= toks[t].1 <= 9 && |toks[t].0| > 0
  }

  lemma TokensAreDigits()
    ensures Digits(Tokens)
  {
  }

  /** `l_indices`: the tokens `find` locates, as (index, value), in table order. */
  function LeftFinds(line: string, toks: seq<(string, nat)>): seq<(nat, nat)> {
    if toks == [] then []
    else
      (match Find(line, toks[0].0) case Some(i) => [(i, toks[0].1)] case None => [])
      + LeftFinds(line, toks[1..])
  }

  /** `r_indices`: the tokens `rfind` locates, as (index, value), in table order. */
  function RightFinds(line: string, toks: seq<(string, nat)>): seq<(nat, nat)> {
    if toks == [] then []
    else
      (match RFind(line, toks[0].0) case Some(i) => [(i, toks[0].1)] case None => [])
      + RightFinds(line, toks[1..])
  }

  /** `min_by_key` on the index: the first of the entries with the least index. */
  function MinByKey(ps: seq<(nat, nat)>): (r: (nat, nat))
    requires |ps| > 0
    ensures r in ps && forall k :: 0 <= k < |ps| ==> r.0 <= ps[k].0
  {
    if |ps| == 1 then ps[0]
    else
      var m := MinByKey(ps[1..]);
      if ps[0].0 <= m.0 then ps[0] else m
  }

  /** `max_by_key` on the index: the last of the entries with the greatest index. */
  function MaxByKey(ps: seq<(nat, nat)>): (r: (nat, nat))
    requires |ps| > 0
    ensures r in ps && forall k :: 0 <= k < |ps| ==> ps[k].0 <= r.0
  {
    if |ps| == 1 then ps[0]
    else
      var m := MaxByKey(ps[1..]);
      if ps[0].0 > m.0 then ps[0] else m
  }

  /** Some token occurs in the line: the `unwrap`s of `solution_2` need it. */
  predicate HasToken(line: string, toks: seq<(string, nat)>) {
    exists t :: 0 <= t < |toks| && Find(line, toks[t].0).Some?
  }

  lemma {:induction false} FindsNonEmpty(line: string, toks: seq<(string, nat)>, t: nat)
    requires t < |toks| && Find(line, toks[t].0).Some?
    ensures |LeftFinds(line, toks)| > 0 && |RightFinds(line, toks)| > 0
    decreases t
  {
    if t > 0 {
      FindsNonEmpty(line, toks[1..], t - 1);
    } else {
      assert RFind(line, toks[0].0).Some?;
    }
  }

  lemma TokenFinds(line: string, toks: seq<(string, nat)>)
    requires HasToken(line, toks)
    ensures |LeftFinds(line, toks)| > 0 && |RightFinds(line, toks)| > 0
    ensures Value(line, toks) == MinByKey(LeftFinds(line, toks)).1 * 10 + MaxByKey(RightFinds(line, toks)).1
  {
    var t :| 0 <= t < |toks| && Find(line, toks[t].0).Some?;
    FindsNonEmpty(line, toks, t);
  }

  /** A line's value from a token table: the leftmost token's value times ten plus the rightmost one's. */
  function Value(line: string, toks: seq<(string, nat)>): nat
    requires HasToken(line, toks)
  {
    var t :| 0 <= t < |toks| && Find(line, toks[t].0).Some?;
    FindsNonEmpty(line, toks, t);
    MinByKey(LeftFinds(line, toks)).1 * 10 + MaxByKey(RightFinds(line, toks)).1
  }

  // ---------------------------------------------------------------------
  // A reference reading: scan the line for the first and the last token
  // ---------------------------------------------------------------------

  /** The value of the first token of the table that starts at position i. */
  function FirstTokenAt(line: string, toks: seq<(string, nat)>, i: nat): Option<nat> {
    if toks == [] then None
    else if HasPrefixAt(line, toks[0].0, i) then Some(toks[0].1)
    else FirstTokenAt(line, toks[1..], i)
  }

  /** The value of the last token of the table that starts at position i. */
  function LastTokenAt(line: string, toks: seq<(string, nat)>, i: nat): Option<nat> {
    if toks == [] then None
    else if LastTokenAt(line, toks[1..], i).Some? then LastTokenAt(line, toks[1..], i)
    else if HasPrefixAt(line, toks[0].0, i) then Some(toks[0].1)
    else None
  }

  /** Reading left to right from position j: the first position where a token starts, with its value. */
  function ScanFirst(line: string, toks: seq<(string, nat)>, j: nat): Option<(nat, nat)>
    decreases |line| + 1 - j
  {
    if j > |line| then None
    else match FirstTokenAt(line, toks, j)
      case Some(v) => Some((j, v))
      case None => ScanFirst(line, toks, j + 1)
  }

  /** Reading right to left from position j - 1: the last position where a token starts, with its value. */
  function ScanLast(line: string, toks: seq<(string, nat)>, j: nat): Option<(nat, nat)> {
    if j == 0 then None
    else match LastTokenAt(line, toks, j - 1)
      case Some(v) => Some((j - 1, v))
      case None => ScanLast(line, toks, j - 1)
  }

  /** The `find`-based minimum is the leftmost token position, and its value the table's first token there. */
  lemma {:induction false} LeftMeaning(line: string, toks: seq<(string, nat)>)
    requires |LeftFinds(line, toks)| > 0
    ensures var r := MinByKey(LeftFinds(line, toks));
      (forall t, j :: 0 <= t < |toks| && 0 <= j < r.0 ==> !HasPrefixAt(line, toks[t].0, j)) &&
      FirstTokenAt(line, toks, r.0) == Some(r.1)
  {
    var head: seq<(nat, nat)> := match Find(line, toks[0].0) case Some(i) => [(i, toks[0].1)] case None => [];
    var rest := LeftFinds(line, toks[1..]);
    assert LeftFinds(line, toks) == head + rest;
    if rest != [] {
      LeftMeaning(line, toks[1..]);
    }
    var r := MinByKey(head + rest);
    if head == [] {
      assert head + rest == rest;
    } else if rest == [] {
      assert head + rest == head;
      LeftEmpty(line, toks[1..]);
    } else {
      assert (head + rest)[1..] == rest;
    }
    forall t, j | 0 <= t < |toks| && 0 <= j < r.0 ensures !HasPrefixAt(line, toks[t].0, j) {
      if t > 0 {
        assert toks[1..][t - 1] == toks[t];
      }
    }
  }

  /** The `rfind`-based maximum is the rightmost token position, and its value the table's last token there. */
  lemma {:induction false} RightMeaning(line: string, toks: seq<(string, nat)>)
    requires |RightFinds(line, toks)| > 0
    ensures var r := MaxByKey(RightFinds(line, toks));
      (forall t, j :: 0 <= t < |toks| && r.0 < j <= |line| ==> !HasPrefixAt(line, toks[t].0, j)) &&
      LastTokenAt(line, toks, r.0) == Some(r.1)
  {
    var head: seq<(nat, nat)> := match RFind(line, toks[0].0) case Some(i) => [(i, toks[0].1)] case None => [];
    var rest := RightFinds(line, toks[1..]);
    assert RightFinds(line, toks) == head + rest;
    if rest != [] {
      RightMeaning(line, toks[1..]);
    }
    var r := MaxByKey(head + rest);
    if head == [] {
      assert head + rest == rest;
    } else if rest == [] {
      assert head + rest == head;
      RightEmpty(line, toks[1..]);
      NoneAt(line, toks[1..], r.0);
    } else {
      assert (head + rest)[1..] == rest;
      var m := MaxByKey(rest);
      if head[0].0 > m.0 {
        assert r == head[0];
        NoLastToken(line, toks[1..], r.0);
      } else {
        assert r == m;
      }
    }
    forall t, j | 0 <= t < |toks| && r.0 < j <= |line| ensures !HasPrefixAt(line, toks[t].0, j) {
      if t > 0 {
        assert toks[1..][t - 1] == toks[t];
      }
    }
  }

  lemma {:induction false} RightNonEmpty(line: string, toks: seq<(string, nat)>, t: nat)
    requires t < |toks| && RFind(line, toks[t].0).Some?
    ensures |RightFinds(line, toks)| > 0
    decreases t
  {
    if t > 0 {
      RightNonEmpty(line, toks[1..], t - 1);
    }
  }

  /** No `find` hit at all means no token occurs. */
  lemma LeftEmpty(line: string, toks: seq<(string, nat)>)
    requires LeftFinds(line, toks) == []
    ensures forall t :: 0 <= t < |toks| ==> Find(line, toks[t].0).None?
  {
    forall t | 0 <= t < |toks| ensures Find(line, toks[t].0).None? {
      if Find(line, toks[t].0).Some? {
        FindsNonEmpty(line, toks, t);
      }
    }
  }

  /** No `rfind` hit at all means no token occurs. */
  lemma RightEmpty(line: string, toks: seq<(string, nat)>)
    requires RightFinds(line, toks) == []
    ensures forall t :: 0 <= t < |toks| ==> RFind(line, toks[t].0).None?
  {
    forall t | 0 <= t < |toks| ensures RFind(line, toks[t].0).None? {
      if RFind(line, toks[t].0).Some? {
        RightNonEmpty(line, toks, t);
      }
    }
  }

  lemma {:induction false} NoneAt(line: string, toks: seq<(string, nat)>, i: nat)
    requires forall t :: 0 <= t < |toks| ==> RFind(line, toks[t].0).None?
    ensures LastTokenAt(line, toks, i).None?
    decreases |toks|
  {
    if toks != [] {
      NoneAt(line, toks[1..], i);
      assert !HasPrefixAt(line, toks[0].0, i) by {
        if i > |line| {
        }
      }
    }
  }

  lemma {:induction false} ScanFirstFinds(line: string, toks: seq<(string, nat)>, j: nat, p: nat, v: nat)
    requires j <= p <= |line|
    requires forall t, k :: 0 <= t < |toks| && 0 <= k < p ==> !HasPrefixAt(line, toks[t].0, k)
    requires FirstTokenAt(line, toks, p) == Some(v)
    ensures ScanFirst(line, toks, j) == Some((p, v))
    decreases p - j
  {
    if j < p {
      NoFirstToken(line, toks, j);
      ScanFirstFinds(line, toks, j + 1, p, v);
    }
  }

  lemma {:induction false} NoFirstToken(line: string, toks: seq<(string, nat)>, j: nat)
    requires forall t :: 0 <= t < |toks| ==> !HasPrefixAt(line, toks[t].0, j)
    ensures FirstTokenAt(line, toks, j).None?
    decreases |toks|
  {
    if toks != [] {
      NoFirstToken(line, toks[1..], j);
    }
  }

  lemma {:induction false} NoLastToken(line: string, toks: seq<(string, nat)>, j: nat)
    requires forall t :: 0 <= t < |toks| ==> !HasPrefixAt(line, toks[t].0, j)
    ensures LastTokenAt(line, toks, j).None?
    decreases |toks|
  {
    if toks != [] {
      NoLastToken(line, toks[1..], j);
    }
  }

  lemma {:induction false} ScanLastFinds(line: string, toks: seq<(string, nat)>, j: nat, p: nat, v: nat)
    requires p < j <= |line| + 1
    requires forall t, k :: 0 <= t < |toks| && p < k <= |line| ==> !HasPrefixAt(line, toks[t].0, k)
    requires LastTokenAt(line, toks, p) == Some(v)
    ensures ScanLast(line, toks, j) == Some((p, v))
    decreases j
  {
    if j - 1 > p {
      NoLastToken(line, toks, j - 1);
      ScanLastFinds(line, toks, j - 1, p, v);
    }
  }

  /** The `find`-based minimum is what the left-to-right scan finds first. */
  lemma LeftIsScan(line: string, toks: seq<(string, nat)>)
    requires |LeftFinds(line, toks)| > 0
    ensures ScanFirst(line, toks, 0) == Some(MinByKey(LeftFinds(line, toks)))
  {
    var l := MinByKey(LeftFinds(line, toks));
    LeftMeaning(line, toks);
    FoundInRange(line, toks, l);
    ScanFirstFinds(line, toks, 0, l.0, l.1);
  }

  /** The `rfind`-based maximum is what the right-to-left scan finds first. */
  lemma RightIsScan(line: string, toks: seq<(string, nat)>)
    requires |RightFinds(line, toks)| > 0
    ensures ScanLast(line, toks, |line| + 1) == Some(MaxByKey(RightFinds(line, toks)))
  {
    var r := MaxByKey(RightFinds(line, toks));
    RightMeaning(line, toks);
    RightInRange(line, toks, r);
    ScanLastFinds(line, toks, |line| + 1, r.0, r.1);
  }

  /**
   * A line's value is ten times the value of the leftmost token plus the
   * value of the rightmost one, and it lies in [11, 99].
   */
  lemma ValueMeaning(line: string, toks: seq<(string, nat)>)
    requires HasToken(line, toks) && Digits(toks)
    ensures ScanFirst(line, toks, 0).Some? && ScanLast(line, toks, |line| + 1).Some?
    ensures Value(line, toks) == ScanFirst(line, toks, 0).value.1 * 10 + ScanLast(line, toks, |line| + 1).value.1
    ensures 11 <= Value(line, toks) <= 99
  {
    var t :| 0 <= t < |toks| && Find(line, toks[t].0).Some?;
    FindsNonEmpty(line, toks, t);
    LeftIsScan(line, toks);
    RightIsScan(line, toks);
    LeftValues(line, toks);
    RightValues(line, toks);
  }

  /**
   * The value `solution_2` gives a line: ten times the value of its leftmost
   * digit or digit name plus the value of its rightmost one.
   */
  function Value2(line: string): (v: nat)
    requires HasToken(line, Tokens)
    ensures ScanFirst(line, Tokens, 0).Some? && ScanLast(line, Tokens, |line| + 1).Some?
    ensures v == ScanFirst(line, Tokens, 0).value.1 * 10 + ScanLast(line, Tokens, |line| + 1).value.1
  {
    TokensAreDigits();
    ValueMeaning(line, Tokens);
    Value(line, Tokens)
  }

  /** Every line contributes between 11 and 99. */
  lemma Value2Range(line: string)
    requires HasToken(line, Tokens)
    ensures 11 <= Value2(line) <= 99
  {
    TokensAreDigits();
    ValueMeaning(line, Tokens);
  }

  lemma {:induction false} FoundInRange(line: string, toks: seq<(string, nat)>, p: (nat, nat))
    requires p in LeftFinds(line, toks)
    ensures p.0 <= |line|
    decreases |toks|
  {
    if toks != [] {
      var head: seq<(nat, nat)> := match Find(line, toks[0].0) case Some(i) => [(i, toks[0].1)] case None => [];
      assert LeftFinds(line, toks) == head + LeftFinds(line, toks[1..]);
      if p !in head {
        FoundInRange(line, toks[1..], p);
      }
    }
  }

  lemma {:induction false} RightInRange(line: string, toks: seq<(string, nat)>, p: (nat, nat))
    requires p in RightFinds(line, toks)
    ensures p.0 <= |line|
    decreases |toks|
  {
    if toks != [] {
      var head: seq<(nat, nat)> := match RFind(line, toks[0].0) case Some(i) => [(i, toks[0].1)] case None => [];
      assert RightFinds(line, toks) == head + RightFinds(line, toks[1..]);
      if p !in head {
        RightInRange(line, toks[1..], p);
      }
    }
  }

  lemma {:induction false} LeftValues(line: string, toks: seq<(string, nat)>)
    requires Digits(toks)
    ensures forall p :: p in LeftFinds(line, toks) ==> 1 <= p.1 <= 9
    decreases |toks|
  {
    if toks != [] {
      LeftValues(line, toks[1..]);
    }
  }

  lemma {:induction false} RightValues(line: string, toks: seq<(string, nat)>)
    requires Digits(toks)
    ensures forall p :: p in RightFinds(line, toks) ==> 1 <= p.1 <= 9
    decreases |toks|
  {
    if toks != [] {
      RightValues(line, toks[1..]);
    }
  }

  lemma {:induction false} FirstTokenIs(line: string, toks: seq<(string, nat)>, i: nat, t: nat)
    requires t < |toks| && HasPrefixAt(line, toks[t].0, i)
    requires forall u :: 0 <= u < t ==> !HasPrefixAt(line, toks[u].0, i)
    ensures FirstTokenAt(line, toks, i) == Some(toks[t].1)
    decreases t
  {
    if t > 0 {
      FirstTokenIs(line, toks[1..], i, t - 1);
    }
  }

  lemma {:induction false} LastTokenIs(line: string, toks: seq<(string, nat)>, i: nat, t: nat)
    requires t < |toks| && HasPrefixAt(line, toks[t].0, i)
    requires forall u :: t < u < |toks| ==> !HasPrefixAt(line, toks[u].0, i)
    ensures LastTokenAt(line, toks, i) == Some(toks[t].1)
    decreases t
  {
    if t > 0 {
      LastTokenIs(line, toks[1..], i, t - 1);
    } else {
      NoLastToken(line, toks[1..], i);
    }
  }

  lemma FirstOfExample()
    ensures ScanFirst("oneight", Tokens, 0) == Some((0, 1))
  {
    var line := "oneight";
    forall u | 0 <= u < 9 ensures !HasPrefixAt(line, Tokens[u].0, 0) {
      assert line[0] == 'o';
    }
    assert HasPrefixAt(line, Tokens[9].0, 0);
    FirstTokenIs(line, Tokens, 0, 9);
  }

  lemma NothingAfterEight()
    ensures forall t, j :: 0 <= t < |Tokens| && 2 < j <= |"oneight"| ==> !HasPrefixAt("oneight", Tokens[t].0, j)
  {
    var line := "oneight";
    forall t, j | 0 <= t < |Tokens| && 2 < j <= |line| ensures !HasPrefixAt(line, Tokens[t].0, j) {
      if j + |Tokens[t].0| <= |line| {
        assert line[j..j + |Tokens[t].0|][0] == line[j];
      }
    }
  }

  lemma EightAtTwo()
    ensures LastTokenAt("oneight", Tokens, 2) == Some(8)
  {
    var line := "oneight";
    assert HasPrefixAt(line, Tokens[16].0, 2);
    assert line[2..6][0] == line[2];
    assert !HasPrefixAt(line, Tokens[17].0, 2);
    LastTokenIs(line, Tokens, 2, 16);
  }

  lemma LastOfExample()
    ensures ScanLast("oneight", Tokens, 8) == Some((2, 8))
  {
    NothingAfterEight();
    EightAtTwo();
    ScanLastFinds("oneight", Tokens, 8, 2, 8);
  }

  /** Spellings may share letters: "oneight" counts as one then eight, so its value is 18. */
  lemma OverlapExample()
    ensures HasToken("oneight", Tokens) && Value2("oneight") == 18
  {
    assert HasPrefixAt("oneight", Tokens[9].0, 0);
    FirstOfExample();
    LastOfExample();
  }

  predicate AllHaveTokens(ls: seq<string>) {
    forall k :: 0 <= k < |ls| ==> HasToken(ls[k], Tokens)
  }

  function Sum2(ls: seq<string>): nat
    requires AllHaveTokens(ls)
  {
    if ls == [] then 0 else Sum2(ls[..|ls| - 1]) + Value2(ls[|ls| - 1])
  }

  /** `solution_2`: ten times the first token's value plus the last token's, over all lines. */
  method Solution2(text: string) returns (total: nat)
    requires AllHaveTokens(Lines(text))
    ensures total == Sum2(Lines(text))
  {
    var validNumbers := Tokens;
    var ls := Lines(text);
    total := 0;
    for k := 0 to |ls|
      invariant total == Sum2(ls[..k])
    {
      total := AddLine(total, ls[k], validNumbers);
      assert ls[..k + 1][..k] == ls[..k];
    }
    assert ls[..|ls|] == ls;
  }

  /** One round of the loop of `solution_2`. */
  method AddLine(total0: nat, line: string, toks: seq<(string, nat)>) returns (total: nat)
    requires HasToken(line, toks)
    ensures total == total0 + Value(line, toks)
  {
    var lIndices := LeftFinds(line, toks);
    var rIndices := RightFinds(line, toks);
    TokenFinds(line, toks);
    var firstVal := MinByKey(lIndices);
    var lastVal := MaxByKey(rIndices);
    total := total0 + firstVal.1 * 10;
    total := total + lastVal.1;
  }
}
