/**
 * String helpers shared by the puzzle modules: the parts of Rust's `str`
 * API that the solvers use (`lines`, `split`, `split_whitespace`, `find`,
 * `rfind`, `parse`), stated over `seq<char>`.  All input is ASCII.
 */
module Text {

  datatype Option<T> = None | Some(value: T)

  /** `std::cmp::Ordering`. */
  datatype Ordering = Less | Equal | Greater

  predicate IsDigit(c: char) {
    '0' <= c <= '9'
  }

  function DigitValue(c: char): (d: nat)
    requires IsDigit(c)
    ensures d <= 9
  {
    (c as int) - ('0' as int)
  }

  /** The Unicode White_Space characters, on which `char::is_whitespace`
    * and so `split_whitespace` split. */
  predicate IsSpace(c: char) {
    ('\t' <= c <= '\r') || c == ' ' || c == '\U{0085}' || c == '\U{00A0}'
    || c == '\U{1680}' || ('\U{2000}' <= c <= '\U{200A}')
    || c == '\U{2028}' || c == '\U{2029}' || c == '\U{202F}'
    || c == '\U{205F}' || c == '\U{3000}'
  }

  predicate AllDigits(s: string) {
    forall i :: 0 <= i < |s| ==> IsDigit(s[i])
  }

  /** Decimal value of a string of digits (leading zeros allowed). */
  function NatValue(s: string): nat
    requires AllDigits(s)
  {
    if s == [] then 0 else NatValue(s[..|s| - 1]) * 10 + DigitValue(s[|s| - 1])
  }

  /**
   * `s.parse::<usize>()` on a non-empty run of digits; the leading '+' that
   * `parse` also accepts is not modelled.
   */
  predicate IsNat(s: string) {
    |s| > 0 && AllDigits(s)
  }

  /** `s.parse::<isize>()` on a string it accepts: an optional sign, then digits. */
  predicate IsInt(s: string) {
    IsNat(s) || (|s| > 1 && (s[0] == '-' || s[0] == '+') && IsNat(s[1..]))
  }

  function IntValue(s: string): int
    requires IsInt(s)
  {
    if IsNat(s) then NatValue(s)
    else if s[0] == '-' then -(NatValue(s[1..]) as int)
    else NatValue(s[1..])
  }

  /** Index of the first occurrence of `c` in `s`. */
  function IndexOf(s: string, c: char): (r: Option<nat>)
    ensures r.Some? ==> r.value < |s| && s[r.value] == c && c !in s[..r.value]
    ensures r.None? ==> c !in s
  {
    if s == [] then None
    else if s[0] == c then Some(0)
    else match IndexOf(s[1..], c)
      case None => None
      case Some(i) => assert s[1..][..i] == s[1..i + 1]; Some(i + 1)
  }

  /** Drops the carriage return of a "\r\n" line ending, as `lines` does. */
  function StripCr(line: string): string {
    if |line| > 0 && line[|line| - 1] == '\r' then line[..|line| - 1] else line
  }

  /**
   * `s.lines()`: the pieces between line feeds, each line ended by a line feed
   * without the carriage return before it; a final line feed does not start an
   * empty last line, and a last piece without a line feed is kept whole.
   */
  function Lines(s: string): (ls: seq<string>)
    ensures ls == [] <==> s == []
    ensures forall k :: 0 <= k < |ls| ==> '\n' !in ls[k]
    decreases |s|
  {
    if s == [] then []
    else match IndexOf(s, '\n')
      case None => [s]
      case Some(i) => [StripCr(s[..i])] + Lines(s[i + 1..])
  }

  predicate HasPrefixAt(s: string, pat: string, i: nat) {
    i + |pat| <= |s| && s[i..i + |pat|] == pat
  }

  /** `s.find(pat)`: the smallest index where `pat` occurs. */
  function Find(s: string, pat: string): (r: Option<nat>)
    ensures r.Some? ==> HasPrefixAt(s, pat, r.value)
    ensures r.Some? ==> forall j :: 0 <= j < r.value ==> !HasPrefixAt(s, pat, j)
    ensures r.None? ==> forall j :: 0 <= j <= |s| ==> !HasPrefixAt(s, pat, j)
  {
    FindFrom(s, pat, 0)
  }

  function FindFrom(s: string, pat: string, k: nat): (r: Option<nat>)
    requires k <= |s| + 1
    requires forall j :: 0 <= j < k ==> !HasPrefixAt(s, pat, j)
    ensures r.Some? ==> k <= r.value && HasPrefixAt(s, pat, r.value)
    ensures r.Some? ==> forall j :: 0 <= j < r.value ==> !HasPrefixAt(s, pat, j)
    ensures r.None? ==> forall j :: 0 <= j <= |s| ==> !HasPrefixAt(s, pat, j)
    decreases |s| + 1 - k
  {
    if k > |s| then None
    else if HasPrefixAt(s, pat, k) then Some(k)
    else FindFrom(s, pat, k + 1)
  }

  /** `s.rfind(pat)`: the largest index where `pat` occurs. */
  function RFind(s: string, pat: string): (r: Option<nat>)
    ensures r.Some? ==> HasPrefixAt(s, pat, r.value)
    ensures r.Some? ==> forall j :: r.value < j <= |s| ==> !HasPrefixAt(s, pat, j)
    ensures r.None? ==> forall j :: 0 <= j <= |s| ==> !HasPrefixAt(s, pat, j)
  {
    RFindBelow(s, pat, |s| + 1)
  }

  function RFindBelow(s: string, pat: string, k: nat): (r: Option<nat>)
    requires k <= |s| + 1
    requires forall j :: k <= j <= |s| ==> !HasPrefixAt(s, pat, j)
    ensures r.Some? ==> r.value < k && HasPrefixAt(s, pat, r.value)
    ensures r.Some? ==> forall j :: r.value < j <= |s| ==> !HasPrefixAt(s, pat, j)
    ensures r.None? ==> forall j :: 0 <= j <= |s| ==> !HasPrefixAt(s, pat, j)
  {
    if k == 0 then None
    else if HasPrefixAt(s, pat, k - 1) then Some(k - 1)
    else RFindBelow(s, pat, k - 1)
  }

  /** `s.split(sep)` for a non-empty separator: always at least one piece. */
  function Split(s: string, sep: string): (parts: seq<string>)
    requires |sep| > 0
    ensures |parts| >= 1
    decreases |s|
  {
    match Find(s, sep)
    case None => [s]
    case Some(i) => [s[..i]] + Split(s[i + |sep|..], sep)
  }

  /** `s.split_whitespace()`: the maximal runs of non-space characters. */
  function Words(s: string): (ws: seq<string>)
    ensures forall k :: 0 <= k < |ws| ==> |ws[k]| > 0
    decreases |s|
  {
    if s == [] then []
    else if IsSpace(s[0]) then Words(s[1..])
    else
      var n := WordLength(s);
      [s[..n]] + Words(s[n..])
  }

  function WordLength(s: string): (n: nat)
    ensures n <= |s|
    ensures s != [] && !IsSpace(s[0]) ==> n > 0
  {
    if s == [] || IsSpace(s[0]) then 0 else 1 + WordLength(s[1..])
  }

  /** `parts.join(sep)`. */
  function Join(parts: seq<string>, sep: string): string {
    if parts == [] then []
    else if |parts| == 1 then parts[0]
    else parts[0] + sep + Join(parts[1..], sep)
  }

  /** `iter().rev()` collected, or `reverse()` done in place. */
  function Reverse<T>(s: seq<T>): (r: seq<T>)
    ensures |r| == |s| && forall t :: 0 <= t < |s| ==> r[t] == s[|s| - 1 - t]
  {
    if s == [] then [] else Reverse(s[1..]) + [s[0]]
  }

  /** `vec![s; n]`: n copies of the same value. */
  function Repeat<T>(s: T, n: nat): (r: seq<T>)
    ensures |r| == n && forall k :: 0 <= k < n ==> r[k] == s
  {
    if n == 0 then [] else [s] + Repeat(s, n - 1)
  }

  /** All lines concatenated (the row-major character vector of a grid). */
  function Concat(ls: seq<string>): (r: string)
    ensures |r| == TotalLength(ls)
  {
    if ls == [] then [] else ls[0] + Concat(ls[1..])
  }

  function TotalLength(ls: seq<string>): nat {
    if ls == [] then 0 else |ls[0]| + TotalLength(ls[1..])
  }

  /** Every line of `ls` has length `w`. */
  predicate Rectangular(ls: seq<string>, w: nat) {
    forall k :: 0 <= k < |ls| ==> |ls[k]| == w
  }

  /**
   * The number of cells in the first y rows of a grid of width w, i.e. y * w,
   * written by recursion so that row-major indexing stays linear arithmetic.
   */
  function Row(w: nat, y: nat): nat {
    if y == 0 then 0 else Row(w, y - 1) + w
  }

  lemma {:induction false} RowProduct(w: nat, y: nat)
    ensures Row(w, y) == y * w
  {
    if y > 0 {
      RowProduct(w, y - 1);
    }
  }

  lemma {:induction false} RowLess(w: nat, y1: nat, y2: nat)
    requires y1 < y2
    ensures Row(w, y1) + w <= Row(w, y2)
  {
    if y1 + 1 < y2 {
      RowLess(w, y1, y2 - 1);
    }
  }

  /** Row-major indexing is one-to-one on cells of a width-w grid. */
  lemma RowUnique(w: nat, x1: nat, y1: nat, x2: nat, y2: nat)
    requires x1 < w && x2 < w && Row(w, y1) + x1 == Row(w, y2) + x2
    ensures x1 == x2 && y1 == y2
  {
    if y1 < y2 {
      RowLess(w, y1, y2);
    } else if y2 < y1 {
      RowLess(w, y2, y1);
    }
  }

  /** A row-major index of a cell inside a w-by-h grid is below the cell count. */
  lemma IndexBound(x: nat, y: nat, w: nat, h: nat)
    requires x < w && y < h
    ensures Row(w, y) + x < Row(w, h)
  {
    RowLess(w, y, h);
  }

  lemma {:induction false} RectangularLength(ls: seq<string>, w: nat)
    requires Rectangular(ls, w)
    ensures TotalLength(ls) == Row(w, |ls|)
  {
    if ls != [] {
      RectangularLength(ls[1..], w);
    }
  }

  /** Appending a line appends its characters: the loop `chars.append(line)`. */
  lemma {:induction false} ConcatSnoc(ls: seq<string>, l: string)
    ensures Concat(ls + [l]) == Concat(ls) + l
  {
    if ls == [] {
      assert [l][1..] == [];
    } else {
      assert (ls + [l])[1..] == ls[1..] + [l];
      ConcatSnoc(ls[1..], l);
    }
  }

  /** In a rectangular grid the character at (x, y) of the flattened lines is ls[y][x]. */
  lemma {:induction false} ConcatAt(ls: seq<string>, w: nat, x: nat, y: nat)
    requires Rectangular(ls, w) && x < w && y < |ls|
    ensures Row(w, y) + x < |Concat(ls)| && Concat(ls)[Row(w, y) + x] == ls[y][x]
  {
    RectangularLength(ls, w);
    if y > 0 {
      ConcatAt(ls[1..], w, x, y - 1);
      assert Concat(ls) == ls[0] + Concat(ls[1..]);
    }
  }

  /** A trailing line feed, which `lines` does not turn into an empty line. */
  function TrailingNewline(s: string): nat {
    if |s| > 0 && s[|s| - 1] == '\n' then 1 else 0
  }

  /** Without carriage returns, the text is its lines plus one separator between each two. */
  lemma {:induction false} LinesLength(s: string)
    requires s != [] && '\r' !in s
    ensures |s| + 1 == TotalLength(Lines(s)) + |Lines(s)| + TrailingNewline(s)
    decreases |s|, 1
  {
    match IndexOf(s, '\n')
    case None =>
      assert s[|s| - 1] != '\r';
      assert Lines(s) == [s];
      assert TotalLength([s]) == |s| + TotalLength([]);
    case Some(i) =>
      LinesLengthAt(s, i);
  }

  /** The case of a first line feed at i: one line of length i, then the lines after it. */
  lemma {:induction false} LinesLengthAt(s: string, i: nat)
    requires '\r' !in s && IndexOf(s, '\n') == Some(i)
    ensures |s| + 1 == TotalLength(Lines(s)) + |Lines(s)| + TrailingNewline(s)
    decreases |s|, 0
  {
    var head, rest := s[..i], s[i + 1..];
    assert head == [] || head[|head| - 1] == s[i - 1];
    assert StripCr(head) == head;
    var ls := Lines(s);
    assert ls == [head] + Lines(rest);
    assert ls[1..] == Lines(rest);
    assert TotalLength(ls) == |head| + TotalLength(Lines(rest));
    if rest == [] {
      assert Lines(rest) == [];
    } else {
      assert '\r' !in rest by {
        forall k | 0 <= k < |rest| ensures rest[k] != '\r' { assert rest[k] == s[i + 1 + k]; }
      }
      LinesLength(rest);
      assert TrailingNewline(rest) == TrailingNewline(s);
    }
  }

  /** For a rectangular text the formula `(len + 1) / (width + 1)` gives the line count. */
  lemma HeightFromLength(s: string, w: nat)
    requires s != [] && '\r' !in s && w > 0 && Rectangular(Lines(s), w)
    ensures (|s| + 1) / (w + 1) == |Lines(s)|
  {
    var ls := Lines(s);
    LinesLength(s);
    RectangularLength(ls, w);
    RowProduct(w, |ls|);
    assert |s| + 1 == |ls| * (w + 1) + TrailingNewline(s);
    DivMod(TrailingNewline(s), |ls|, w + 1);
  }

  lemma MulLe(a: nat, b: nat, w: nat)
    requires a <= b
    ensures a * w <= b * w
  {
    var k := b - a;
    assert b * w == a * w + k * w;
  }

  /** Division by w undoes y * w + x for x < w. */
  lemma DivMod(x: nat, y: nat, w: nat)
    requires x < w
    ensures (y * w + x) / w == y && (y * w + x) % w == x
  {
    var n := y * w + x;
    var q, r := n / w, n % w;
    assert n == q * w + r && 0 <= r < w;
    if q < y {
      MulLe(q + 1, y, w);
    } else if q > y {
      MulLe(y + 1, q, w);
    }
  }

  /** A string with no whitespace in it. */
  predicate NoSpace(s: string) {
    forall i :: 0 <= i < |s| ==> !IsSpace(s[i])
  }

  /** A word runs up to the first whitespace. */
  lemma {:induction false} WordLengthOf(w: string, rest: string)
    requires NoSpace(w) && (rest == [] || IsSpace(rest[0]))
    ensures WordLength(w + rest) == |w|
    decreases |w|
  {
    if w != [] {
      assert (w + rest)[1..] == w[1..] + rest;
      WordLengthOf(w[1..], rest);
    } else {
      assert w + rest == rest;
    }
  }

  /** `split_whitespace` of two words separated by one space gives back the two words. */
  lemma WordsPair(a: string, b: string)
    requires |a| > 0 && |b| > 0 && NoSpace(a) && NoSpace(b)
    ensures Words(a + " " + b) == [a, b]
  {
    var t := " " + b;
    var s := a + t;
    assert a + " " + b == s;
    WordLengthOf(a, t);
    assert !IsSpace(s[0]);
    assert s[..|a|] == a && s[|a|..] == t;
    assert Words(s) == [a] + Words(t);
    assert t[1..] == b;
    assert Words(t) == Words(b);
    WordOnly(b);
  }

  /** A single word is its own `split_whitespace`. */
  lemma WordOnly(b: string)
    requires |b| > 0 && NoSpace(b)
    ensures Words(b) == [b]
  {
    WordLengthOf(b, []);
    assert b + [] == b;
    assert b[..|b|] == b && b[|b|..] == [];
  }

  /** The words of `split_whitespace` hold no whitespace. */
  lemma {:induction false} WordsNoSpace(s: string)
    ensures forall k :: 0 <= k < |Words(s)| ==> NoSpace(Words(s)[k])
    decreases |s|
  {
    if s != [] {
      if IsSpace(s[0]) {
        WordsNoSpace(s[1..]);
      } else {
        var n := WordLength(s);
        WordPrefixNoSpace(s);
        WordsNoSpace(s[n..]);
        var ws := Words(s);
        assert forall k :: 1 <= k < |ws| ==> ws[k] == Words(s[n..])[k - 1];
      }
    }
  }

  lemma {:induction false} WordPrefixNoSpace(s: string)
    ensures NoSpace(s[..WordLength(s)])
    decreases |s|
  {
    if s != [] && !IsSpace(s[0]) {
      WordPrefixNoSpace(s[1..]);
      assert s[..WordLength(s)] == [s[0]] + s[1..][..WordLength(s[1..])];
    }
  }

  /** A one-character pattern occurs exactly where that character is. */
  lemma CharAt(s: string, c: char, j: nat)
    ensures HasPrefixAt(s, [c], j) <==> j < |s| && s[j] == c
  {
    if j < |s| {
      assert s[j..j + 1] == [s[j]];
    }
  }

  /** `find` returns the first occurrence. */
  lemma FindFirst(s: string, pat: string, i: nat)
    requires HasPrefixAt(s, pat, i) && forall j :: 0 <= j < i ==> !HasPrefixAt(s, pat, j)
    ensures Find(s, pat) == Some(i)
  {
  }

  /** The first separator of a + [c] + b is the first one of a, or else the one after a. */
  lemma FindJoined(a: string, c: char, b: string)
    ensures Find(a, [c]).None? ==> Find(a + [c] + b, [c]) == Some(|a|)
    ensures Find(a, [c]).Some? ==> Find(a + [c] + b, [c]) == Find(a, [c])
  {
    var s := a + [c] + b;
    CharAt(s, c, |a|);
    var k := if Find(a, [c]).Some? then Find(a, [c]).value else |a|;
    CharAt(a, c, k);
    CharAt(s, c, k);
    forall j | 0 <= j < k ensures !HasPrefixAt(s, [c], j) {
      CharAt(a, c, j);
      CharAt(s, c, j);
    }
    FindFirst(s, [c], k);
  }

  /** Splitting at a single-character separator distributes over a join at that separator. */
  lemma {:induction false} SplitAppend(a: string, c: char, b: string)
    ensures Split(a + [c] + b, [c]) == Split(a, [c]) + Split(b, [c])
    decreases |a|, 1
  {
    var s := a + [c] + b;
    FindJoined(a, c, b);
    if Find(a, [c]).None? {
      assert s[..|a|] == a && s[|a| + 1..] == b;
    } else {
      SplitAppendAfter(a, c, b, Find(a, [c]).value);
    }
  }

  lemma AppendAssoc<T>(x: seq<T>, y: seq<T>, z: seq<T>)
    ensures x + (y + z) == (x + y) + z
  {
  }

  /** Where `find` locates the separator, the first piece ends. */
  lemma SplitAt(s: string, sep: string, i: nat)
    requires |sep| > 0 && Find(s, sep) == Some(i)
    ensures Split(s, sep) == [s[..i]] + Split(s[i + |sep|..], sep)
  {
  }

  /** The case where a holds a separator at i: both splits start with a[..i]. */
  lemma {:induction false} SplitAppendAfter(a: string, c: char, b: string, i: nat)
    requires Find(a, [c]) == Some(i)
    ensures Split(a + [c] + b, [c]) == Split(a, [c]) + Split(b, [c])
    decreases |a|, 0
  {
    var s := a + [c] + b;
    FindJoined(a, c, b);
    SplitAt(s, [c], i);
    SplitAt(a, [c], i);
    SplitAppend(a[i + 1..], c, b);
    assert s[..i] == a[..i] && s[i + 1..] == a[i + 1..] + [c] + b;
    AppendAssoc([a[..i]], Split(a[i + 1..], [c]), Split(b, [c]));
  }
}
