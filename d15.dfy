/**
 * The lens library (src/bin/d15.rs): a 256-bucket hash table whose buckets
 * are vectors of optional lenses, where removal leaves a tombstone.
 */
module D15 {
  import opened Text

  type Byte = b: nat | b < 256

  /** ASCII text, whose UTF-8 bytes are its character codes. */
  predicate Ascii(s: string) {
    forall i :: 0 <= i < |s| ==> s[i] as int < 128
  }

  function Bytes(s: string): (bs: seq<Byte>)
    requires Ascii(s)
    ensures |bs| == |s| && forall i :: 0 <= i < |s| ==> bs[i] == s[i] as int
  {
    seq(|s|, i requires 0 <= i < |s| => s[i] as int)
  }

  // ---------------------------------------------------------------------
  // hash
  // ---------------------------------------------------------------------

  /** The HASH fold: cur = (cur + byte) * 17 mod 256, from 0. */
  function HashOf(bs: seq<Byte>): (h: nat)
    ensures h < 256
  {
    if bs == [] then 0 else (HashOf(bs[..|bs| - 1]) + bs[|bs| - 1]) * 17 % 256
  }

  /** The same fold without reduction: the polynomial sum of bytes times powers of 17. */
  function Poly(bs: seq<Byte>): nat {
    if bs == [] then 0 else (Poly(bs[..|bs| - 1]) + bs[|bs| - 1]) * 17
  }

  lemma ModStep(a: nat, b: nat)
    ensures (a % 256 + b) * 17 % 256 == (a + b) * 17 % 256
  {
    var q, r := a / 256, a % 256;
    assert a == 256 * q + r;
    assert (a + b) * 17 == 256 * (17 * q) + (r + b) * 17;
  }

  /** Reducing at every step or once at the end gives the same hash. */
  lemma {:induction false} HashIsPolyMod(bs: seq<Byte>)
    ensures HashOf(bs) == Poly(bs) % 256
  {
    if bs != [] {
      HashIsPolyMod(bs[..|bs| - 1]);
      ModStep(Poly(bs[..|bs| - 1]), bs[|bs| - 1]);
    }
  }

  /** The puzzle's worked example: "HASH" hashes to 52. */
  lemma HashExample()
    ensures HashOf(Bytes("HASH")) == 52
  {
    var bs := Bytes("HASH");
    assert bs == [72, 65, 83, 72];
    assert bs[..3] == [72, 65, 83] && bs[..3][..2] == [72, 65] && bs[..3][..2][..1] == [72];
    assert HashOf([72]) == 200;
    assert HashOf([72, 65]) == 153;
    assert HashOf([72, 65, 83]) == 172;
  }

  /** `hash`: the byte loop. */
  method Hash(value: seq<Byte>) returns (h: nat)
    ensures h == HashOf(value) && h < 256
  {
    h := 0;
    for i := 0 to |value|
      invariant h == HashOf(value[..i])
    {
      assert value[..i + 1][..i] == value[..i];
      h := (h + value[i]) * 17 % 256;
    }
    assert value[..|value|] == value;
  }

  /** `solution_1`: the sum of the hashes of the comma-separated steps. */
  function HashSum(steps: seq<string>): (total: nat)
    requires forall k :: 0 <= k < |steps| ==> Ascii(steps[k])
    ensures total < 256 * |steps| || steps == []
  {
    if steps == [] then 0
    else
      var rest := HashSum(steps[..|steps| - 1]);
      rest + HashOf(Bytes(steps[|steps| - 1]))
  }

  // ---------------------------------------------------------------------
  // Boxes of lenses
  // ---------------------------------------------------------------------

  datatype Lens = Lens(name: string, focal: nat)

  /** The slot holds a lens with this label. */
  predicate Carries(slot: Option<Lens>, name: string) {
    slot.Some? && slot.value.name == name
  }

  predicate Present(lenses: seq<Option<Lens>>, name: string) {
    exists i :: 0 <= i < |lenses| && Carries(lenses[i], name)
  }

  /** `insert` on a box: overwrite every slot with the label, or append when there is none. */
  function Inserted(lenses: seq<Option<Lens>>, name: string, focal: nat): (r: seq<Option<Lens>>)
    ensures Present(lenses, name) ==> |r| == |lenses|
    ensures !Present(lenses, name) ==> r == lenses + [Some(Lens(name, focal))]
    ensures forall i :: 0 <= i < |lenses| ==>
      r[i] == (if Carries(lenses[i], name) then Some(Lens(name, focal)) else lenses[i])
    ensures exists i :: 0 <= i < |r| && r[i] == Some(Lens(name, focal))
  {
    if Present(lenses, name) then
      var r := seq(|lenses|, i requires 0 <= i < |lenses| =>
        if Carries(lenses[i], name) then Some(Lens(name, focal)) else lenses[i]);
      var i :| 0 <= i < |lenses| && Carries(lenses[i], name);
      assert r[i] == Some(Lens(name, focal));
      r
    else
      var r := lenses + [Some(Lens(name, focal))];
      assert r[|lenses|] == Some(Lens(name, focal));
      r
  }

  /** `remove` on a box: every slot with the label becomes a tombstone. */
  function Removed(lenses: seq<Option<Lens>>, name: string): (r: seq<Option<Lens>>)
    ensures |r| == |lenses|
    ensures forall i :: 0 <= i < |lenses| ==> r[i] == (if Carries(lenses[i], name) then None else lenses[i])
    ensures !Present(r, name)
  {
    seq(|lenses|, i requires 0 <= i < |lenses| => if Carries(lenses[i], name) then None else lenses[i])
  }

  /** The lenses in the box, in slot order, tombstones skipped. */
  function Live(lenses: seq<Option<Lens>>): (live: seq<Lens>)
    ensures |live| <= |lenses|
  {
    if lenses == [] then []
    else
      var rest := Live(lenses[..|lenses| - 1]);
      match lenses[|lenses| - 1]
      case None => rest
      case Some(l) => rest + [l]
  }

  /** The abstract box: the ordered list with the label's lens deleted. */
  function Without(live: seq<Lens>, name: string): (r: seq<Lens>)
    ensures forall i :: 0 <= i < |r| ==> r[i].name != name
  {
    if live == [] then []
    else
      var rest := Without(live[..|live| - 1], name);
      if live[|live| - 1].name == name then rest else rest + [live[|live| - 1]]
  }

  /** The abstract box: the label's lens replaced in place. */
  function Replaced(live: seq<Lens>, name: string, focal: nat): (r: seq<Lens>)
    ensures |r| == |live|
  {
    seq(|live|, i requires 0 <= i < |live| => if live[i].name == name then Lens(name, focal) else live[i])
  }

  predicate Labelled(live: seq<Lens>, name: string) {
    exists i :: 0 <= i < |live| && live[i].name == name
  }

  lemma {:induction false} LivePresent(lenses: seq<Option<Lens>>, name: string)
    ensures Present(lenses, name) <==> Labelled(Live(lenses), name)
  {
    if lenses != [] {
      var init := lenses[..|lenses| - 1];
      LivePresent(init, name);
      if Present(lenses, name) {
        var i :| 0 <= i < |lenses| && Carries(lenses[i], name);
        if i < |init| {
          assert Carries(init[i], name);
          var j :| 0 <= j < |Live(init)| && Live(init)[j].name == name;
          assert Live(lenses)[j] == Live(init)[j];
        } else {
          assert Live(lenses)[|Live(lenses)| - 1].name == name;
        }
      }
      if Labelled(Live(lenses), name) {
        var j :| 0 <= j < |Live(lenses)| && Live(lenses)[j].name == name;
        if j < |Live(init)| {
          assert Live(init)[j] == Live(lenses)[j];
          var i :| 0 <= i < |init| && Carries(init[i], name);
          assert lenses[i] == init[i];
        } else {
          assert Carries(lenses[|lenses| - 1], name);
        }
      }
    }
  }

  /** Removing from the tombstoned vector is deleting from the ordered list of live lenses. */
  lemma {:induction false} LiveRemoved(lenses: seq<Option<Lens>>, name: string)
    ensures Live(Removed(lenses, name)) == Without(Live(lenses), name)
  {
    if lenses != [] {
      var init := lenses[..|lenses| - 1];
      assert Removed(lenses, name)[..|lenses| - 1] == Removed(init, name);
      LiveRemoved(init, name);
    }
  }

  /** Overwriting slots in the tombstoned vector is replacing in the live list. */
  lemma {:induction false} LiveOverwritten(lenses: seq<Option<Lens>>, name: string, focal: nat)
    ensures Live(seq(|lenses|, i requires 0 <= i < |lenses| =>
      if Carries(lenses[i], name) then Some(Lens(name, focal)) else lenses[i]))
      == Replaced(Live(lenses), name, focal)
  {
    var r := seq(|lenses|, i requires 0 <= i < |lenses| =>
      if Carries(lenses[i], name) then Some(Lens(name, focal)) else lenses[i]);
    if lenses != [] {
      var init := lenses[..|lenses| - 1];
      var rInit := seq(|init|, i requires 0 <= i < |init| =>
        if Carries(init[i], name) then Some(Lens(name, focal)) else init[i]);
      assert r[..|r| - 1] == rInit;
      LiveOverwritten(init, name, focal);
    }
  }

  /**
   * Inserting into the tombstoned vector is, on the live list, replacing the
   * labelled lens in place when there is one and appending otherwise.
   */
  lemma LiveInserted(lenses: seq<Option<Lens>>, name: string, focal: nat)
    ensures Live(Inserted(lenses, name, focal)) ==
      if Labelled(Live(lenses), name) then Replaced(Live(lenses), name, focal)
      else Live(lenses) + [Lens(name, focal)]
  {
    LivePresent(lenses, name);
    if Present(lenses, name) {
      LiveOverwritten(lenses, name, focal);
    } else {
      var r := lenses + [Some(Lens(name, focal))];
      assert r[..|r| - 1] == lenses;
    }
  }

  /** A box: a vector of optional lenses that `insert` and `remove` update in place. */
  class Boxx {
    var lenses: seq<Option<Lens>>

    constructor ()
      ensures lenses == []
    {
      lenses := [];
    }

    /** `Boxx::insert`. */
    method Insert(name: string, focal: nat)
      modifies this
      ensures lenses == Inserted(old(lenses), name, focal)
    {
      var lensExists := false;
      ghost var before := lenses;
      for i := 0 to |lenses|
        invariant |lenses| == |before|
        invariant forall j :: 0 <= j < i ==>
          lenses[j] == (if Carries(before[j], name) then Some(Lens(name, focal)) else before[j])
        invariant forall j :: i <= j < |lenses| ==> lenses[j] == before[j]
        invariant lensExists <==> exists j :: 0 <= j < i && Carries(before[j], name)
      {
        if lenses[i].Some? && lenses[i].value.name == name {
          lenses := lenses[i := Some(Lens(name, focal))];
          lensExists := true;
        }
      }
      if !lensExists {
        lenses := lenses + [Some(Lens(name, focal))];
      }
    }

    /** `Boxx::remove`. */
    method Remove(name: string)
      modifies this
      ensures lenses == Removed(old(lenses), name)
    {
      ghost var before := lenses;
      for i := 0 to |lenses|
        invariant |lenses| == |before|
        invariant forall j :: 0 <= j < i ==> lenses[j] == (if Carries(before[j], name) then None else before[j])
        invariant forall j :: i <= j < |lenses| ==> lenses[j] == before[j]
      {
        if lenses[i].Some? && lenses[i].value.name == name {
          lenses := lenses[i := None];
        }
      }
    }
  }

  // ---------------------------------------------------------------------
  // Operations and the table
  // ---------------------------------------------------------------------

  datatype Op = Put(name: string, focal: nat) | Take(name: string)

  /** The position of the operator: the first '=', else the first '-'. */
  function OpPos(s: string): (p: Option<nat>)
    ensures p.None? <==> '=' !in s && '-' !in s
    ensures p.Some? ==> p.value < |s| && (s[p.value] == '=' || s[p.value] == '-')
    ensures p.Some? ==> (s[p.value] == '=' <==> '=' in s)
  {
    match IndexOf(s, '=')
    case Some(p) => Some(p)
    case None => IndexOf(s, '-')
  }

  /** A step the dispatch accepts: an operator, and after '=' a one-digit focal length. */
  predicate WellFormedOp(s: string) {
    Ascii(s) && OpPos(s).Some? &&
    (s[OpPos(s).value] == '=' ==> OpPos(s).value + 2 <= |s| && IsDigit(s[OpPos(s).value + 1]))
  }

  /** The operation dispatch: the label before the operator, '=' puts and '-' takes. */
  function ParseOp(s: string): (op: Op)
    requires WellFormedOp(s)
    ensures op.name == s[..OpPos(s).value]
    ensures op.Put? <==> '=' in s
    ensures op.Put? ==> op.focal == DigitValue(s[OpPos(s).value + 1])
  {
    var p := OpPos(s).value;
    if s[p] == '=' then Put(s[..p], DigitValue(s[p + 1])) else Take(s[..p])
  }

  /** The box an operation goes to: the hash of its label. */
  function BoxOf(op: Op): (b: nat)
    requires Ascii(op.name)
    ensures b < 256
  {
    HashOf(Bytes(op.name))
  }

  predicate AsciiOps(ops: seq<Op>) {
    forall k :: 0 <= k < |ops| ==> Ascii(ops[k].name)
  }

  function ApplyOp(box: seq<Option<Lens>>, op: Op): seq<Option<Lens>> {
    match op
    case Put(l, f) => Inserted(box, l, f)
    case Take(l) => Removed(box, l)
  }

  /** The 256 boxes after running the operations in order from empty boxes. */
  function Table(ops: seq<Op>): (t: seq<seq<Option<Lens>>>)
    requires AsciiOps(ops)
    ensures |t| == 256
  {
    if ops == [] then Repeat([], 256)
    else
      var prev := Table(ops[..|ops| - 1]);
      var op := ops[|ops| - 1];
      prev[BoxOf(op) := ApplyOp(prev[BoxOf(op)], op)]
  }

  /** An operation only touches the box its label hashes to. */
  lemma TableStep(ops: seq<Op>, b: nat)
    requires AsciiOps(ops) && ops != [] && b < 256
    ensures Table(ops)[b] == if b == BoxOf(ops[|ops| - 1]) then
      ApplyOp(Table(ops[..|ops| - 1])[b], ops[|ops| - 1]) else Table(ops[..|ops| - 1])[b]
  {
  }

  /** (box+1)·(slot+1)·focal summed over a box's live lenses, slots counted among live ones. */
  function BoxPower(live: seq<Lens>, b: nat): nat {
    if live == [] then 0 else BoxPower(live[..|live| - 1], b) + (b + 1) * |live| * live[|live| - 1].focal
  }

  /** The focusing power of boxes t[..n]. */
  function Power(t: seq<seq<Option<Lens>>>, n: nat): nat
    requires n <= |t|
  {
    if n == 0 then 0 else Power(t, n - 1) + BoxPower(Live(t[n - 1]), n - 1)
  }

  /** A box without lenses adds nothing; a tombstone-only box neither. */
  lemma {:induction false} EmptyBoxPower(lenses: seq<Option<Lens>>, b: nat)
    requires forall i :: 0 <= i < |lenses| ==> lenses[i].None?
    ensures Live(lenses) == [] && BoxPower(Live(lenses), b) == 0
  {
    if lenses != [] {
      EmptyBoxPower(lenses[..|lenses| - 1], b);
    }
  }

  lemma BoxPowerStep(lenses: seq<Option<Lens>>, i: nat, b: nat)
    requires i < |lenses|
    ensures lenses[i].None? ==> Live(lenses[..i + 1]) == Live(lenses[..i])
    ensures lenses[i].Some? ==> Live(lenses[..i + 1]) == Live(lenses[..i]) + [lenses[i].value]
    ensures lenses[i].Some? ==>
      BoxPower(Live(lenses[..i + 1]), b) == BoxPower(Live(lenses[..i]), b) + (b + 1) * (|Live(lenses[..i])| + 1) * lenses[i].value.focal
  {
    assert lenses[..i + 1][..i] == lenses[..i];
    var live := Live(lenses[..i + 1]);
    if lenses[i].Some? {
      assert live[..|live| - 1] == Live(lenses[..i]);
    }
  }

  /** The focusing-power loop over one box: slots count only the live lenses. */
  method BoxFocus(lenses: seq<Option<Lens>>, b: nat) returns (sum: nat)
    ensures sum == BoxPower(Live(lenses), b)
  {
    sum := 0;
    var slot := 0;
    for i := 0 to |lenses|
      invariant slot == |Live(lenses[..i])|
      invariant sum == BoxPower(Live(lenses[..i]), b)
    {
      BoxPowerStep(lenses, i, b);
      if lenses[i].Some? {
        slot := slot + 1;
        sum := sum + (b + 1) * slot * lenses[i].value.focal;
      }
    }
    assert lenses[..|lenses|] == lenses;
  }

  /** The steps of the initialisation sequence and what each one does. */
  predicate WellFormedSteps(text: string) {
    forall k :: 0 <= k < |Split(text, ",")| ==> WellFormedOp(Split(text, ",")[k])
  }

  function Ops(text: string): (ops: seq<Op>)
    requires WellFormedSteps(text)
    ensures |ops| == |Split(text, ",")| && AsciiOps(ops)
    ensures forall k :: 0 <= k < |ops| ==> ops[k] == ParseOp(Split(text, ",")[k])
  {
    var steps := Split(text, ",");
    var ops := seq(|steps|, k requires 0 <= k < |steps| => ParseOp(steps[k]));
    assert forall k :: 0 <= k < |ops| ==> Ascii(ops[k].name) by {
      forall k | 0 <= k < |ops| ensures Ascii(ops[k].name) {
        assert ops[k].name == steps[k][..OpPos(steps[k]).value];
      }
    }
    ops
  }

  /** `vec![Boxx { lenses: Vec::new() }; 256]`: 256 distinct empty boxes. */
  method NewBoxes() returns (boxes: seq<Boxx>)
    ensures |boxes| == 256
    ensures forall j :: 0 <= j < 256 ==> fresh(boxes[j]) && boxes[j].lenses == []
    ensures forall j, k :: 0 <= j < k < 256 ==> boxes[j] != boxes[k]
  {
    boxes := [];
    for i := 0 to 256
      invariant |boxes| == i
      invariant forall j :: 0 <= j < i ==> fresh(boxes[j]) && boxes[j].lenses == []
      invariant forall j, k :: 0 <= j < k < i ==> boxes[j] != boxes[k]
    {
      var b := new Boxx();
      boxes := boxes + [b];
    }
  }

  /** The operation loop of `solution_2`: each operation goes to the box its label hashes to. */
  method RunOps(boxes: seq<Boxx>, ops: seq<Op>)
    requires |boxes| == 256 && AsciiOps(ops)
    requires forall j, k :: 0 <= j < k < 256 ==> boxes[j] != boxes[k]
    requires forall j :: 0 <= j < 256 ==> boxes[j].lenses == []
    modifies set j | 0 <= j < 256 :: boxes[j]
    ensures forall j :: 0 <= j < 256 ==> boxes[j].lenses == Table(ops)[j]
  {
    assert Table(ops[..0]) == Repeat([], 256);
    for k := 0 to |ops|
      invariant forall j :: 0 <= j < 256 ==> boxes[j].lenses == Table(ops[..k])[j]
    {
      assert ops[..k + 1][..k] == ops[..k];
      var op := ops[k];
      var bytes := Bytes(op.name);
      var bx := Hash(bytes);
      match op
      case Put(l, f) => boxes[bx].Insert(l, f);
      case Take(l) => boxes[bx].Remove(l);
      forall j | 0 <= j < 256 ensures boxes[j].lenses == Table(ops[..k + 1])[j] {
        TableStep(ops[..k + 1], j);
      }
    }
    assert ops[..|ops|] == ops;
  }

  /** `solution_2`: run the operations on 256 fresh boxes, then sum the focusing power. */
  method Solution2(text: string) returns (total: nat)
    requires WellFormedSteps(text)
    ensures total == Power(Table(Ops(text)), 256)
  {
    var boxes := NewBoxes();
    var ops := Ops(text);
    RunOps(boxes, ops);
    total := 0;
    ghost var t := Table(ops);
    for b := 0 to 256
      invariant forall j :: 0 <= j < 256 ==> boxes[j].lenses == t[j]
      invariant total == Power(t, b)
    {
      var sum := BoxFocus(boxes[b].lenses, b);
      total := total + sum;
    }
  }
}
