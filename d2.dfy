/**
 * Cube conundrum (src/bin/d2.rs): each game line lists draws of coloured
 * cubes; a game is summarised by the largest count seen of each colour,
 * which decides whether the game was possible with a given bag and gives
 * the game's power.
 */
module D2 {
  import opened Text

  datatype Colour = Red | Green | Blue

  /** One "<n> <colour>" entry of a draw. */
  datatype Cubes = Cubes(n: nat, colour: Colour)

  /** `Game`: the id and the largest count seen of each colour. */
  datatype Game = Game(id: nat, red: nat, green: nat, blue: nat)

  // ---------------------------------------------------------------------
  // Parsing
  // ---------------------------------------------------------------------

  /** The colour names the match in `Game::from` knows; any other is unreachable. */
  function ColourOf(s: string): Option<Colour> {
    if s == "red" then Some(Red)
    else if s == "green" then Some(Green)
    else if s == "blue" then Some(Blue)
    else None
  }

  predicate ValidCubes(val: string) {
    var pair := Split(val, " ");
    |pair| >= 2 && IsNat(pair[0]) && ColourOf(pair[1]).Some?
  }

  function ParseCubes(val: string): Cubes
    requires ValidCubes(val)
  {
    var pair := Split(val, " ");
    Cubes(NatValue(pair[0]), ColourOf(pair[1]).value)
  }

  predicate ValidDraw(draw: string) {
    forall k :: 0 <= k < |Split(draw, ", ")| ==> ValidCubes(Split(draw, ", ")[k])
  }

  /** The entries of one draw, split at ", ". */
  function Draw(draw: string): (cs: seq<Cubes>)
    requires ValidDraw(draw)
    ensures |cs| == |Split(draw, ", ")|
  {
    var vals := Split(draw, ", ");
    seq(|vals|, k requires 0 <= k < |vals| => ParseCubes(vals[k]))
  }

  predicate ValidDraws(ds: seq<string>) {
    forall k :: 0 <= k < |ds| ==> ValidDraw(ds[k])
  }

  /** All entries of all draws, in the order they are read. */
  function Flat(ds: seq<string>): seq<Cubes>
    requires ValidDraws(ds)
  {
    if ds == [] then [] else Flat(ds[..|ds| - 1]) + Draw(ds[|ds| - 1])
  }

  /** A line `Game::from` accepts: "Game <id>: " and draws split at "; ". */
  predicate WellFormed(line: string) {
    var halves := Split(line, ": ");
    |halves| >= 2 && |Split(halves[0], " ")| >= 2 && IsNat(Split(halves[0], " ")[1]) &&
    ValidDraws(Split(halves[1], "; "))
  }

  function Id(line: string): nat
    requires WellFormed(line)
  {
    NatValue(Split(Split(line, ": ")[0], " ")[1])
  }

  /** Every entry shown in the game, draw after draw. */
  function Shown(line: string): seq<Cubes>
    requires WellFormed(line)
  {
    Flat(Split(Split(line, ": ")[1], "; "))
  }

  // ---------------------------------------------------------------------
  // The largest count per colour
  // ---------------------------------------------------------------------

  function Max(a: nat, b: nat): nat {
    if a >= b then a else b
  }

  /** The largest count shown for colour c, or 0 when c is never shown. */
  function Most(shown: seq<Cubes>, c: Colour): (m: nat)
    ensures forall k :: 0 <= k < |shown| && shown[k].colour == c ==> shown[k].n <= m
    ensures m == 0 || exists k :: 0 <= k < |shown| && shown[k].colour == c && shown[k].n == m
  {
    if shown == [] then 0
    else
      var last := shown[|shown| - 1];
      Max(Most(shown[..|shown| - 1], c), if last.colour == c then last.n else 0)
  }

  /** A bound that is reached (or zero) is the largest count. */
  lemma MostUnique(shown: seq<Cubes>, c: Colour, m: nat)
    requires forall k :: 0 <= k < |shown| && shown[k].colour == c ==> shown[k].n <= m
    requires m == 0 || exists k :: 0 <= k < |shown| && shown[k].colour == c && shown[k].n == m
    ensures Most(shown, c) == m
  {
  }

  /** The largest count depends only on which entries were shown, not on their order or repetition. */
  lemma MostOrderFree(a: seq<Cubes>, b: seq<Cubes>, c: Colour)
    requires forall x :: x in a <==> x in b
    ensures Most(a, c) == Most(b, c)
  {
    var ma, mb := Most(a, c), Most(b, c);
    if ma != 0 {
      var k :| 0 <= k < |a| && a[k].colour == c && a[k].n == ma;
      assert a[k] in b;
    }
    if mb != 0 {
      var k :| 0 <= k < |b| && b[k].colour == c && b[k].n == mb;
      assert b[k] in a;
    }
  }

  /** Grouping entries into draws does not matter: the largest count of a concatenation is the larger one. */
  lemma MostAppend(a: seq<Cubes>, b: seq<Cubes>, c: Colour)
    ensures Most(a + b, c) == Max(Most(a, c), Most(b, c))
  {
    var m := Max(Most(a, c), Most(b, c));
    forall k | 0 <= k < |a + b| && (a + b)[k].colour == c ensures (a + b)[k].n <= m {
      if k >= |a| {
        assert (a + b)[k] == b[k - |a|];
      }
    }
    if m != 0 {
      if m == Most(a, c) {
        var k :| 0 <= k < |a| && a[k].colour == c && a[k].n == m;
        assert (a + b)[k] == a[k];
      } else {
        var k :| 0 <= k < |b| && b[k].colour == c && b[k].n == m;
        assert (a + b)[|a| + k] == b[k];
      }
    }
    MostUnique(a + b, c, m);
  }

  /** The game a line describes. */
  function GameOf(line: string): Game
    requires WellFormed(line)
  {
    Game(Id(line), Most(Shown(line), Red), Most(Shown(line), Green), Most(Shown(line), Blue))
  }

  /** One entry's update in `Game::from`: the entry's colour takes the larger count. */
  function Record(game: Game, cube: Cubes): Game {
    match cube.colour
    case Red => game.(red := Max(game.red, cube.n))
    case Green => game.(green := Max(game.green, cube.n))
    case Blue => game.(blue := Max(game.blue, cube.n))
  }

  predicate Summarises(game: Game, id: nat, shown: seq<Cubes>) {
    game == Game(id, Most(shown, Red), Most(shown, Green), Most(shown, Blue))
  }

  lemma RecordStep(game: Game, id: nat, shown: seq<Cubes>, cube: Cubes)
    requires Summarises(game, id, shown)
    ensures Summarises(Record(game, cube), id, shown + [cube])
  {
    assert (shown + [cube])[..|shown|] == shown;
  }

  /** The closure `Game::from` runs on one draw: each entry raises its colour's maximum. */
  method RecordDraw(game0: Game, ghost id: nat, ghost before: seq<Cubes>, draw: string) returns (game: Game)
    requires ValidDraw(draw) && Summarises(game0, id, before)
    ensures Summarises(game, id, before + Draw(draw))
  {
    game := game0;
    var vals := Split(draw, ", ");
    ghost var cubes := Draw(draw);
    ghost var shown := before;
    for j := 0 to |vals|
      invariant shown == before + cubes[..j] && Summarises(game, id, shown)
    {
      var cube := ParseCubes(vals[j]);
      assert cube == cubes[j];
      RecordStep(game, id, shown, cube);
      game := Record(game, cube);
      PrefixSnoc(before, cubes, j);
      shown := shown + [cube];
    }
    assert cubes[..|vals|] == cubes;
  }

  lemma PrefixSnoc(before: seq<Cubes>, cubes: seq<Cubes>, j: nat)
    requires j < |cubes|
    ensures before + cubes[..j] + [cubes[j]] == before + cubes[..j + 1]
  {
    assert cubes[..j + 1] == cubes[..j] + [cubes[j]];
  }

  /** One more draw adds its entries. */
  lemma FlatSnoc(ds: seq<string>, i: nat)
    requires ValidDraws(ds) && i < |ds|
    ensures ValidDraws(ds[..i]) && ValidDraw(ds[i])
    ensures Flat(ds[..i + 1]) == Flat(ds[..i]) + Draw(ds[i])
  {
    assert ds[..i + 1][..i] == ds[..i];
  }

  /** `Game::from`: the id, then every entry of every draw raises its colour's maximum. */
  method ParseGame(line: string) returns (game: Game)
    requires WellFormed(line)
    ensures game == GameOf(line)
  {
    var gameStr := Split(line, ": ");
    var id := NatValue(Split(gameStr[0], " ")[1]);
    game := Game(id, 0, 0, 0);
    var draws := Split(gameStr[1], "; ");
    for i := 0 to |draws|
      invariant Summarises(game, id, Flat(draws[..i]))
    {
      FlatSnoc(draws, i);
      game := RecordDraw(game, id, Flat(draws[..i]), draws[i]);
    }
    assert draws[..|draws|] == draws;
  }

  // ---------------------------------------------------------------------
  // Possible games and power
  // ---------------------------------------------------------------------

  /** `max_game`: the bag of 12 red, 13 green and 14 blue cubes. */
  const Bag: Game := Game(0, 12, 13, 14)

  function Limit(bag: Game, c: Colour): nat {
    match c
    case Red => bag.red
    case Green => bag.green
    case Blue => bag.blue
  }

  /** The comparison of `solution_1`: no colour was seen more often than the bag holds. */
  predicate Possible(game: Game)
    ensures Possible(game) <==> forall c :: Limit(game, c) <= Limit(Bag, c)
  {
    assert Limit(game, Red) == game.red && Limit(game, Green) == game.green && Limit(game, Blue) == game.blue;
    game.red <= Bag.red && game.green <= Bag.green && game.blue <= Bag.blue
  }

  /** Every entry shown fits in the bag. */
  predicate Fits(shown: seq<Cubes>, bag: Game) {
    forall k :: 0 <= k < |shown| ==> shown[k].n <= Limit(bag, shown[k].colour)
  }

  lemma MostFits(shown: seq<Cubes>, bag: Game, c: Colour)
    requires Fits(shown, bag)
    ensures Most(shown, c) <= Limit(bag, c)
  {
    if Most(shown, c) != 0 {
      var k :| 0 <= k < |shown| && shown[k].colour == c && shown[k].n == Most(shown, c);
    }
  }

  /** A game is possible exactly when every draw could have come from the bag. */
  lemma PossibleMeaning(line: string)
    requires WellFormed(line)
    ensures Possible(GameOf(line)) <==> Fits(Shown(line), Bag)
  {
    var shown := Shown(line);
    if Fits(shown, Bag) {
      MostFits(shown, Bag, Red);
      MostFits(shown, Bag, Green);
      MostFits(shown, Bag, Blue);
    }
  }

  /** `power`: zero exactly when some colour was never seen. */
  function Power(game: Game): (p: nat)
    ensures p == 0 <==> game.red == 0 || game.green == 0 || game.blue == 0
  {
    if game.red == 0 || game.green == 0 || game.blue == 0 then 0
    else
      assert game.red * game.green >= 1;
      game.red * game.green * game.blue
  }

  lemma MulMono(a: nat, b: nat, c: nat, x: nat, y: nat, z: nat)
    requires a <= x && b <= y && c <= z
    ensures a * b * c <= x * y * z
  {
    MulLe(a, x, b);
    MulLe(b, y, x);
    MulLe(a * b, x * y, c);
    MulLe(c, z, x * y);
  }

  /** The game's maxima form the smallest bag its draws fit, so its power is the least any such bag has. */
  lemma PowerIsLeast(line: string, bag: Game)
    requires WellFormed(line)
    ensures Fits(Shown(line), GameOf(line))
    ensures Fits(Shown(line), bag) ==> Power(GameOf(line)) <= Power(bag)
  {
    var shown, g := Shown(line), GameOf(line);
    forall k | 0 <= k < |shown| ensures shown[k].n <= Limit(g, shown[k].colour) {
    }
    if Fits(shown, bag) {
      MostFits(shown, bag, Red);
      MostFits(shown, bag, Green);
      MostFits(shown, bag, Blue);
      MulMono(g.red, g.green, g.blue, bag.red, bag.green, bag.blue);
    }
  }

  // ---------------------------------------------------------------------
  // Solutions
  // ---------------------------------------------------------------------

  predicate AllWellFormed(ls: seq<string>) {
    forall k :: 0 <= k < |ls| ==> WellFormed(ls[k])
  }

  function PossibleIds(ls: seq<string>): nat
    requires AllWellFormed(ls)
  {
    if ls == [] then 0
    else PossibleIds(ls[..|ls| - 1]) + IdIfPossible(GameOf(ls[|ls| - 1]))
  }

  /** What one game adds in `solution_1`: its id when it is possible, else nothing. */
  function IdIfPossible(game: Game): nat {
    if Possible(game) then game.id else 0
  }

  function Powers(ls: seq<string>): nat
    requires AllWellFormed(ls)
  {
    if ls == [] then 0 else Powers(ls[..|ls| - 1]) + Power(GameOf(ls[|ls| - 1]))
  }

  lemma PossibleIdsSnoc(ls: seq<string>, k: nat)
    requires AllWellFormed(ls) && k < |ls|
    ensures AllWellFormed(ls[..k]) && AllWellFormed(ls[..k + 1])
    ensures PossibleIds(ls[..k + 1]) == PossibleIds(ls[..k]) + IdIfPossible(GameOf(ls[k]))
  {
    assert ls[..k + 1][..k] == ls[..k];
  }

  lemma PowersSnoc(ls: seq<string>, k: nat)
    requires AllWellFormed(ls) && k < |ls|
    ensures AllWellFormed(ls[..k]) && AllWellFormed(ls[..k + 1])
    ensures Powers(ls[..k + 1]) == Powers(ls[..k]) + Power(GameOf(ls[k]))
  {
    assert ls[..k + 1][..k] == ls[..k];
  }

  /** `solution_1`: the ids of the possible games, added. */
  method Solution1(text: string) returns (total: nat)
    requires AllWellFormed(Lines(text))
    ensures total == PossibleIds(Lines(text))
  {
    var ls := Lines(text);
    total := 0;
    for k := 0 to |ls|
      invariant total == PossibleIds(ls[..k])
    {
      var game := ParseGame(ls[k]);
      PossibleIdsSnoc(ls, k);
      total := total + IdIfPossible(game);
    }
    assert ls[..|ls|] == ls;
  }

  /** `solution_2`: the powers of all games, added. */
  method Solution2(text: string) returns (total: nat)
    requires AllWellFormed(Lines(text))
    ensures total == Powers(Lines(text))
  {
    var ls := Lines(text);
    total := 0;
    for k := 0 to |ls|
      invariant total == Powers(ls[..k])
    {
      var game := ParseGame(ls[k]);
      PowersSnoc(ls, k);
      total := total + Power(game);
    }
    assert ls[..|ls|] == ls;
  }
}
