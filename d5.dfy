/**
 * Almanac range maps (src/bin/d5.rs): numbers are sent through a chain of
 * maps, each a list of (destination, source, length) ranges; part 2 sends
 * whole seed intervals through by splitting them at range boundaries.
 */
module D5 {
  import opened Text

  /** `usize::MAX`, the initial "no location yet". */
  const UsizeMax: nat := 0xFFFF_FFFF_FFFF_FFFF

  // ---------------------------------------------------------------------
  // Part 1: MapRange and Map.
  // ---------------------------------------------------------------------

  datatype MapRange = MapRange(destStart: nat, sourceStart: nat, len: nat)

  /** `MapRange::get_mapping`: the image of num when it lies in the source range. */
  function RangeMapping(r: MapRange, num: nat): (res: Option<nat>)
    ensures res.Some? <==> r.sourceStart <= num < r.sourceStart + r.len
    ensures res.Some? ==> res.value - r.destStart == num - r.sourceStart && res.value >= r.destStart
  {
    if num >= r.sourceStart && num < r.sourceStart + r.len then Some(r.destStart + num - r.sourceStart) else None
  }

  datatype Map = Map(ranges: seq<MapRange>)

  /** The value of a map at num: the first range containing num decides; otherwise num itself. */
  function Lookup(ranges: seq<MapRange>, num: nat): (r: nat)
    ensures r == num || exists i :: 0 <= i < |ranges| && RangeMapping(ranges[i], num) == Some(r)
  {
    if ranges == [] then num
    else match RangeMapping(ranges[0], num)
      case Some(d) => d
      case None => Lookup(ranges[1..], num)
  }

  /** Lookup is the first matching range in insertion order. */
  lemma {:induction false} LookupFirst(ranges: seq<MapRange>, num: nat, i: nat)
    requires i < |ranges| && RangeMapping(ranges[i], num).Some?
    requires forall j :: 0 <= j < i ==> RangeMapping(ranges[j], num).None?
    ensures Lookup(ranges, num) == RangeMapping(ranges[i], num).value
  {
    if i > 0 {
      assert RangeMapping(ranges[0], num).None?;
      LookupFirst(ranges[1..], num, i - 1);
    }
  }

  /** Lookup is the identity on numbers no range contains. */
  lemma {:induction false} LookupIdentity(ranges: seq<MapRange>, num: nat)
    requires forall j :: 0 <= j < |ranges| ==> RangeMapping(ranges[j], num).None?
    ensures Lookup(ranges, num) == num
  {
    if ranges != [] {
      LookupIdentity(ranges[1..], num);
    }
  }

  /** `Map::get_mapping`: returns from the first range that maps num, else num. */
  method GetMapping(m: Map, num: nat) returns (res: nat)
    ensures res == Lookup(m.ranges, num)
  {
    for i := 0 to |m.ranges|
      invariant forall j :: 0 <= j < i ==> RangeMapping(m.ranges[j], num).None?
    {
      var d := RangeMapping(m.ranges[i], num);
      if d.Some? {
        LookupFirst(m.ranges, num, i);
        return d.value;
      }
    }
    LookupIdentity(m.ranges, num);
    return num;
  }

  // ---------------------------------------------------------------------
  // Parsing the almanac (both parts read it the same way).
  // ---------------------------------------------------------------------

  /** A line of three decimal numbers. */
  predicate RangeWords(ws: seq<string>) {
    |ws| == 3 && IsNat(ws[0]) && IsNat(ws[1]) && IsNat(ws[2])
  }

  /** `MapRange::from`: destination start, source start, length. */
  function ParseRange(ws: seq<string>): MapRange
    requires RangeWords(ws)
  {
    MapRange(NatValue(ws[0]), NatValue(ws[1]), NatValue(ws[2]))
  }

  /** A map section: a two-word header line and the ranges that follow it. */
  datatype Section = Section(name: string, ranges: seq<MapRange>)

  /**
   * The sections of the lines after the seeds line: a two-word line opens a
   * section named by its first word, a three-word line adds a range to the
   * latest section, and every other line (the empty ones included) is skipped.
   */
  function Sections(ls: seq<string>): seq<Section> {
    if ls == [] then []
    else
      var prev := Sections(ls[..|ls| - 1]);
      var ws := Words(ls[|ls| - 1]);
      if |ws| == 2 then prev + [Section(ws[0], [])]
      else if RangeWords(ws) && prev != [] then
        prev[..|prev| - 1] + [Section(prev[|prev| - 1].name, prev[|prev| - 1].ranges + [ParseRange(ws)])]
      else prev
  }

  /** Some line is a header. */
  predicate HasHeader(ls: seq<string>) {
    exists j :: 0 <= j < |ls| && |Words(ls[j])| == 2
  }

  /** Every three-word line parses and follows a header (otherwise the source panics). */
  predicate WellFormedMaps(ls: seq<string>) {
    forall i :: 0 <= i < |ls| && |Words(ls[i])| == 3 ==> RangeWords(Words(ls[i])) && HasHeader(ls[..i])
  }

  lemma {:induction false} SectionsNonempty(ls: seq<string>)
    ensures Sections(ls) != [] <==> HasHeader(ls)
  {
    if ls != [] {
      var init := ls[..|ls| - 1];
      SectionsNonempty(init);
      assert forall j :: 0 <= j < |init| ==> init[j] == ls[j];
      if HasHeader(ls) {
        var j :| 0 <= j < |ls| && |Words(ls[j])| == 2;
        assert j < |init| ==> HasHeader(init);
      }
    }
  }

  /** The almanac layout: a seeds line of numbers after a label, then map sections. */
  predicate Almanac(text: string) {
    var ls := Lines(text);
    |ls| > 0 && |Words(ls[0])| >= 1 &&
    (forall k :: 1 <= k < |Words(ls[0])| ==> IsNat(Words(ls[0])[k])) &&
    WellFormedMaps(ls[1..])
  }

  /** The seed numbers: the first line's words after its label. */
  function Seeds(text: string): (seeds: seq<nat>)
    requires Almanac(text)
    ensures |seeds| + 1 == |Words(Lines(text)[0])|
    ensures forall k :: 0 <= k < |seeds| ==> seeds[k] == NatValue(Words(Lines(text)[0])[k + 1])
  {
    SeedWords(Words(Lines(text)[0]))
  }

  /** The numbers after the label word. */
  function SeedWords(ws: seq<string>): (seeds: seq<nat>)
    requires |ws| >= 1 && forall k :: 1 <= k < |ws| ==> IsNat(ws[k])
    ensures |seeds| + 1 == |ws|
    ensures forall k :: 0 <= k < |seeds| ==> IsNat(ws[k + 1]) && seeds[k] == NatValue(ws[k + 1])
  {
    seq(|ws| - 1, k requires 0 <= k < |ws| - 1 => assert IsNat(ws[k + 1]); NatValue(ws[k + 1]))
  }

  /** Part 1's table: each name bound to its latest section's ranges (`HashMap::insert` replaces). */
  function MapsOf(secs: seq<Section>): map<string, Map> {
    if secs == [] then map[]
    else MapsOf(secs[..|secs| - 1])[secs[|secs| - 1].name := Map(secs[|secs| - 1].ranges)]
  }

  /** The last section carrying a name is the one part 1 keeps for that name. */
  lemma {:induction false} MapsOfLatest(secs: seq<Section>, k: nat)
    requires k < |secs|
    requires forall j :: k < j < |secs| ==> secs[j].name != secs[k].name
    ensures secs[k].name in MapsOf(secs) && MapsOf(secs)[secs[k].name] == Map(secs[k].ranges)
  {
    if k < |secs| - 1 {
      MapsOfLatest(secs[..|secs| - 1], k);
    }
  }

  /** A range line extends the latest section, which is the one its name maps to. */
  lemma MapsOfAddRange(secs: seq<Section>, r: MapRange)
    requires secs != []
    ensures var last := secs[|secs| - 1];
      && last.name in MapsOf(secs) && MapsOf(secs)[last.name] == Map(last.ranges)
      && MapsOf(secs[..|secs| - 1] + [Section(last.name, last.ranges + [r])]) == MapsOf(secs)[last.name := Map(last.ranges + [r])]
  {
    var n := |secs| - 1;
    var s2 := secs[..n] + [Section(secs[n].name, secs[n].ranges + [r])];
    assert s2[..n] == secs[..n];
  }

  /** The map-building loop of `solution_1`. */
  method ParseMaps(text: string) returns (maps: map<string, Map>)
    requires Almanac(text)
    ensures maps == MapsOf(Sections(Lines(text)[1..]))
  {
    var ls := Lines(text)[1..];
    maps := map[];
    var current := "";
    for i := 0 to |ls|
      invariant maps == MapsOf(Sections(ls[..i]))
      invariant Sections(ls[..i]) != [] ==> current == Sections(ls[..i])[|Sections(ls[..i])| - 1].name
    {
      MapsStep(ls, i);
      var line := ls[i];
      if line == [] {
        assert Words(line) == [];
        continue;
      }
      var ws := Words(line);
      if |ws| == 2 {
        current := ws[0];
        maps := maps[current := Map([])];
      }
      if |ws| == 3 {
        maps := maps[current := Map(maps[current].ranges + [ParseRange(ws)])];
      }
    }
    assert ls[..|ls|] == ls;
  }

  /** What one more line does to part 1's table and to the name of the latest section. */
  lemma MapsStep(ls: seq<string>, i: nat)
    requires WellFormedMaps(ls) && i < |ls|
    ensures var prev, next, ws := Sections(ls[..i]), Sections(ls[..i + 1]), Words(ls[i]);
      && (|ws| == 2 ==> next != [] && next[|next| - 1].name == ws[0] && MapsOf(next) == MapsOf(prev)[ws[0] := Map([])])
      && (|ws| == 3 ==>
            && prev != [] && next != [] && next[|next| - 1].name == prev[|prev| - 1].name
            && prev[|prev| - 1].name in MapsOf(prev)
            && MapsOf(next) == MapsOf(prev)[prev[|prev| - 1].name := Map(MapsOf(prev)[prev[|prev| - 1].name].ranges + [ParseRange(ws)])])
      && (|ws| != 2 && |ws| != 3 ==> next == prev)
  {
    var prev, next, ws := Sections(ls[..i]), Sections(ls[..i + 1]), Words(ls[i]);
    SectionsSnoc(ls, i);
    if |ws| == 2 {
      assert next[..|next| - 1] == prev;
    }
    if |ws| == 3 {
      assert RangeWords(ws) && HasHeader(ls[..i]);
      SectionsNonempty(ls[..i]);
      MapsOfAddRange(prev, ParseRange(ws));
    }
  }

  /** One more line: the sections of the longer prefix, from those of the shorter. */
  lemma SectionsSnoc(ls: seq<string>, i: nat)
    requires i < |ls|
    ensures var prev, ws := Sections(ls[..i]), Words(ls[i]);
      Sections(ls[..i + 1]) ==
        if |ws| == 2 then prev + [Section(ws[0], [])]
        else if RangeWords(ws) && prev != [] then
          prev[..|prev| - 1] + [Section(prev[|prev| - 1].name, prev[|prev| - 1].ranges + [ParseRange(ws)])]
        else prev
  {
    assert ls[..i + 1][..i] == ls[..i];
  }

  // ---------------------------------------------------------------------
  // Part 1's answer.
  // ---------------------------------------------------------------------

  /** The seven map names, in the order part 1 applies them. */
  const MapNames: seq<string> := [
    "seed-to-soil", "soil-to-fertilizer", "fertilizer-to-water", "water-to-light",
    "light-to-temperature", "temperature-to-humidity", "humidity-to-location"
  ]

  predicate HasAllNames(maps: map<string, Map>) {
    forall k :: 0 <= k < |MapNames| ==> MapNames[k] in maps
  }

  /** A seed's location: its number sent through the named maps in order. */
  function Location(maps: map<string, Map>, names: seq<string>, num: nat): nat
    requires forall k :: 0 <= k < |names| ==> names[k] in maps
  {
    if names == [] then num else Location(maps, names[1..], Lookup(maps[names[0]].ranges, num))
  }

  /** The least Location over the seeds, `usize::MAX` when there are none. */
  function MinLocation(maps: map<string, Map>, seeds: seq<nat>): nat
    requires HasAllNames(maps)
  {
    if seeds == [] then UsizeMax
    else
      var rest := MinLocation(maps, seeds[..|seeds| - 1]);
      var here := Location(maps, MapNames, seeds[|seeds| - 1]);
      if here < rest then here else rest
  }

  /** MinLocation is a lower bound of every seed's location and, below `usize::MAX`, one of them. */
  lemma {:induction false} MinLocationIsMin(maps: map<string, Map>, seeds: seq<nat>)
    requires HasAllNames(maps)
    ensures MinLocation(maps, seeds) <= UsizeMax
    ensures forall i :: 0 <= i < |seeds| ==> MinLocation(maps, seeds) <= Location(maps, MapNames, seeds[i])
    ensures MinLocation(maps, seeds) < UsizeMax ==>
      exists i :: 0 <= i < |seeds| && MinLocation(maps, seeds) == Location(maps, MapNames, seeds[i])
  {
    if seeds != [] {
      var init := seeds[..|seeds| - 1];
      MinLocationIsMin(maps, init);
      if MinLocation(maps, seeds) < UsizeMax && MinLocation(maps, seeds) == MinLocation(maps, init) {
        var i :| 0 <= i < |init| && MinLocation(maps, init) == Location(maps, MapNames, init[i]);
        assert seeds[i] == init[i];
      }
      forall i | 0 <= i < |seeds| ensures MinLocation(maps, seeds) <= Location(maps, MapNames, seeds[i]) {
        if i < |init| {
          assert seeds[i] == init[i];
        }
      }
    }
  }

  /** The inner loop of `solution_1`: one seed through the seven named maps. */
  method SeedLocation(maps: map<string, Map>, seed: nat) returns (idx: nat)
    requires HasAllNames(maps)
    ensures idx == Location(maps, MapNames, seed)
  {
    idx := seed;
    for k := 0 to |MapNames|
      invariant Location(maps, MapNames[k..], idx) == Location(maps, MapNames, seed)
    {
      assert MapNames[k..][1..] == MapNames[k + 1..];
      idx := GetMapping(maps[MapNames[k]], idx);
    }
  }

  /** The location loop of `solution_1`. */
  method LowestLocation(maps: map<string, Map>, seeds: seq<nat>) returns (location: nat)
    requires HasAllNames(maps)
    ensures location == MinLocation(maps, seeds)
  {
    location := UsizeMax;
    for i := 0 to |seeds|
      invariant location == MinLocation(maps, seeds[..i])
    {
      var idx := SeedLocation(maps, seeds[i]);
      assert seeds[..i + 1][..i] == seeds[..i];
      if idx < location {
        location := idx;
      }
    }
    assert seeds[..|seeds|] == seeds;
  }

  /** `solution_1`: the lowest location of any seed number. */
  method Solution1(text: string) returns (location: nat)
    requires Almanac(text) && HasAllNames(MapsOf(Sections(Lines(text)[1..])))
    ensures location <= UsizeMax
    ensures forall i :: 0 <= i < |Seeds(text)| ==>
      location <= Location(MapsOf(Sections(Lines(text)[1..])), MapNames, Seeds(text)[i])
    ensures location < UsizeMax ==>
      exists i :: 0 <= i < |Seeds(text)| && location == Location(MapsOf(Sections(Lines(text)[1..])), MapNames, Seeds(text)[i])
  {
    var maps := ParseMaps(text);
    location := LowestLocation(maps, Seeds(text));
    MinLocationIsMin(maps, Seeds(text));
  }

  // ---------------------------------------------------------------------
  // Part 2: Mapping, Map2 and Seed intervals.
  // ---------------------------------------------------------------------

  datatype Mapping = Mapping(sourceStart: nat, destStart: nat, len: nat)

  /** `usize` arithmetic in `source_end` and `end` does not underflow. */
  predicate Nonempty(start: nat, len: nat) {
    start + len >= 1
  }

  /** `Mapping::source_end`: the last source number covered. */
  function SourceEnd(m: Mapping): (e: nat)
    requires Nonempty(m.sourceStart, m.len)
    ensures e + 1 == m.sourceStart + m.len
  {
    m.sourceStart + m.len - 1
  }

  /** `Mapping::contains_source`. */
  predicate ContainsSource(m: Mapping, num: nat) {
    num >= m.sourceStart && num < m.sourceStart + m.len
  }

  /** `Mapping::map_forward`: a contained number keeps its offset from the range start. */
  function MapForward(m: Mapping, num: nat): (r: nat)
    requires num >= m.sourceStart
    ensures r - m.destStart == num - m.sourceStart && r >= m.destStart
  {
    m.destStart + num - m.sourceStart
  }

  datatype Seed = Seed(start: nat, len: nat)

  /** `Seed::end`: the last number of the interval. */
  function End(s: Seed): (e: nat)
    requires Nonempty(s.start, s.len)
    ensures e + 1 == s.start + s.len
  {
    s.start + s.len - 1
  }

  predicate ValidSeed(s: Seed) {
    s.len >= 1
  }

  predicate ValidMapping(m: Mapping) {
    m.len >= 1
  }

  /** x lies in the seed interval. */
  predicate Covers(s: Seed, x: nat) {
    s.start <= x < s.start + s.len
  }

  /** `Mapping::fully_contains`: the seed interval lies inside the source interval. */
  predicate FullyContains(m: Mapping, s: Seed)
    requires Nonempty(m.sourceStart, m.len) && Nonempty(s.start, s.len)
  {
    s.start >= m.sourceStart && End(s) <= SourceEnd(m)
  }

  /** `Mapping::overlaps`: the two closed intervals intersect. */
  predicate Overlaps(m: Mapping, s: Seed)
    requires Nonempty(m.sourceStart, m.len) && Nonempty(s.start, s.len)
  {
    !(s.start > SourceEnd(m) || End(s) < m.sourceStart)
  }

  /** For non-empty intervals the two tests mean containment and intersection of number sets. */
  lemma OverlapsMeans(m: Mapping, s: Seed)
    requires ValidMapping(m) && ValidSeed(s)
    ensures FullyContains(m, s) <==> forall n :: Covers(s, n) ==> ContainsSource(m, n)
    ensures Overlaps(m, s) <==> exists n :: Covers(s, n) && ContainsSource(m, n)
  {
    if !FullyContains(m, s) {
      if s.start < m.sourceStart {
        assert Covers(s, s.start) && !ContainsSource(m, s.start);
      } else {
        assert Covers(s, End(s)) && !ContainsSource(m, End(s));
      }
    }
    if Overlaps(m, s) {
      var n := if s.start >= m.sourceStart then s.start else m.sourceStart;
      assert Covers(s, n) && ContainsSource(m, n);
    }
  }

  /** `Seed::split` as written: the pieces of a seed cut at the source range's ends. */
  function Split(s: Seed, m: Mapping): seq<Seed>
    requires Nonempty(s.start, s.len) && Nonempty(m.sourceStart, m.len)
  {
    if FullyContains(m, s) || !Overlaps(m, s) then [s]
    else if s.start < m.sourceStart && End(s) > SourceEnd(m) then
      [Seed(s.start, m.sourceStart - s.start), Seed(m.sourceStart, m.len), Seed(SourceEnd(m) + 1, End(s) - SourceEnd(m))]
    else if s.start > m.sourceStart then
      [Seed(s.start, SourceEnd(m) - s.start + 1), Seed(SourceEnd(m) + 1, s.len + s.start - SourceEnd(m) - 1)]
    else if End(s) < SourceEnd(m) then
      [Seed(s.start, m.sourceStart - s.start), Seed(m.sourceStart, s.len + s.start - m.sourceStart)]
    else []
  }

  /** The seed overlaps the range partly and shares exactly one end with it. */
  predicate SharesOneEnd(s: Seed, m: Mapping)
    requires ValidSeed(s) && ValidMapping(m)
  {
    (s.start == m.sourceStart && End(s) > SourceEnd(m)) ||
    (s.start < m.sourceStart && End(s) == SourceEnd(m))
  }

  /** Pieces laid end to end, ascending and non-empty, exactly tile [start, start + len). */
  predicate Tiles(pieces: seq<Seed>, start: nat, len: nat)
    decreases |pieces|
  {
    if pieces == [] then len == 0
    else (pieces[0].start == start && 1 <= pieces[0].len <= len &&
      Tiles(pieces[1..], start + pieces[0].len, len - pieces[0].len))
  }

  /** A piece lies wholly inside or wholly outside the mapping's source range. */
  predicate OneSide(p: Seed, m: Mapping)
    requires ValidSeed(p) && ValidMapping(m)
  {
    FullyContains(m, p) || !Overlaps(m, p)
  }

  predicate Sided(pieces: seq<Seed>, m: Mapping)
    requires ValidMapping(m)
  {
    forall k :: 0 <= k < |pieces| ==> ValidSeed(pieces[k]) && OneSide(pieces[k], m)
  }

  /**
   * Except when the seed shares exactly one end with the range, `split` cuts it
   * into adjacent ascending pieces whose lengths sum to its length, each on one
   * side of the range; a contained or disjoint seed comes back whole.
   */
  lemma SplitPartition(s: Seed, m: Mapping)
    requires ValidSeed(s) && ValidMapping(m) && !SharesOneEnd(s, m)
    ensures Tiles(Split(s, m), s.start, s.len) && Sided(Split(s, m), m)
    ensures FullyContains(m, s) || !Overlaps(m, s) ==> Split(s, m) == [s]
    ensures 1 <= |Split(s, m)| <= 3
  {
    var p := Split(s, m);
    if FullyContains(m, s) || !Overlaps(m, s) {
    } else if s.start < m.sourceStart && End(s) > SourceEnd(m) {
      assert Tiles(p[2..], p[2].start, p[2].len);
      assert Tiles(p[1..], p[1].start, p[1].len + p[2].len);
    } else {
      assert Tiles(p[1..], p[1].start, p[1].len);
    }
  }

  /** Exactly the partial overlaps sharing one end are lost: `split` returns nothing for them. */
  lemma SplitEmpty(s: Seed, m: Mapping)
    requires ValidSeed(s) && ValidMapping(m)
    ensures Split(s, m) == [] <==> SharesOneEnd(s, m)
  {
    if !SharesOneEnd(s, m) {
      SplitPartition(s, m);
    }
  }

  /** The unit tests' three splits. */
  lemma SplitExamples()
    ensures Split(Seed(10, 5), Mapping(7, 30, 6)) == [Seed(10, 3), Seed(13, 2)]
    ensures Split(Seed(4, 5), Mapping(7, 30, 6)) == [Seed(4, 3), Seed(7, 2)]
    ensures Split(Seed(4, 7), Mapping(7, 30, 2)) == [Seed(4, 3), Seed(7, 2), Seed(9, 2)]
  {
  }

  /** Seeds 7..11 against source 7..8, and seeds 4..8 against the same, come back as nothing. */
  lemma SplitLosesSeed()
    ensures Split(Seed(7, 5), Mapping(7, 30, 2)) == []
    ensures Split(Seed(4, 5), Mapping(7, 30, 2)) == []
  {
  }

  /** The split evidently intended: the part before, inside and after the range, whichever exist. */
  function SplitFixed(s: Seed, m: Mapping): (pieces: seq<Seed>)
    requires ValidSeed(s) && ValidMapping(m)
    ensures Tiles(pieces, s.start, s.len) && Sided(pieces, m)
    ensures FullyContains(m, s) || !Overlaps(m, s) ==> pieces == [s]
  {
    if FullyContains(m, s) || !Overlaps(m, s) then [s]
    else
      var lo := if s.start < m.sourceStart then m.sourceStart else s.start;
      var hi := if End(s) > SourceEnd(m) then SourceEnd(m) else End(s);
      var before := if s.start < lo then [Seed(s.start, lo - s.start)] else [];
      var after := if hi < End(s) then [Seed(hi + 1, End(s) - hi)] else [];
      var pieces := before + [Seed(lo, hi - lo + 1)] + after;
      assert Tiles(after, hi + 1, End(s) - hi);
      assert pieces[|before|..] == [Seed(lo, hi - lo + 1)] + after;
      assert Tiles(pieces[|before|..], lo, s.start + s.len - lo);
      pieces
  }

  /** Where the source's split is not lossy, the corrected split agrees with it. */
  lemma SplitFixedAgrees(s: Seed, m: Mapping)
    requires ValidSeed(s) && ValidMapping(m) && !SharesOneEnd(s, m)
    ensures SplitFixed(s, m) == Split(s, m)
  {
  }

  /** The two shared-end seeds the corrected split keeps. */
  lemma SplitFixedKeeps()
    ensures SplitFixed(Seed(7, 5), Mapping(7, 30, 2)) == [Seed(7, 2), Seed(9, 3)]
    ensures SplitFixed(Seed(4, 5), Mapping(7, 30, 2)) == [Seed(4, 3), Seed(7, 2)]
  {
  }

  datatype Map2 = Map2(mappings: seq<Mapping>)

  /** `Map2::append_mappings`: a parsed range with its fields reordered. */
  function ToMapping(r: MapRange): (m: Mapping)
    ensures m.sourceStart == r.sourceStart && m.destStart == r.destStart && m.len == r.len
  {
    Mapping(r.sourceStart, r.destStart, r.len)
  }

  function ToMappings(rs: seq<MapRange>): (ms: seq<Mapping>)
    ensures |ms| == |rs| && forall k :: 0 <= k < |rs| ==> ms[k] == ToMapping(rs[k])
  {
    seq(|rs|, k requires 0 <= k < |rs| => ToMapping(rs[k]))
  }

  /** Part 2's maps: one per section, in file order. */
  function Maps2Of(secs: seq<Section>): (maps: seq<Map2>)
    ensures |maps| == |secs| && forall k :: 0 <= k < |secs| ==> maps[k] == Map2(ToMappings(secs[k].ranges))
  {
    seq(|secs|, k requires 0 <= k < |secs| => Map2(ToMappings(secs[k].ranges)))
  }

  /** `Map2::apply_mapping`, specified: the first mapping containing num, else num. */
  function Apply(mappings: seq<Mapping>, num: nat): nat {
    if mappings == [] then num
    else if ContainsSource(mappings[0], num) then MapForward(mappings[0], num)
    else Apply(mappings[1..], num)
  }

  /** A part 2 map sends every number where the part 1 map of the same section does. */
  lemma {:induction false} ApplyIsLookup(rs: seq<MapRange>, num: nat)
    ensures Apply(ToMappings(rs), num) == Lookup(rs, num)
  {
    if rs != [] {
      assert ToMappings(rs)[1..] == ToMappings(rs[1..]);
      ApplyIsLookup(rs[1..], num);
    }
  }

  /** `Map2::apply_mapping`: the loop with `break`. */
  method ApplyMapping(m: Map2, num: nat) returns (res: nat)
    ensures res == Apply(m.mappings, num)
  {
    res := num;
    var i := 0;
    while i < |m.mappings|
      invariant 0 <= i <= |m.mappings| && res == num
      invariant Apply(m.mappings, num) == Apply(m.mappings[i..], num)
    {
      assert m.mappings[i..][1..] == m.mappings[i + 1..];
      if ContainsSource(m.mappings[i], num) {
        res := MapForward(m.mappings[i], num);
        break;
      }
      i := i + 1;
    }
  }

  /** The map-building loop of `solution_2`. */
  method ParseMaps2(text: string) returns (maps: seq<Map2>)
    requires Almanac(text)
    ensures maps == Maps2Of(Sections(Lines(text)[1..]))
  {
    var ls := Lines(text)[1..];
    maps := [];
    for i := 0 to |ls|
      invariant maps == Maps2Of(Sections(ls[..i]))
    {
      Maps2Step(ls, i);
      var line := ls[i];
      if line == [] {
        assert Words(line) == [];
        continue;
      }
      var ws := Words(line);
      if |ws| == 2 {
        maps := maps + [Map2([])];
      }
      if |ws| == 3 {
        var last := maps[|maps| - 1];
        maps := maps[..|maps| - 1] + [Map2(last.mappings + [ToMapping(ParseRange(ws))])];
      }
    }
    assert ls[..|ls|] == ls;
  }

  /** What one more line does to part 2's list of maps. */
  lemma Maps2Step(ls: seq<string>, i: nat)
    requires WellFormedMaps(ls) && i < |ls|
    ensures var prev, next, ws := Maps2Of(Sections(ls[..i])), Maps2Of(Sections(ls[..i + 1])), Words(ls[i]);
      && (|ws| == 2 ==> next == prev + [Map2([])])
      && (|ws| == 3 ==> prev != [] && next == prev[..|prev| - 1] + [Map2(prev[|prev| - 1].mappings + [ToMapping(ParseRange(ws))])])
      && (|ws| != 2 && |ws| != 3 ==> next == prev)
  {
    var prev, ws := Sections(ls[..i]), Words(ls[i]);
    SectionsSnoc(ls, i);
    if |ws| == 2 {
      Maps2Header(prev, ws[0]);
    }
    if |ws| == 3 {
      assert RangeWords(ws) && HasHeader(ls[..i]);
      SectionsNonempty(ls[..i]);
      Maps2AddRange(prev, ParseRange(ws));
    }
  }

  /** A header line opens an empty map after the others. */
  lemma Maps2Header(secs: seq<Section>, name: string)
    ensures Maps2Of(secs + [Section(name, [])]) == Maps2Of(secs) + [Map2([])]
  {
  }

  /** A range line appends its mapping to the last map. */
  lemma Maps2AddRange(secs: seq<Section>, r: MapRange)
    requires secs != []
    ensures var n := |secs| - 1;
      var maps := Maps2Of(secs);
      Maps2Of(secs[..n] + [Section(secs[n].name, secs[n].ranges + [r])])
        == maps[..n] + [Map2(maps[n].mappings + [ToMapping(r)])]
  {
    var n := |secs| - 1;
    assert ToMappings(secs[n].ranges) + [ToMapping(r)] == ToMappings(secs[n].ranges + [r]);
  }

  /** `seeds.chunks(2)`: consecutive (start, length) pairs. */
  function SeedPairs(nums: seq<nat>): (seeds: seq<Seed>)
    requires |nums| % 2 == 0
    ensures 2 * |seeds| == |nums|
    ensures forall k :: 0 <= k < |seeds| ==> seeds[k] == Seed(nums[2 * k], nums[2 * k + 1])
  {
    if nums == [] then [] else [Seed(nums[0], nums[1])] + SeedPairs(nums[2..])
  }

  // ---------------------------------------------------------------------
  // Part 2's pipeline and what its output means.
  // ---------------------------------------------------------------------

  /**
   * The split the pipeline uses: the source's `split` as written, or, with
   * `fixed`, the corrected one.
   */
  function Cut(s: Seed, m: Mapping, fixed: bool): seq<Seed>
    requires ValidSeed(s) && ValidMapping(m)
  {
    if fixed then SplitFixed(s, m) else Split(s, m)
  }

  function FlatSplit(seeds: seq<Seed>, m: Mapping, fixed: bool): seq<Seed>
    requires ValidMapping(m) && forall k :: 0 <= k < |seeds| ==> ValidSeed(seeds[k])
  {
    if seeds == [] then []
    else
      assert ValidSeed(seeds[|seeds| - 1]);
      FlatSplit(seeds[..|seeds| - 1], m, fixed) + Cut(seeds[|seeds| - 1], m, fixed)
  }

  /** `for seed in seeds { new_seeds.append(&mut seed.split(m)) }`. */
  method SplitAll(seeds: seq<Seed>, m: Mapping, fixed: bool) returns (newSeeds: seq<Seed>)
    requires ValidMapping(m) && forall k :: 0 <= k < |seeds| ==> ValidSeed(seeds[k])
    ensures newSeeds == FlatSplit(seeds, m, fixed)
  {
    newSeeds := [];
    for i := 0 to |seeds|
      invariant newSeeds == FlatSplit(seeds[..i], m, fixed)
    {
      assert seeds[..i + 1][..i] == seeds[..i];
      newSeeds := newSeeds + Cut(seeds[i], m, fixed);
    }
    assert seeds[..|seeds|] == seeds;
  }

  /** The `seeds.iter().map(..)` step: every start moved by the map, lengths kept. */
  method MapStarts(map2: Map2, seeds: seq<Seed>) returns (out: seq<Seed>)
    ensures |out| == |seeds|
    ensures forall k :: 0 <= k < |seeds| ==> out[k] == Seed(Apply(map2.mappings, seeds[k].start), seeds[k].len)
  {
    out := [];
    for i := 0 to |seeds|
      invariant |out| == i
      invariant forall k :: 0 <= k < i ==> out[k] == Seed(Apply(map2.mappings, seeds[k].start), seeds[k].len)
    {
      var s := ApplyMapping(map2, seeds[i].start);
      out := out + [Seed(s, seeds[i].len)];
    }
  }

  function TotalLen(seeds: seq<Seed>): nat {
    if seeds == [] then 0 else TotalLen(seeds[..|seeds| - 1]) + seeds[|seeds| - 1].len
  }

  lemma {:induction false} TotalLenAppend(a: seq<Seed>, b: seq<Seed>)
    ensures TotalLen(a + b) == TotalLen(a) + TotalLen(b)
    decreases |b|
  {
    if b == [] {
      assert a + b == a;
    } else {
      assert (a + b)[..|a + b| - 1] == a + b[..|b| - 1];
      TotalLenAppend(a, b[..|b| - 1]);
    }
  }

  lemma {:induction false} TilesTotal(pieces: seq<Seed>, start: nat, len: nat)
    requires Tiles(pieces, start, len)
    ensures TotalLen(pieces) == len && forall k :: 0 <= k < |pieces| ==> ValidSeed(pieces[k])
    decreases |pieces|
  {
    if pieces != [] {
      TilesTotal(pieces[1..], start + pieces[0].len, len - pieces[0].len);
      assert pieces == [pieces[0]] + pieces[1..];
      TotalLenAppend([pieces[0]], pieces[1..]);
      assert TotalLen([pieces[0]]) == pieces[0].len;
    }
  }

  /**
   * When no seed shares exactly one end with the mapping, splitting every seed
   * keeps the total length of the intervals.
   */
  lemma {:induction false} FlatSplitKeepsLength(seeds: seq<Seed>, m: Mapping)
    requires ValidMapping(m) && forall k :: 0 <= k < |seeds| ==> ValidSeed(seeds[k]) && !SharesOneEnd(seeds[k], m)
    ensures TotalLen(FlatSplit(seeds, m, false)) == TotalLen(seeds)
  {
    if seeds != [] {
      var init, last := seeds[..|seeds| - 1], seeds[|seeds| - 1];
      FlatSplitKeepsLength(init, m);
      SplitPartition(last, m);
      TilesTotal(Split(last, m), last.start, last.len);
      TotalLenAppend(FlatSplit(init, m, false), Split(last, m));
    }
  }

  /** q is a sub-interval of p. */
  predicate Inside(q: Seed, p: Seed) {
    p.start <= q.start && q.start + q.len <= p.start + p.len
  }

  /** Every piece of `split` is a non-empty sub-interval of the seed on one side of the range. */
  lemma SplitPieces(s: Seed, m: Mapping)
    requires ValidSeed(s) && ValidMapping(m)
    ensures forall k :: 0 <= k < |Split(s, m)| ==>
      ValidSeed(Split(s, m)[k]) && Inside(Split(s, m)[k], s) && OneSide(Split(s, m)[k], m)
  {
    SplitEmpty(s, m);
  }

  /** Pieces that tile an interval lie inside it, and every number of it lies in one of them. */
  lemma {:induction false} TilesInside(pieces: seq<Seed>, start: nat, len: nat)
    requires Tiles(pieces, start, len)
    ensures forall k :: 0 <= k < |pieces| ==> Inside(pieces[k], Seed(start, len))
    ensures forall x :: Covers(Seed(start, len), x) ==> exists k :: 0 <= k < |pieces| && Covers(pieces[k], x)
    decreases |pieces|
  {
    if pieces != [] {
      var rest := pieces[1..];
      TilesInside(rest, start + pieces[0].len, len - pieces[0].len);
      forall x | Covers(Seed(start, len), x) ensures exists k :: 0 <= k < |pieces| && Covers(pieces[k], x) {
        if !Covers(pieces[0], x) {
          assert Covers(Seed(start + pieces[0].len, len - pieces[0].len), x);
          var j :| 0 <= j < |rest| && Covers(rest[j], x);
          assert pieces[j + 1] == rest[j];
        }
      }
      forall k | 1 <= k < |pieces| ensures Inside(pieces[k], Seed(start, len)) {
        assert pieces[k] == rest[k - 1];
      }
    }
  }

  /** Either split gives non-empty sub-intervals of the seed, each on one side of the range. */
  lemma CutPieces(s: Seed, m: Mapping, fixed: bool)
    requires ValidSeed(s) && ValidMapping(m)
    ensures forall k :: 0 <= k < |Cut(s, m, fixed)| ==>
      ValidSeed(Cut(s, m, fixed)[k]) && Inside(Cut(s, m, fixed)[k], s) && OneSide(Cut(s, m, fixed)[k], m)
  {
    if fixed {
      TilesInside(SplitFixed(s, m), s.start, s.len);
    } else {
      SplitPieces(s, m);
    }
  }

  /** A sub-interval of a one-sided interval is one-sided. */
  lemma OneSideInside(q: Seed, p: Seed, m: Mapping)
    requires ValidSeed(q) && ValidSeed(p) && ValidMapping(m) && Inside(q, p) && OneSide(p, m)
    ensures OneSide(q, m)
  {
  }

  predicate AllValid(ms: seq<Mapping>) {
    forall t :: 0 <= t < |ms| ==> ValidMapping(ms[t])
  }

  predicate OneSideAll(p: Seed, ms: seq<Mapping>)
    requires ValidSeed(p) && AllValid(ms)
  {
    forall t :: 0 <= t < |ms| ==> OneSide(p, ms[t])
  }

  /** Every piece is valid, one-sided against ms, and inside some base seed. */
  ghost predicate Refines(pieces: seq<Seed>, base: seq<Seed>, ms: seq<Mapping>)
    requires AllValid(ms)
  {
    forall k :: 0 <= k < |pieces| ==>
      ValidSeed(pieces[k]) && OneSideAll(pieces[k], ms) && exists b :: 0 <= b < |base| && Inside(pieces[k], base[b])
  }

  /** Splitting at one more mapping keeps the refinement and adds that mapping to the one-sided set. */
  lemma {:induction false} FlatSplitRefines(seeds: seq<Seed>, base: seq<Seed>, ms: seq<Mapping>, m: Mapping, fixed: bool)
    requires AllValid(ms) && ValidMapping(m) && Refines(seeds, base, ms)
    ensures forall k :: 0 <= k < |seeds| ==> ValidSeed(seeds[k])
    ensures AllValid(ms + [m]) && Refines(FlatSplit(seeds, m, fixed), base, ms + [m])
  {
    assert forall k :: 0 <= k < |seeds| ==> ValidSeed(seeds[k]);
    if seeds != [] {
      var init, last := seeds[..|seeds| - 1], seeds[|seeds| - 1];
      assert Refines(init, base, ms) by {
        forall k | 0 <= k < |init| ensures init[k] == seeds[k] { }
      }
      FlatSplitRefines(init, base, ms, m, fixed);
      CutPieces(last, m, fixed);
      var out := FlatSplit(seeds, m, fixed);
      var left := FlatSplit(init, m, fixed);
      var b0 :| 0 <= b0 < |base| && Inside(last, base[b0]);
      forall k | 0 <= k < |out|
        ensures ValidSeed(out[k]) && OneSideAll(out[k], ms + [m]) &&
          exists b :: 0 <= b < |base| && Inside(out[k], base[b])
      {
        if k < |left| {
          assert out[k] == left[k];
        } else {
          var p := Cut(last, m, fixed)[k - |left|];
          assert out[k] == p;
          forall t | 0 <= t < |ms| ensures OneSide(p, ms[t]) {
            OneSideInside(p, last, ms[t]);
          }
          assert Inside(p, base[b0]);
        }
      }
    }
  }

  /** The corrected split loses no number: whatever the seeds cover, the pieces cover. */
  lemma {:induction false} FlatSplitCovers(seeds: seq<Seed>, m: Mapping, x: nat)
    requires ValidMapping(m) && forall k :: 0 <= k < |seeds| ==> ValidSeed(seeds[k])
    requires InSeeds(seeds, x)
    ensures InSeeds(FlatSplit(seeds, m, true), x)
  {
    var init, last := seeds[..|seeds| - 1], seeds[|seeds| - 1];
    var left := FlatSplit(init, m, true);
    var out := FlatSplit(seeds, m, true);
    if Covers(last, x) {
      var pieces := SplitFixed(last, m);
      TilesInside(pieces, last.start, last.len);
      var j :| 0 <= j < |pieces| && Covers(pieces[j], x);
      assert out[|left| + j] == pieces[j];
    } else {
      var k :| 0 <= k < |seeds| && Covers(seeds[k], x);
      assert init[k] == seeds[k];
      FlatSplitCovers(init, m, x);
      var j :| 0 <= j < |left| && Covers(left[j], x);
      assert out[j] == left[j];
    }
  }

  /** Every number the seeds cover, the pieces cover too. */
  ghost predicate Keeps(seeds: seq<Seed>, pieces: seq<Seed>) {
    forall x :: InSeeds(seeds, x) ==> InSeeds(pieces, x)
  }

  /** Splitting with the corrected split after an earlier loss-free split loses nothing either. */
  lemma FlatSplitKeeps(seeds: seq<Seed>, pieces: seq<Seed>, m: Mapping)
    requires ValidMapping(m) && forall k :: 0 <= k < |pieces| ==> ValidSeed(pieces[k])
    requires Keeps(seeds, pieces)
    ensures Keeps(seeds, FlatSplit(pieces, m, true))
  {
    forall x | InSeeds(seeds, x) ensures InSeeds(FlatSplit(pieces, m, true), x) {
      FlatSplitCovers(pieces, m, x);
    }
  }

  /** Every map in the pipeline sends x as the maps before it did, then through itself. */
  function Through(maps: seq<Map2>, x: nat): nat {
    if maps == [] then x else Apply(maps[|maps| - 1].mappings, Through(maps[..|maps| - 1], x))
  }

  /** Some number in the seeds' intervals. */
  ghost predicate InSeeds(seeds: seq<Seed>, x: nat) {
    exists k :: 0 <= k < |seeds| && Covers(seeds[k], x)
  }

  /** Every number the current seeds cover is the image of an original seed number. */
  ghost predicate Traced(maps: seq<Map2>, seeds0: seq<Seed>, seeds: seq<Seed>) {
    forall k, x :: 0 <= k < |seeds| && Covers(seeds[k], x) ==>
      exists n :: InSeeds(seeds0, n) && Through(maps, n) == x
  }

  /** A piece one-sided against every mapping is moved rigidly: each number keeps its offset. */
  lemma {:induction false} ApplyShift(ms: seq<Mapping>, p: Seed, x: nat)
    requires AllValid(ms) && ValidSeed(p) && OneSideAll(p, ms) && Covers(p, x)
    ensures Apply(ms, x) == Apply(ms, p.start) + (x - p.start)
  {
    if ms != [] {
      assert OneSide(p, ms[0]);
      if FullyContains(ms[0], p) {
        assert ContainsSource(ms[0], x) && ContainsSource(ms[0], p.start);
      } else {
        OverlapsMeans(ms[0], p);
        assert Covers(p, p.start);
        assert OneSideAll(p, ms[1..]) by {
          forall t | 0 <= t < |ms| - 1 ensures OneSide(p, ms[1..][t]) {
            assert ms[1..][t] == ms[t + 1];
          }
        }
        ApplyShift(ms[1..], p, x);
      }
    }
  }

  /** One stage of the pipeline keeps every covered number traceable to a seed number. */
  lemma StageTraced(maps: seq<Map2>, i: nat, seeds0: seq<Seed>, base: seq<Seed>, pieces: seq<Seed>, out: seq<Seed>)
    requires i < |maps| && AllValid(maps[i].mappings)
    requires Traced(maps[..i], seeds0, base) && Refines(pieces, base, maps[i].mappings)
    requires |out| == |pieces|
    requires forall k :: 0 <= k < |pieces| ==> out[k] == Seed(Apply(maps[i].mappings, pieces[k].start), pieces[k].len)
    ensures Traced(maps[..i + 1], seeds0, out)
  {
    assert maps[..i + 1][..i] == maps[..i];
    forall k, x: nat | 0 <= k < |out| && Covers(out[k], x)
      ensures exists n :: InSeeds(seeds0, n) && Through(maps[..i + 1], n) == x
    {
      var p := pieces[k];
      var y := p.start + (x - out[k].start);
      assert Covers(p, y);
      ApplyShift(maps[i].mappings, p, y);
      var b :| 0 <= b < |base| && Inside(p, base[b]);
      assert Covers(base[b], y);
      var n :| InSeeds(seeds0, n) && Through(maps[..i], n) == y;
      assert Through(maps[..i + 1], n) == x;
    }
  }

  /** Every original seed number, sent through the maps, is covered by the current seeds. */
  ghost predicate Complete(maps: seq<Map2>, seeds0: seq<Seed>, seeds: seq<Seed>) {
    forall n :: InSeeds(seeds0, n) ==> InSeeds(seeds, Through(maps, n))
  }

  /**
   * One stage of the pipeline with a split that loses no number keeps every
   * original seed number's image covered.
   */
  lemma StageComplete(maps: seq<Map2>, i: nat, seeds0: seq<Seed>, base: seq<Seed>, pieces: seq<Seed>, out: seq<Seed>)
    requires i < |maps| && AllValid(maps[i].mappings)
    requires Complete(maps[..i], seeds0, base) && Refines(pieces, base, maps[i].mappings)
    requires Keeps(base, pieces)
    requires |out| == |pieces|
    requires forall k :: 0 <= k < |pieces| ==> out[k] == Seed(Apply(maps[i].mappings, pieces[k].start), pieces[k].len)
    ensures Complete(maps[..i + 1], seeds0, out)
  {
    assert maps[..i + 1][..i] == maps[..i];
    forall n | InSeeds(seeds0, n) ensures InSeeds(out, Through(maps[..i + 1], n)) {
      var y := Through(maps[..i], n);
      assert InSeeds(pieces, y);
      var k :| 0 <= k < |pieces| && Covers(pieces[k], y);
      ApplyShift(maps[i].mappings, pieces[k], y);
      assert Covers(out[k], Through(maps[..i + 1], n));
    }
  }

  lemma CompleteStart(seeds0: seq<Seed>)
    ensures Complete([], seeds0, seeds0)
  {
  }

  /** A pipeline that loses no number leaves some interval when it starts with one. */
  lemma CompleteNonEmpty(maps: seq<Map2>, seeds0: seq<Seed>, seeds: seq<Seed>)
    requires Complete(maps, seeds0, seeds) && seeds0 != [] && ValidSeed(seeds0[0])
    ensures seeds != []
  {
    assert Covers(seeds0[0], seeds0[0].start);
    assert InSeeds(seeds0, seeds0[0].start);
  }

  predicate ValidMaps(maps: seq<Map2>) {
    forall i :: 0 <= i < |maps| ==> AllValid(maps[i].mappings)
  }

  lemma TracedStart(seeds0: seq<Seed>)
    ensures Traced([], seeds0, seeds0)
  {
    forall k, x: nat | 0 <= k < |seeds0| && Covers(seeds0[k], x)
      ensures exists n :: InSeeds(seeds0, n) && Through([], n) == x
    {
      assert InSeeds(seeds0, x);
    }
  }

  lemma RefinesSelf(seeds: seq<Seed>, ms: seq<Mapping>)
    requires |ms| == 0 && forall k :: 0 <= k < |seeds| ==> ValidSeed(seeds[k])
    ensures AllValid(ms) && Refines(seeds, seeds, ms)
  {
    forall k | 0 <= k < |seeds| ensures exists b :: 0 <= b < |seeds| && Inside(seeds[k], seeds[b]) {
      assert Inside(seeds[k], seeds[k]);
    }
  }

  /** The inner loop of `solution_2`: split the seeds at every mapping of one map, in order. */
  method SplitAtEach(map2: Map2, seeds: seq<Seed>, fixed: bool) returns (pieces: seq<Seed>)
    requires AllValid(map2.mappings) && forall k :: 0 <= k < |seeds| ==> ValidSeed(seeds[k])
    ensures Refines(pieces, seeds, map2.mappings)
    ensures fixed ==> Keeps(seeds, pieces)
  {
    pieces := seeds;
    RefinesSelf(seeds, map2.mappings[..0]);
    for j := 0 to |map2.mappings|
      invariant AllValid(map2.mappings[..j]) && Refines(pieces, seeds, map2.mappings[..j])
      invariant fixed ==> Keeps(seeds, pieces)
    {
      var m := map2.mappings[j];
      MappingsSnoc(map2.mappings, j);
      FlatSplitRefines(pieces, seeds, map2.mappings[..j], m, fixed);
      ghost var before := pieces;
      pieces := SplitAll(pieces, m, fixed);
      if fixed {
        FlatSplitKeeps(seeds, before, m);
      }
    }
    assert map2.mappings[..|map2.mappings|] == map2.mappings;
  }

  lemma MappingsSnoc(ms: seq<Mapping>, j: nat)
    requires AllValid(ms) && j < |ms|
    ensures AllValid(ms[..j]) && ValidMapping(ms[j]) && ms[..j] + [ms[j]] == ms[..j + 1]
  {
    assert forall t :: 0 <= t < j ==> ms[..j][t] == ms[t];
  }

  /**
   * The map pipeline of `solution_2`: for each map, split the seeds at every one
   * of its mappings, then move each start through the map.  Every number the
   * resulting intervals cover is the image of some original seed number.
   */
  method Pipeline(maps: seq<Map2>, seeds0: seq<Seed>, fixed: bool) returns (seeds: seq<Seed>)
    requires ValidMaps(maps) && forall k :: 0 <= k < |seeds0| ==> ValidSeed(seeds0[k])
    ensures forall k :: 0 <= k < |seeds| ==> ValidSeed(seeds[k])
    ensures Traced(maps, seeds0, seeds)
    ensures fixed ==> Complete(maps, seeds0, seeds)
  {
    seeds := seeds0;
    TracedStart(seeds0);
    CompleteStart(seeds0);
    for i := 0 to |maps|
      invariant forall k :: 0 <= k < |seeds| ==> ValidSeed(seeds[k])
      invariant Traced(maps[..i], seeds0, seeds)
      invariant fixed ==> Complete(maps[..i], seeds0, seeds)
    {
      var pieces := SplitAtEach(maps[i], seeds, fixed);
      var moved := MapStarts(maps[i], pieces);
      StageTraced(maps, i, seeds0, seeds, pieces, moved);
      if fixed {
        StageComplete(maps, i, seeds0, seeds, pieces, moved);
      }
      seeds := moved;
    }
    assert maps[..|maps|] == maps;
  }

  /** `min_by_key(|s| s.start)`: the first seed with the least start, if any. */
  function MinByStart(seeds: seq<Seed>): (r: Option<Seed>)
    ensures r.None? <==> seeds == []
    ensures r.Some? ==> forall j :: 0 <= j < |seeds| ==> r.value.start <= seeds[j].start
    ensures r.Some? ==>
      exists k :: 0 <= k < |seeds| && seeds[k] == r.value && forall j :: 0 <= j < k ==> seeds[j].start > r.value.start
  {
    if seeds == [] then None
    else
      var rest := MinByStart(seeds[1..]);
      if rest.None? || seeds[0].start <= rest.value.start then Some(seeds[0])
      else
        assert forall j :: 1 <= j < |seeds| ==> seeds[j] == seeds[1..][j - 1];
        var k :| 0 <= k < |seeds[1..]| && seeds[1..][k] == rest.value &&
          forall j :: 0 <= j < k ==> seeds[1..][j].start > rest.value.start;
        assert seeds[k + 1] == rest.value;
        rest
  }

  /**
   * `solution_2`: the seed interval with the lowest start after the pipeline;
   * that start is the location of some number in the original seed intervals.
   */
  method Solution2(text: string) returns (answer: Option<Seed>)
    requires Almanac(text) && |Seeds(text)| % 2 == 0
    requires forall k :: 0 <= k < |SeedPairs(Seeds(text))| ==> ValidSeed(SeedPairs(Seeds(text))[k])
    requires ValidMaps(Maps2Of(Sections(Lines(text)[1..])))
    ensures answer.Some? ==>
      exists n :: InSeeds(SeedPairs(Seeds(text)), n) && Through(Maps2Of(Sections(Lines(text)[1..])), n) == answer.value.start
  {
    var maps := ParseMaps2(text);
    var seeds := Pipeline(maps, SeedPairs(Seeds(text)), false);
    answer := MinByStart(seeds);
    if answer.Some? {
      var k :| 0 <= k < |seeds| && seeds[k] == answer.value &&
        forall j :: 0 <= j < k ==> seeds[j].start > answer.value.start;
      assert Covers(seeds[k], seeds[k].start);
    }
  }

  /**
   * `solution_2` with the corrected split: the answer is the lowest location
   * of any number in the seed intervals, and there is one whenever a seed
   * interval is given.
   */
  method Solution2Fixed(text: string) returns (answer: Option<Seed>)
    requires Almanac(text) && |Seeds(text)| % 2 == 0
    requires forall k :: 0 <= k < |SeedPairs(Seeds(text))| ==> ValidSeed(SeedPairs(Seeds(text))[k])
    requires ValidMaps(Maps2Of(Sections(Lines(text)[1..])))
    ensures answer.None? <==> Seeds(text) == []
    ensures answer.Some? ==>
      exists n :: InSeeds(SeedPairs(Seeds(text)), n) && Through(Maps2Of(Sections(Lines(text)[1..])), n) == answer.value.start
    ensures answer.Some? ==> forall n :: InSeeds(SeedPairs(Seeds(text)), n) ==>
      answer.value.start <= Through(Maps2Of(Sections(Lines(text)[1..])), n)
  {
    var maps := ParseMaps2(text);
    var seeds0 := SeedPairs(Seeds(text));
    var seeds := Pipeline(maps, seeds0, true);
    if seeds0 != [] {
      CompleteNonEmpty(maps, seeds0, seeds);
    }
    answer := MinByStart(seeds);
    if answer.Some? {
      var k :| 0 <= k < |seeds| && seeds[k] == answer.value &&
        forall j :: 0 <= j < k ==> seeds[j].start > answer.value.start;
      assert Covers(seeds[k], seeds[k].start);
      forall n | InSeeds(seeds0, n) ensures answer.value.start <= Through(maps, n) {
        var j :| 0 <= j < |seeds| && Covers(seeds[j], Through(maps, n));
      }
    }
  }
}
