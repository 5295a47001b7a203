/** Day 5, "If You Give A Seed A Fertilizer": an almanac lists seeds and
    seven maps, each a list of ranges that move source values to
    destination values. Part 1 sends every seed through the seven maps in
    order and reports the lowest location reached. */
module Almanac {
  import opened Wrappers
  import opened Text

  /** One line of a map: `len` source values starting at `src` go to the
      values starting at `dst`. */
  datatype Range = Range(dst: nat, src: nat, len: nat)

  /** One map: its ranges in the order they are listed. */
  type Layer = seq<Range>

  /** How a range's upper end is read. `Inclusive` is the script's test
      `src <= v <= src + len`; `HalfOpen` is the puzzle's reading, in which
      a range covers exactly `len` values. */
  datatype Bounds = Inclusive | HalfOpen

  predicate Within(b: Bounds, r: Range, v: nat) {
    && r.src <= v
    && match b
       case Inclusive => v <= r.src + r.len
       case HalfOpen => v < r.src + r.len
  }

  function Image(r: Range, v: nat): nat
    requires r.src <= v
  {
    v - r.src + r.dst
  }

  // ---------------------------------------------------------------------
  // One map

  /** One map applied to a value: the first range containing it moves it
      and the rest of the map is not consulted; a value that no range
      contains stays. */
  function MapLayer(b: Bounds, layer: Layer, v: nat): nat {
    if |layer| == 0 then v
    else if Within(b, layer[0], v) then Image(layer[0], v)
    else MapLayer(b, layer[1..], v)
  }

  /** A value that no range contains passes through unchanged. */
  lemma {:induction false} MapLayerMiss(b: Bounds, layer: Layer, v: nat)
    requires forall k :: 0 <= k < |layer| ==> !Within(b, layer[k], v)
    ensures MapLayer(b, layer, v) == v
  {
    if |layer| > 0 {
      assert !Within(b, layer[0], v);
      MapLayerMiss(b, layer[1..], v);
    }
  }

  /** Otherwise the first range that contains it decides, whatever the
      later ranges say. */
  lemma {:induction false} MapLayerFirst(b: Bounds, layer: Layer, v: nat, k: nat)
    requires k < |layer| && Within(b, layer[k], v)
    requires forall j :: 0 <= j < k ==> !Within(b, layer[j], v)
    ensures MapLayer(b, layer, v) == Image(layer[k], v)
  {
    if k > 0 {
      assert !Within(b, layer[0], v);
      MapLayerFirst(b, layer[1..], v, k - 1);
    }
  }

  /** The source intervals of two ranges, read half-open, do not meet. */
  predicate SourcesApart(r: Range, s: Range) {
    r.src + r.len <= s.src || s.src + s.len <= r.src
  }

  /** The puzzle's promise about a map: no two source intervals overlap. */
  predicate DisjointSources(layer: Layer) {
    forall i, j :: 0 <= i < j < |layer| ==> SourcesApart(layer[i], layer[j])
  }

  /** With the puzzle's reading and disjoint sources, any range containing
      the value decides the result: the order of the ranges is irrelevant. */
  lemma HalfOpenAnyMatch(layer: Layer, v: nat, k: nat)
    requires DisjointSources(layer)
    requires k < |layer| && Within(HalfOpen, layer[k], v)
    ensures MapLayer(HalfOpen, layer, v) == Image(layer[k], v)
  {
    forall j | 0 <= j < k
      ensures !Within(HalfOpen, layer[j], v)
    {
      assert SourcesApart(layer[j], layer[k]);
    }
    MapLayerFirst(HalfOpen, layer, v, k);
  }

  /** The first map of the puzzle's worked example. */
  function ExampleLayer(): Layer {
    [Range(50, 98, 2), Range(52, 50, 48)]
  }

  /** Seed 79 goes to soil 81 under either reading. */
  lemma ExampleSeventyNine()
    ensures MapLayer(Inclusive, ExampleLayer(), 79) == 81
    ensures MapLayer(HalfOpen, ExampleLayer(), 79) == 81
  {
    MapLayerFirst(Inclusive, ExampleLayer(), 79, 1);
    MapLayerFirst(HalfOpen, ExampleLayer(), 79, 1);
  }

  /** As written, the end point 100 of `50 98 2` is captured and goes to 52;
      and 98, the start of that range, is also claimed by `52 50 48`, so
      the result depends on which range is listed first. */
  lemma InclusiveBoundary()
    ensures DisjointSources(ExampleLayer())
    ensures MapLayer(Inclusive, ExampleLayer(), 100) == 52
    ensures Within(Inclusive, ExampleLayer()[1], 98)
    ensures MapLayer(Inclusive, ExampleLayer(), 98) != Image(ExampleLayer()[1], 98)
  {
    MapLayerFirst(Inclusive, ExampleLayer(), 100, 0);
    MapLayerFirst(Inclusive, ExampleLayer(), 98, 0);
  }

  /** Read half-open, 100 is outside both ranges and stays 100. */
  lemma HalfOpenBoundary()
    ensures MapLayer(HalfOpen, ExampleLayer(), 100) == 100
  {
    MapLayerMiss(HalfOpen, ExampleLayer(), 100);
  }

  // ---------------------------------------------------------------------
  // The chain of maps

  /** The maps applied one after the other, the first map first. */
  function MapThrough(b: Bounds, layers: seq<Layer>, v: nat): nat
    decreases |layers|
  {
    if |layers| == 0 then v else MapThrough(b, layers[1..], MapLayer(b, layers[0], v))
  }

  /** Running two lists of maps in a row is running their concatenation. */
  lemma {:induction false} MapThroughAppend(b: Bounds, first: seq<Layer>, second: seq<Layer>, v: nat)
    ensures MapThrough(b, first + second, v) == MapThrough(b, second, MapThrough(b, first, v))
    decreases |first|
  {
    if |first| > 0 {
      assert (first + second)[1..] == first[1..] + second;
      MapThroughAppend(b, first[1..], second, MapLayer(b, first[0], v));
    } else {
      assert first + second == second;
    }
  }

  datatype MapName =
    | SeedToSoil | SoilToFertilizer | FertilizerToWater | WaterToLight
    | LightToTemperature | TemperatureToHumidity | HumidityToLocation

  /** The name a map carries in the almanac. */
  function NameText(n: MapName): string {
    match n
    case SeedToSoil => "seed-to-soil"
    case SoilToFertilizer => "soil-to-fertilizer"
    case FertilizerToWater => "fertilizer-to-water"
    case WaterToLight => "water-to-light"
    case LightToTemperature => "light-to-temperature"
    case TemperatureToHumidity => "temperature-to-humidity"
    case HumidityToLocation => "humidity-to-location"
  }

  /** The enumeration's lookup by value, `SeedMapName(t)`: the members
      tried in turn from position `k` of the order. */
  function NameFrom(t: string, k: nat): Option<MapName>
    decreases |Order| - k
  {
    if k >= |Order| then None
    else if t == NameText(Order[k]) then Some(Order[k])
    else NameFrom(t, k + 1)
  }

  function NameOf(t: string): Option<MapName> {
    NameFrom(t, 0)
  }

  /** No two maps share a name. */
  lemma NameTextInjective(m: MapName, n: MapName)
    requires NameText(m) == NameText(n)
    ensures m == n
  {
  }

  lemma {:induction false} NameFromIff(t: string, k: nat, n: MapName)
    ensures NameFrom(t, k) == Some(n) <==> t == NameText(n) && k <= Index(n)
    decreases |Order| - k
  {
    if k < |Order| {
      IndexAt(k);
      assert Order[Index(n)] == n;
      if t == NameText(Order[k]) {
        if t == NameText(n) {
          NameTextInjective(Order[k], n);
        }
      } else {
        NameFromIff(t, k + 1, n);
      }
    }
  }

  /** Each position of the order holds a different name. */
  lemma IndexAt(k: nat)
    requires k < |Order|
    ensures Index(Order[k]) == k
  {
  }

  /** The lookup recognises exactly the seven names, each as its own map. */
  lemma NameOfIff(t: string, n: MapName)
    ensures NameOf(t) == Some(n) <==> t == NameText(n)
  {
    NameFromIff(t, 0, n);
  }

  /** The order in which the script lines the maps up. */
  const Order: seq<MapName> := [SeedToSoil, SoilToFertilizer, FertilizerToWater, WaterToLight,
                                LightToTemperature, TemperatureToHumidity, HumidityToLocation]

  const MissingMap := "KeyError: a map is missing from the almanac"

  /** Every map the order names is in the table. */
  predicate Complete(table: map<MapName, Layer>) {
    forall k :: 0 <= k < |Order| ==> Order[k] in table
  }

  /** The maps, looked up by name in the fixed order. */
  function OrderLayers(table: map<MapName, Layer>): Result<seq<Layer>> {
    if Complete(table) then
      Success(seq(|Order|, k requires 0 <= k < |Order| => table[Order[k]]))
    else Failure(MissingMap)
  }

  /** A seed's location: the seed goes to soil, fertilizer, water, light,
      temperature and humidity, each through the map of that name. */
  function SeedLocation(b: Bounds, table: map<MapName, Layer>, v: nat): nat
    requires Complete(table)
  {
    assert Order[0] == SeedToSoil && Order[1] == SoilToFertilizer && Order[2] == FertilizerToWater;
    assert Order[3] == WaterToLight && Order[4] == LightToTemperature;
    assert Order[5] == TemperatureToHumidity && Order[6] == HumidityToLocation;
    var soil := MapLayer(b, table[SeedToSoil], v);
    var fertilizer := MapLayer(b, table[SoilToFertilizer], soil);
    var water := MapLayer(b, table[FertilizerToWater], fertilizer);
    var light := MapLayer(b, table[WaterToLight], water);
    var temperature := MapLayer(b, table[LightToTemperature], light);
    var humidity := MapLayer(b, table[TemperatureToHumidity], temperature);
    MapLayer(b, table[HumidityToLocation], humidity)
  }

  /** The script's chain of maps is the named chain from seed to location,
      whatever order the almanac lists the maps in; a missing map stops the
      script. */
  lemma ChainOrder(b: Bounds, table: map<MapName, Layer>, v: nat)
    ensures OrderLayers(table).Failure? <==> exists n :: n !in table
    ensures OrderLayers(table).Success? ==>
              MapThrough(b, OrderLayers(table).value, v) == SeedLocation(b, table, v)
  {
    if exists n :: n !in table {
      var n :| n !in table;
      assert Order[Index(n)] == n;
    }
    if OrderLayers(table).Success? {
      var layers := OrderLayers(table).value;
      var v0 := v;
      var v1 := MapLayer(b, layers[0], v0);
      var v2 := MapLayer(b, layers[1], v1);
      var v3 := MapLayer(b, layers[2], v2);
      var v4 := MapLayer(b, layers[3], v3);
      var v5 := MapLayer(b, layers[4], v4);
      var v6 := MapLayer(b, layers[5], v5);
      var v7 := MapLayer(b, layers[6], v6);
      assert MapThrough(b, layers[7..], v7) == v7;
      assert MapThrough(b, layers[6..], v6) == v7;
      assert MapThrough(b, layers[5..], v5) == v7;
      assert MapThrough(b, layers[4..], v4) == v7;
      assert MapThrough(b, layers[3..], v3) == v7;
      assert MapThrough(b, layers[2..], v2) == v7;
      assert MapThrough(b, layers[1..], v1) == v7;
    }
  }

  /** Where a name sits in the order. */
  function Index(n: MapName): (k: nat)
    ensures k < |Order| && Order[k] == n
  {
    match n
    case SeedToSoil => 0
    case SoilToFertilizer => 1
    case FertilizerToWater => 2
    case WaterToLight => 3
    case LightToTemperature => 4
    case TemperatureToHumidity => 5
    case HumidityToLocation => 6
  }

  // ---------------------------------------------------------------------
  // The lowest location

  function Locations(b: Bounds, seeds: seq<nat>, layers: seq<Layer>): (ls: seq<nat>)
    ensures |ls| == |seeds|
  {
    seq(|seeds|, k requires 0 <= k < |seeds| => MapThrough(b, layers, seeds[k]))
  }

  /** `min` folded over the values, starting from no value at all. */
  function MinOf(xs: seq<nat>): Option<nat> {
    if |xs| == 0 then None
    else
      var last := xs[|xs| - 1];
      Lower(MinOf(xs[..|xs| - 1]), last)
  }

  /** The fold finds a value exactly when there is one, and then it is one
      of the values and no larger than any of them. */
  lemma {:induction false} MinOfSpec(xs: seq<nat>)
    ensures MinOf(xs).Some? <==> |xs| > 0
    ensures MinOf(xs).Some? ==> forall k :: 0 <= k < |xs| ==> MinOf(xs).value <= xs[k]
    ensures MinOf(xs).Some? ==> exists k :: 0 <= k < |xs| && MinOf(xs).value == xs[k]
  {
    if |xs| > 1 {
      var prefix := xs[..|xs| - 1];
      MinOfSpec(prefix);
      assert forall k :: 0 <= k < |prefix| ==> prefix[k] == xs[k];
      var j :| 0 <= j < |prefix| && MinOf(prefix).value == prefix[j];
      if xs[|xs| - 1] >= MinOf(prefix).value {
        assert MinOf(xs).value == xs[j];
      }
    } else if |xs| == 1 {
      assert MinOf(xs).value == xs[0];
    }
  }

  const NoSeeds := "OverflowError: cannot convert float infinity to integer"

  /** The answer: the lowest location of any seed. With no seeds the
      running minimum stays infinite, and converting it to an integer
      fails. */
  function LowestLocation(b: Bounds, seeds: seq<nat>, layers: seq<Layer>): Result<nat> {
    match MinOf(Locations(b, seeds, layers))
    case None => Failure(NoSeeds)
    case Some(m) => Success(m)
  }

  /** The answer exists exactly when there are seeds; it is some seed's
      location and no seed's location is lower. */
  lemma LowestIsMin(b: Bounds, seeds: seq<nat>, layers: seq<Layer>)
    ensures LowestLocation(b, seeds, layers).Success? <==> |seeds| > 0
    ensures LowestLocation(b, seeds, layers).Success? ==>
              (forall k :: 0 <= k < |seeds| ==>
                 LowestLocation(b, seeds, layers).value <= MapThrough(b, layers, seeds[k]))
              && exists k :: 0 <= k < |seeds| &&
                   LowestLocation(b, seeds, layers).value == MapThrough(b, layers, seeds[k])
  {
    var ls := Locations(b, seeds, layers);
    MinOfSpec(ls);
    if |seeds| > 0 {
      var m := MinOf(ls).value;
      assert LowestLocation(b, seeds, layers) == Success(m);
      forall k | 0 <= k < |seeds|
        ensures m <= MapThrough(b, layers, seeds[k])
      {
        assert ls[k] == MapThrough(b, layers, seeds[k]);
      }
      var k :| 0 <= k < |ls| && m == ls[k];
      assert m == MapThrough(b, layers, seeds[k]);
    }
  }

  // ---------------------------------------------------------------------
  // The script's loops and its cache

  /** The script's table of seeds already sent through the maps is right
      for the maps in use: every entry is that seed's location. */
  predicate CacheValid(b: Bounds, layers: seq<Layer>, cache: map<nat, nat>) {
    forall v :: v in cache ==> cache[v] == MapThrough(b, layers, v)
  }

  /** The inner loop: the ranges of one map, stopping at the first that
      contains the value. */
  method MapLayerLoop(b: Bounds, layer: Layer, v: nat) returns (w: nat)
    ensures w == MapLayer(b, layer, v)
  {
    var j := 0;
    while j < |layer|
      invariant j <= |layer|
      invariant MapLayer(b, layer, v) == MapLayer(b, layer[j..], v)
    {
      var r := layer[j];
      if r.src <= v && (if b == Inclusive then v <= r.src + r.len else v < r.src + r.len) {
        return v - r.src + r.dst;
      }
      assert layer[j..][1..] == layer[j + 1..];
      j := j + 1;
    }
    return v;
  }

  /** The middle loop: the maps in order. */
  method MapThroughLoop(b: Bounds, layers: seq<Layer>, v: nat) returns (w: nat)
    ensures w == MapThrough(b, layers, v)
  {
    w := v;
    var i := 0;
    while i < |layers|
      invariant i <= |layers|
      invariant MapThrough(b, layers, v) == MapThrough(b, layers[i..], w)
    {
      assert layers[i..][1..] == layers[i + 1..];
      w := MapLayerLoop(b, layers[i], w);
      i := i + 1;
    }
  }

  /** One seed: its cached location, or else the location worked out and
      added to the cache. */
  method Visit(b: Bounds, layers: seq<Layer>, cache0: map<nat, nat>, start: nat)
    returns (current: nat, cache: map<nat, nat>)
    requires CacheValid(b, layers, cache0)
    ensures current == MapThrough(b, layers, start)
    ensures CacheValid(b, layers, cache)
    ensures cache.Keys == cache0.Keys + {start}
  {
    if start in cache0 {
      current, cache := cache0[start], cache0;
    } else {
      current := MapThroughLoop(b, layers, start);
      cache := cache0[start := current];
    }
  }

  /** The running minimum with one more value. */
  function Lower(lowest: Option<nat>, current: nat): Option<nat> {
    match lowest
    case None => Some(current)
    case Some(m) => Some(if current < m then current else m)
  }

  lemma MinOfStep(xs: seq<nat>, i: nat)
    requires i < |xs|
    ensures MinOf(xs[..i + 1]) == Lower(MinOf(xs[..i]), xs[i])
  {
    assert xs[..i + 1][..i] == xs[..i];
  }

  /** `find_lowest_mapped_value`: a seed already in the cache is not sent
      through the maps again; a new one is, and its location is cached. The
      cache stays right for the maps, it gains exactly the seeds, and the
      answer is the lowest location whether or not entries were reused. */
  method FindLowest(b: Bounds, seeds: seq<nat>, layers: seq<Layer>, cache0: map<nat, nat>)
    returns (r: Result<nat>, cache: map<nat, nat>)
    requires CacheValid(b, layers, cache0)
    ensures CacheValid(b, layers, cache)
    ensures forall v :: v in cache <==> v in cache0 || v in seeds
    ensures r == LowestLocation(b, seeds, layers)
  {
    ghost var ls := Locations(b, seeds, layers);
    cache := cache0;
    var lowest: Option<nat> := None;
    var i := 0;
    while i < |seeds|
      invariant i <= |seeds|
      invariant CacheValid(b, layers, cache)
      invariant forall v :: v in cache <==> v in cache0 || v in seeds[..i]
      invariant lowest == MinOf(ls[..i])
    {
      var current;
      current, cache := Visit(b, layers, cache, seeds[i]);
      lowest := Lower(lowest, current);
      MinOfStep(ls, i);
      assert seeds[..i + 1] == seeds[..i] + [seeds[i]];
      i := i + 1;
    }
    assert ls[..i] == ls;
    assert seeds[..i] == seeds;
    r := if lowest.None? then Failure(NoSeeds) else Success(lowest.value);
  }

  // ---------------------------------------------------------------------
  // Parsing

  /** A map block as the pattern reads it: its name and its range lines. */
  datatype Block = Block(name: string, rows: seq<string>)

  /** `(?:[\d ]+\n)*` at the start of `s`: the lines read and the number of
      characters they take. */
  function RowsOf(s: string): (r: (seq<string>, nat))
    ensures r.1 <= |s|
    decreases |s|
  {
    var e := ClassEnd(s, 0, DigitOrSpace);
    if 0 < e < |s| && s[e] == '\n' then
      var rest := RowsOf(s[e + 1..]);
      ([s[..e]] + rest.0, e + 1 + rest.1)
    else ([], 0)
  }

  /** `([\w-]+) map:\n((?:[\d ]+\n)+)` tried at the start of `s`: the block
      and the length of the match. */
  function MatchBlock(s: string): (m: Option<(Block, nat)>)
    ensures m.Some? ==> 0 < m.value.1 <= |s|
  {
    var e := ClassEnd(s, 0, WordOrDash);
    if e == 0 || !HasAt(s, e, " map:\n") then None
    else
      var rows := RowsOf(s[e + 6..]);
      if |rows.0| == 0 then None else Some((Block(s[..e], rows.0), e + 6 + rows.1))
  }

  /** `re.finditer` of the block pattern: matches left to right, each
      search resuming where the previous match ended. */
  function Blocks(s: string): seq<Block>
    decreases |s|
  {
    if |s| == 0 then []
    else match MatchBlock(s)
      case Some((blk, n)) => [blk] + Blocks(s[n..])
      case None => Blocks(s[1..])
  }

  const ArityError := "ValueError: a map line does not hold three numbers"
  const UnknownMap := "ValueError: not a map name"

  /** The numbers of one range line, which must be three. */
  function RangeOf(row: string): Result<Range> {
    var ns := Numbers(row);
    if |ns| == 3 then Success(Range(ns[0], ns[1], ns[2])) else Failure(ArityError)
  }

  function RangesOf(rows: seq<string>): (r: Result<Layer>)
    ensures r.Success? ==> |r.value| == |rows|
  {
    if |rows| == 0 then Success([])
    else
      var init :- RangesOf(rows[..|rows| - 1]);
      var last :- RangeOf(rows[|rows| - 1]);
      Success(init + [last])
  }

  /** The blocks entered by name in order; a later block of the same name
      replaces an earlier one. */
  function Table(blocks: seq<Block>): Result<map<MapName, Layer>> {
    if |blocks| == 0 then Success(map[])
    else
      var table :- Table(blocks[..|blocks| - 1]);
      var blk := blocks[|blocks| - 1];
      match NameOf(blk.name)
      case None => Failure(UnknownMap)
      case Some(n) =>
        var layer :- RangesOf(blk.rows);
        Success(table[n := layer])
  }

  /** A table that was built holds the table of all but the last block,
      with the last block's map entered on top. */
  lemma TableStep(blocks: seq<Block>)
    requires Table(blocks).Success? && |blocks| > 0
    ensures var last := blocks[|blocks| - 1];
            && Table(blocks[..|blocks| - 1]).Success?
            && NameOf(last.name).Some? && RangesOf(last.rows).Success?
            && Table(blocks).value ==
               Table(blocks[..|blocks| - 1]).value[NameOf(last.name).value := RangesOf(last.rows).value]
  {
  }

  /** A map named by some block is in the table. */
  lemma {:induction false} TableHas(blocks: seq<Block>, n: MapName, k: nat)
    requires Table(blocks).Success?
    requires k < |blocks| && NameOf(blocks[k].name) == Some(n)
    ensures n in Table(blocks).value
  {
    var prefix := blocks[..|blocks| - 1];
    TableStep(blocks);
    if k < |blocks| - 1 {
      assert prefix[k] == blocks[k];
      TableHas(prefix, n, k);
    }
  }

  /** Only maps named by some block are in the table. */
  lemma {:induction false} TableOnly(blocks: seq<Block>, n: MapName)
    requires Table(blocks).Success?
    requires n in Table(blocks).value
    ensures exists k :: 0 <= k < |blocks| && NameOf(blocks[k].name) == Some(n)
  {
    var last := |blocks| - 1;
    TableStep(blocks);
    if NameOf(blocks[last].name) != Some(n) {
      var prefix := blocks[..last];
      TableOnly(prefix, n);
      var k :| 0 <= k < |prefix| && NameOf(prefix[k].name) == Some(n);
      assert blocks[k] == prefix[k];
    }
  }

  /** A map's ranges come from the last block that carries its name. */
  lemma {:induction false} TableLastWins(blocks: seq<Block>, n: MapName, k: nat)
    requires Table(blocks).Success?
    requires k < |blocks| && NameOf(blocks[k].name) == Some(n)
    requires forall j :: k < j < |blocks| ==> NameOf(blocks[j].name) != Some(n)
    ensures n in Table(blocks).value && Success(Table(blocks).value[n]) == RangesOf(blocks[k].rows)
  {
    var prefix := blocks[..|blocks| - 1];
    TableStep(blocks);
    if k < |blocks| - 1 {
      assert prefix[k] == blocks[k];
      assert forall j :: k < j < |prefix| ==> prefix[j] == blocks[j];
      TableLastWins(prefix, n, k);
    }
  }

  const EmptyInput := "IndexError: the almanac has no lines"

  /** The first line of the text: `splitlines()[0]`. */
  function FirstLine(text: string): string {
    Split(text, '\n')[0]
  }

  /** The seeds and the maps in order, from the stripped text. */
  function ParseAlmanac(text: string): Result<(seq<nat>, seq<Layer>)> {
    if |text| == 0 then Failure(EmptyInput)
    else
      var table :- Table(Blocks(text));
      var layers :- OrderLayers(table);
      Success((Numbers(FirstLine(text)), layers))
  }

  /** The same, with the block pattern run on the text with a line break
      put back at its end, so that the last range line is read. */
  function ParseAlmanacFixed(text: string): Result<(seq<nat>, seq<Layer>)> {
    if |text| == 0 then Failure(EmptyInput)
    else
      var table :- Table(Blocks(text + "\n"));
      var layers :- OrderLayers(table);
      Success((Numbers(FirstLine(text)), layers))
  }

  /** Part 1 on the stripped text, with ranges read the script's way. */
  function Part1(text: string): Result<nat> {
    var parsed :- ParseAlmanac(text);
    LowestLocation(Inclusive, parsed.0, parsed.1)
  }

  /** Part 1 with both defects corrected. */
  function Part1Fixed(text: string): Result<nat> {
    var parsed :- ParseAlmanacFixed(text);
    LowestLocation(HalfOpen, parsed.0, parsed.1)
  }

  /** What the script ends with once the maps are read: a missing map stops
      it first; then no seeds stop it; otherwise it answers with the lowest
      location of any seed. */
  predicate Answers(b: Bounds, table: map<MapName, Layer>, seeds: seq<nat>, r: Result<nat>) {
    if !Complete(table) then r == Failure(MissingMap)
    else if |seeds| == 0 then r == Failure(NoSeeds)
    else
      && r.Success?
      && (forall k :: 0 <= k < |seeds| ==> r.value <= SeedLocation(b, table, seeds[k]))
      && (exists k :: 0 <= k < |seeds| && r.value == SeedLocation(b, table, seeds[k]))
  }

  lemma Solve(b: Bounds, table: map<MapName, Layer>, seeds: seq<nat>)
    ensures Answers(b, table, seeds,
                    match OrderLayers(table)
                    case Failure(e) => Failure(e)
                    case Success(layers) => LowestLocation(b, seeds, layers))
  {
    if Complete(table) {
      var layers := OrderLayers(table).value;
      LowestIsMin(b, seeds, layers);
      forall k | 0 <= k < |seeds|
        ensures MapThrough(b, layers, seeds[k]) == SeedLocation(b, table, seeds[k])
      {
        ChainOrder(b, table, seeds[k]);
      }
    }
  }

  /** What the script ends with on the stripped text, given the blocks its
      pattern finds: an empty text stops it, then a block that does not
      parse; otherwise the seeds of the first line are run through the maps
      the blocks name. */
  predicate AlmanacAnswers(b: Bounds, text: string, blocks: seq<Block>, r: Result<nat>) {
    if |text| == 0 then r == Failure(EmptyInput)
    else match Table(blocks)
      case Failure(e) => r == Failure(e)
      case Success(table) => Answers(b, table, Numbers(FirstLine(text)), r)
  }

  /** Part 1 from end to end, with the blocks the script's pattern finds. */
  lemma Part1Spec(text: string)
    ensures AlmanacAnswers(Inclusive, text, Blocks(text), Part1(text))
  {
    if |text| > 0 && Table(Blocks(text)).Success? {
      Solve(Inclusive, Table(Blocks(text)).value, Numbers(FirstLine(text)));
    }
  }

  /** The same for the corrected part 1, which reads every block to its last
      line and ranges as half-open. */
  lemma Part1FixedSpec(text: string)
    ensures AlmanacAnswers(HalfOpen, text, Blocks(text + "\n"), Part1Fixed(text))
  {
    if |text| > 0 && Table(Blocks(text + "\n")).Success? {
      Solve(HalfOpen, Table(Blocks(text + "\n")).value, Numbers(FirstLine(text)));
    }
  }

  // ---------------------------------------------------------------------
  // The text of a block, and reading it back

  predicate IsRowText(row: string) {
    |row| > 0 && forall k :: 0 <= k < |row| ==> InClass(row[k], DigitOrSpace)
  }

  predicate IsNameText(name: string) {
    |name| > 0 && forall k :: 0 <= k < |name| ==> InClass(name[k], WordOrDash)
  }

  /** Lines, each followed by a line break. */
  function LinesText(rows: seq<string>): string {
    if |rows| == 0 then "" else rows[0] + "\n" + LinesText(rows[1..])
  }

  /** A block as it ends a stripped almanac: the last range line has no
      line break after it. */
  function BlockText(name: string, rows: seq<string>): string
    requires |rows| >= 1
  {
    name + " map:\n" + LinesText(rows[..|rows| - 1]) + rows[|rows| - 1]
  }

  lemma {:induction false} LinesTextSnoc(rows: seq<string>, row: string)
    ensures LinesText(rows) + row + "\n" == LinesText(rows + [row])
    decreases |rows|
  {
    if |rows| == 0 {
      assert LinesText([row]) == row + "\n" + LinesText([]);
    } else {
      LinesTextSnoc(rows[1..], row);
      assert (rows + [row])[1..] == rows[1..] + [row];
      ConcatAssoc(rows[0] + "\n", LinesText(rows[1..]), row);
      ConcatAssoc(rows[0] + "\n", LinesText(rows[1..]) + row, "\n");
    }
  }

  /** One range line and its line break are read, and reading goes on. */
  lemma RowsOfCons(row: string, rest: string)
    requires IsRowText(row)
    ensures RowsOf(row + "\n" + rest) == ([row] + RowsOf(rest).0, |row| + 1 + RowsOf(rest).1)
  {
    var s := row + "\n" + rest;
    ClassEndAt(s, 0, |row|, DigitOrSpace);
    assert s[|row| + 1..] == rest;
    assert s[..|row|] == row;
  }

  lemma LinesTextCons(rows: seq<string>, t: string)
    requires |rows| > 0
    ensures LinesText(rows) + t == rows[0] + "\n" + (LinesText(rows[1..]) + t)
    ensures |LinesText(rows)| == |rows[0]| + 1 + |LinesText(rows[1..])|
  {
    ConcatAssoc(rows[0] + "\n", LinesText(rows[1..]), t);
  }

  /** Range lines each followed by a line break are all read, up to text
      where reading stops. */
  lemma {:induction false} RowsOfLines(rows: seq<string>, t: string)
    requires forall k :: 0 <= k < |rows| ==> IsRowText(rows[k])
    requires RowsOf(t) == ([], 0)
    ensures RowsOf(LinesText(rows) + t) == (rows, |LinesText(rows)|)
    decreases |rows|
  {
    if |rows| == 0 {
      assert LinesText(rows) + t == t;
    } else {
      LinesTextCons(rows, t);
      RowsOfCons(rows[0], LinesText(rows[1..]) + t);
      RowsOfLines(rows[1..], t);
      assert [rows[0]] + rows[1..] == rows;
    }
  }

  /** A range line with no line break after it is not read. */
  lemma RowsOfUnterminated(row: string)
    requires IsRowText(row)
    ensures RowsOf(row) == ([], 0)
  {
    ClassEndAt(row, 0, |row|, DigitOrSpace);
  }

  /** A block's header is matched and its range lines read from there. */
  lemma MatchBlockAt(name: string, body: string)
    requires IsNameText(name)
    ensures MatchBlock(name + " map:\n" + body) ==
              if |RowsOf(body).0| == 0 then None
              else Some((Block(name, RowsOf(body).0), |name| + 6 + RowsOf(body).1))
  {
    var header := " map:\n";
    var s := name + header + body;
    assert forall m :: 0 <= m < |name| ==> s[m] == name[m];
    assert s[|name|] == header[0] == ' ';
    ClassEndAt(s, 0, |name|, WordOrDash);
    assert HasAt(s, |name|, header) by {
      assert s[|name|..|name| + 6] == header;
    }
    assert s[|name| + 6..] == body;
    assert s[..|name|] == name;
  }

  lemma NoColonNoMatch(s: string)
    requires ':' !in s
    ensures MatchBlock(s).None?
  {
    var e := ClassEnd(s, 0, WordOrDash);
    var header := " map:\n";
    assert header[4] == ':';
    assert e + 6 <= |s| ==> s[e..e + 6][4] == s[e + 4] != ':';
    assert !HasAt(s, e, header);
  }

  /** Text without a colon holds no block. */
  lemma {:induction false} NoColonNoBlocks(s: string)
    requires ':' !in s
    ensures Blocks(s) == []
    decreases |s|
  {
    if |s| > 0 {
      NoColonNoMatch(s);
      assert ':' !in s[1..];
      NoColonNoBlocks(s[1..]);
    }
  }

  lemma RowNoColon(row: string)
    requires IsRowText(row)
    ensures ':' !in row
  {
  }

  /** A word followed by a colon starts no block, and neither does any
      later position when the colon is the text's last one. */
  lemma {:induction false} WordColonBlocks(w: string, t: string)
    requires forall k :: 0 <= k < |w| ==> InClass(w[k], WordOrDash)
    requires |t| > 0 && t[0] == ':' && ':' !in t[1..]
    ensures Blocks(w + t) == []
    decreases |w|
  {
    var s := w + t;
    assert s[|w|] == ':';
    ClassEndAt(s, 0, |w|, WordOrDash);
    assert |w| + 6 <= |s| ==> s[|w|..|w| + 6][0] == s[|w|];
    assert !HasAt(s, |w|, " map:\n");
    if |w| > 0 {
      assert s[1..] == w[1..] + t;
      WordColonBlocks(w[1..], t);
    } else {
      assert s == t && MatchBlock(s).None?;
      NoColonNoBlocks(t[1..]);
    }
  }

  /** A header whose one range line ends the text starts no block, and
      nothing after any suffix of its name does either. */
  lemma {:induction false} HeaderBlocksLost(w: string, row: string)
    requires forall k :: 0 <= k < |w| ==> InClass(w[k], WordOrDash)
    requires IsRowText(row)
    ensures Blocks(w + " map:\n" + row) == []
    decreases |w|
  {
    var s := w + " map:\n" + row;
    RowNoColon(row);
    if |w| > 0 {
      RowsOfUnterminated(row);
      MatchBlockAt(w, row);
      assert s[1..] == w[1..] + " map:\n" + row;
      HeaderBlocksLost(w[1..], row);
    } else {
      ClassEndAt(s, 0, 0, WordOrDash);
      assert s[1..] == "map" + (":\n" + row);
      WordColonBlocks("map", ":\n" + row);
    }
  }

  /** As written: a block with a single range line that ends the stripped
      text is not found at all, so its map is missing from the table. */
  lemma OneRowBlockLost(name: string, row: string)
    requires IsNameText(name) && IsRowText(row)
    ensures Blocks(BlockText(name, [row])) == []
  {
    assert BlockText(name, [row]) == name + " map:\n" + row;
    HeaderBlocksLost(name, row);
  }

  /** As written: a block that ends the stripped text loses its last range
      line, since the pattern wants a line break after every line. */
  lemma LastRowDropped(name: string, rows: seq<string>)
    requires IsNameText(name) && |rows| >= 2
    requires forall k :: 0 <= k < |rows| ==> IsRowText(rows[k])
    ensures Blocks(BlockText(name, rows)) == [Block(name, rows[..|rows| - 1])]
  {
    var init, last := rows[..|rows| - 1], rows[|rows| - 1];
    var body := LinesText(init) + last;
    var s := BlockText(name, rows);
    ConcatAssoc(name + " map:\n", LinesText(init), last);
    RowsOfUnterminated(last);
    RowsOfLines(init, last);
    MatchBlockAt(name, body);
    var n := |name| + 6 + |LinesText(init)|;
    assert s[n..] == last;
    RowNoColon(last);
    NoColonNoBlocks(last);
  }

  /** Corrected: with the line break put back, every range line is read. */
  lemma AllRowsRead(name: string, rows: seq<string>)
    requires IsNameText(name) && |rows| >= 1
    requires forall k :: 0 <= k < |rows| ==> IsRowText(rows[k])
    ensures Blocks(BlockText(name, rows) + "\n") == [Block(name, rows)]
  {
    var init, last := rows[..|rows| - 1], rows[|rows| - 1];
    var body := LinesText(rows);
    LinesTextSnoc(init, last);
    assert init + [last] == rows;
    var s := BlockText(name, rows) + "\n";
    ConcatAssoc(name + " map:\n", LinesText(init), last);
    ConcatAssoc(name + " map:\n", LinesText(init) + last, "\n");
    assert s == name + " map:\n" + body;
    assert RowsOf("") == ([], 0);
    RowsOfLines(rows, "");
    assert body + "" == body;
    MatchBlockAt(name, body);
    assert s[|s|..] == "";
  }
}
