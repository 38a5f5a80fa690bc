/**
 * The map-line parser (StreamParser.go): every input line names a city and lists its
 * roads as `direction=name` tokens, e.g. `Foo north=Bar west=Baz south=Qu-ux`. The
 * parser builds a GameMap from the lines and collects the adjacency conflicts it meets
 * without stopping at them.
 *
 * The effect of a line on the map is specified as a function on the road layout
 * (Layout.View); the methods, which drive a real GameMap, are proved to have exactly that
 * effect. An unknown direction word makes the Go program index a slot that does not
 * exist and panic; the model ends the parse there with the outcome `Panicked`.
 */
module StreamParser {
  import opened Wrappers
  import opened Directions
  import Text
  import Layout
  import Invasion

  /** How parsing a token, a line or a whole input ends. */
  datatype Outcome = Parsed(errors: seq<Layout.Conflict>) | Panicked(word: string)
  {
    /** This outcome followed by `next`: errors add up in order; a panic ends everything. */
    function Then(next: Outcome): (r: Outcome)
      ensures Parsed? && next.Parsed? ==> r == Parsed(errors + next.errors)
      ensures Panicked? ==> r == this
      ensures Parsed? && next.Panicked? ==> r == next
    {
      if Panicked? then this
      else if next.Panicked? then next
      else Parsed(errors + next.errors)
    }
  }

  /** Chaining outcomes is associative, so a parse can be split anywhere. */
  lemma ThenAssociative(a: Outcome, b: Outcome, c: Outcome)
    ensures a.Then(b).Then(c) == a.Then(b.Then(c))
  {
  }

  /** A parse that ends without errors changes nothing when chained on either side. */
  lemma ThenIdentity(o: Outcome)
    ensures o.Then(Parsed([])) == o
    ensures Parsed([]).Then(o) == o
  {
    if o.Parsed? {
      assert o.errors + [] == o.errors;
    }
  }

  /**
   * One token after the first of a line whose first token is `first`
   * (StreamParser.go:59-69): a token without `=`, or one that `=` does not cut into
   * exactly two parts, is skipped; otherwise its direction word is read case-insensitively
   * and UpdateCityWithNeighborhood(first, direction, name) runs, contributing its
   * conflict if any. An unknown direction word panics once both cities are upserted
   * (GameMap.go:128-131).
   */
  function PairStep(v: Layout.View, first: string, elem: string): (r: (Layout.View, Outcome))
    requires Layout.WellFormed(v)
    ensures Layout.WellFormed(r.0) && v.Keys <= r.0.Keys
    ensures r.1.Parsed? ==> |r.1.errors| <= 1
  {
    if '=' !in elem then (v, Parsed([]))
    else
      var pair := Text.Split(elem, '=');
      if |pair| != 2 then (v, Parsed([]))
      else
        var d := DirectionFromString(pair[0]);
        var name := Text.Trim(pair[1]);
        if !d.IsCompass() then (Layout.Upsert(Layout.Upsert(v, first), name), Panicked(pair[0]))
        else
          var (w, err) := Layout.Link(v, first, d, name);
          (w, Parsed(ToSeq(err)))
  }

  /**
   * The tokens `elems`, left to right, stopping at the first panic. Every token
   * contributes at most one error.
   */
  function Pairs(v: Layout.View, first: string, elems: seq<string>): (r: (Layout.View, Outcome))
    requires Layout.WellFormed(v)
    ensures Layout.WellFormed(r.0) && v.Keys <= r.0.Keys
    ensures r.1.Parsed? ==> |r.1.errors| <= |elems|
    decreases elems
  {
    if elems == [] then (v, Parsed([]))
    else
      var (w, o) := PairStep(v, first, elems[0]);
      if o.Panicked? then (w, o)
      else
        var (w2, o2) := Pairs(w, first, elems[1..]);
        (w2, o.Then(o2))
  }

  /**
   * parseSingleLine (StreamParser.go:48-72): cut the line at single spaces; the first
   * piece is upserted as a city, even when nothing follows it; the rest are tokens.
   */
  function ParseLine(v: Layout.View, line: string): (r: (Layout.View, Outcome))
    requires Layout.WellFormed(v)
    ensures Layout.WellFormed(r.0) && v.Keys <= r.0.Keys
  {
    var elems := Text.Split(line, ' ');
    Pairs(Layout.Upsert(v, Text.Trim(elems[0])), elems[0], elems[1..])
  }

  /**
   * Whatever follows, the line's first piece is a city afterwards, and each later piece
   * contributes at most one error.
   */
  lemma ParseLineFilesFirst(v: Layout.View, line: string)
    requires Layout.WellFormed(v)
    ensures Text.Trim(Text.Split(line, ' ')[0]) in ParseLine(v, line).0
    ensures ParseLine(v, line).1.Parsed? ==> |ParseLine(v, line).1.errors| < |Text.Split(line, ' ')|
  {
  }

  /**
   * parseScannerResult (StreamParser.go:36-46) from the layout `v`: the lines in order,
   * their error lists concatenated, the whole parse ending at the first panic.
   */
  function ParseLines(v: Layout.View, lines: seq<string>): (r: (Layout.View, Outcome))
    requires Layout.WellFormed(v)
    ensures Layout.WellFormed(r.0) && v.Keys <= r.0.Keys
    decreases lines
  {
    if lines == [] then (v, Parsed([]))
    else
      var (w, o) := ParseLine(v, lines[0]);
      if o.Panicked? then (w, o)
      else
        var (w2, o2) := ParseLines(w, lines[1..]);
        (w2, o.Then(o2))
  }

  /** The rest of a line from the layout `v` with the errors `errors` already collected. */
  function Resume(v: Layout.View, errors: seq<Layout.Conflict>, first: string, elems: seq<string>): (r: (Layout.View, Outcome))
    requires Layout.WellFormed(v)
  {
    var (w, o) := Pairs(v, first, elems);
    (w, Parsed(errors).Then(o))
  }

  /** The rest of an input from the layout `v` with the errors `errors` already collected. */
  function ResumeLines(v: Layout.View, errors: seq<Layout.Conflict>, lines: seq<string>): (r: (Layout.View, Outcome))
    requires Layout.WellFormed(v)
  {
    var (w, o) := ParseLines(v, lines);
    (w, Parsed(errors).Then(o))
  }

  /** Resuming with no errors collected is running from scratch. */
  lemma ResumeFromScratch(v: Layout.View, first: string, elems: seq<string>, lines: seq<string>)
    requires Layout.WellFormed(v)
    ensures Resume(v, [], first, elems) == Pairs(v, first, elems)
    ensures ResumeLines(v, [], lines) == ParseLines(v, lines)
  {
    var (w, o) := Pairs(v, first, elems);
    if o.Parsed? {
      assert [] + o.errors == o.errors;
    }
    var (w2, o2) := ParseLines(v, lines);
    if o2.Parsed? {
      assert [] + o2.errors == o2.errors;
    }
  }

  /** One token of a line consumed: what is left of the line is parsed from the token's result on. */
  lemma ResumeStep(v: Layout.View, errors: seq<Layout.Conflict>, first: string, elems: seq<string>)
    requires Layout.WellFormed(v) && elems != []
    ensures var (w, o) := PairStep(v, first, elems[0]);
      && (o.Panicked? ==> Resume(v, errors, first, elems) == (w, o))
      && (o.Parsed? ==> Resume(v, errors, first, elems) == Resume(w, errors + o.errors, first, elems[1..]))
  {
    var (w, o) := PairStep(v, first, elems[0]);
    if o.Parsed? {
      var (w2, o2) := Pairs(w, first, elems[1..]);
      ThenAssociative(Parsed(errors), o, o2);
    }
  }

  /** One line consumed: what is left of the input is parsed from the line's result on. */
  lemma ResumeLinesStep(v: Layout.View, errors: seq<Layout.Conflict>, lines: seq<string>)
    requires Layout.WellFormed(v) && lines != []
    ensures var (w, o) := ParseLine(v, lines[0]);
      && (o.Panicked? ==> ResumeLines(v, errors, lines) == (w, o))
      && (o.Parsed? ==> ResumeLines(v, errors, lines) == ResumeLines(w, errors + o.errors, lines[1..]))
  {
    var (w, o) := ParseLine(v, lines[0]);
    if o.Parsed? {
      var (w2, o2) := ParseLines(w, lines[1..]);
      ThenAssociative(Parsed(errors), o, o2);
    }
  }

  /**
   * The body of parseSingleLine's loop for a token after the first (StreamParser.go:59-69),
   * run on the map `m`: it changes the map as PairStep says.
   */
  method ParseToken(first: string, elem: string, m: Invasion.GameMap) returns (outcome: Outcome)
    requires m.Valid()
    modifies m, m.Slots()
    ensures m.Valid()
    ensures (m.View(), outcome) == PairStep(old(m.View()), first, elem)
    ensures old(m.Unoccupied()) ==> m.Unoccupied()
    ensures m.Grown()
  {
    m.ViewWellFormed();
    if '=' !in elem {
      return Parsed([]);
    }
    var pair := Text.Split(elem, '=');
    if |pair| != 2 {
      return Parsed([]);
    }
    var direction := DirectionFromString(pair[0]);
    if !direction.IsCompass() {
      var city, neighborhoodCity := m.UpsertBoth(first, Text.Trim(pair[1]));
      return Panicked(pair[0]);
    }
    var err := m.UpdateCityWithNeighborhood(first, direction, Text.Trim(pair[1]));
    outcome := Parsed(ToSeq(err));
  }

  /**
   * parseSingleLine (StreamParser.go:48-72), run on the map `m`: the map changes exactly as
   * ParseLine says and the outcome is ParseLine's, conflicts collected in token order.
   */
  method ParseSingleLine(line: string, m: Invasion.GameMap) returns (outcome: Outcome)
    requires m.Valid()
    modifies m, m.Slots()
    ensures m.Valid()
    ensures (m.View(), outcome) == ParseLine(old(m.View()), line)
    ensures old(m.Unoccupied()) ==> m.Unoccupied()
    ensures m.Grown()
  {
    var elems := Text.Split(line, ' ');
    outcome := ParsePieces(elems, m);
  }

  /**
   * The loop of parseSingleLine (StreamParser.go:51-71) over the pieces of a line: the first
   * is upserted as a city, each later one is a token of that city.
   */
  method ParsePieces(elems: seq<string>, m: Invasion.GameMap) returns (outcome: Outcome)
    requires m.Valid() && elems != []
    modifies m, m.Slots()
    ensures m.Valid()
    ensures (m.View(), outcome) == Pairs(Layout.Upsert(old(m.View()), Text.Trim(elems[0])), elems[0], elems[1..])
    ensures old(m.Unoccupied()) ==> m.Unoccupied()
    ensures m.Grown()
  {
    m.ViewWellFormed();
    ghost var target := Pairs(Layout.Upsert(m.View(), Text.Trim(elems[0])), elems[0], elems[1..]);
    // The first piece, which parseSingleLine handles at index 0 of its loop.
    var city := m.UpsertCity(Text.Trim(elems[0]));
    m.ViewWellFormed();
    ResumeFromScratch(m.View(), elems[0], elems[1..], []);
    var errors: seq<Layout.Conflict> := [];
    for i := 1 to |elems|
      invariant m.Valid() && Layout.WellFormed(m.View())
      invariant forall n :: n in old(m.cities) ==> n in m.cities && m.cities[n] == old(m.cities[n])
      invariant forall n :: n in m.cities && n !in old(m.cities) ==> fresh(m.cities[n].Neighborhoods)
      invariant old(m.Unoccupied()) ==> m.Unoccupied()
      invariant target == Resume(m.View(), errors, elems[0], elems[i..])
    {
      ghost var v := m.View();
      ghost var before := m.cities;
      ResumeStep(v, errors, elems[0], elems[i..]);
      var token := ParseToken(elems[0], elems[i], m);
      m.ViewWellFormed();
      forall n | n in old(m.cities)
        ensures n in m.cities && m.cities[n] == old(m.cities[n])
      {
        assert n in before;
      }
      forall n | n in m.cities && n !in old(m.cities)
        ensures fresh(m.cities[n].Neighborhoods)
      {
        if n in before {
          assert m.cities[n] == before[n];
        }
      }
      assert (m.View(), token) == PairStep(v, elems[0], elems[i..][0]);
      if token.Panicked? {
        return token;
      }
      errors := errors + token.errors;
      assert elems[i..][1..] == elems[i + 1..];
    }
    assert target == Resume(m.View(), errors, elems[0], []);
    assert errors + [] == errors;
    outcome := Parsed(errors);
  }

  /**
   * parseScannerResult (StreamParser.go:36-46): a new map, then every line in order; the
   * errors of the lines are concatenated. The map and outcome are ParseLines' from the
   * empty layout.
   */
  method ParseScannerResult(lines: seq<string>) returns (m: Invasion.GameMap, outcome: Outcome)
    ensures fresh(m) && m.Valid()
    ensures (m.View(), outcome) == ParseLines(map[], lines)
    ensures m.Unoccupied()
  {
    m := new Invasion.GameMap();
    var errors: seq<Layout.Conflict> := [];
    assert m.View() == map[];
    ResumeFromScratch(map[], "", [], lines);
    assert lines[0..] == lines;
    for i := 0 to |lines|
      invariant fresh(m) && m.Valid()
      invariant forall n :: n in m.cities ==> fresh(m.cities[n].Neighborhoods)
      invariant m.Unoccupied()
      invariant Layout.WellFormed(m.View())
      invariant ParseLines(map[], lines) == ResumeLines(m.View(), errors, lines[i..])
    {
      ResumeLinesStep(m.View(), errors, lines[i..]);
      ghost var before := m.cities;
      var errs := ParseSingleLine(lines[i], m);
      m.ViewWellFormed();
      forall n | n in m.cities
        ensures fresh(m.cities[n].Neighborhoods)
      {
        if n in before {
          assert m.cities[n] == before[n];
        }
      }
      if errs.Panicked? {
        return m, errs;
      }
      errors := errors + errs.errors;
    }
    assert errors + [] == errors;
    outcome := Parsed(errors);
  }

  // ---------------------------------------------------------------------------------------
  // The line format: a line declaring roads parses into exactly those roads.

  /** A road as a line declares it: a direction and the neighbour's name. */
  datatype Road = Road(direction: Direction, neighbour: string)

  /** The token a map line carries for a road, `direction=name`, as DumpMap also writes it. */
  function Token(road: Road): string {
    road.direction.String() + "=" + road.neighbour
  }

  function Tokens(roads: seq<Road>): (tokens: seq<string>)
    ensures |tokens| == |roads|
  {
    seq(|roads|, k requires 0 <= k < |roads| => Token(roads[k]))
  }

  /** The line declaring the roads of `first`: its name, a space, the tokens separated by spaces. */
  function Declaration(first: string, roads: seq<Road>): string {
    first + " " + Text.Join(Tokens(roads), ' ')
  }

  /** A name the line format can carry: no space (it separates tokens) and no `=`. */
  predicate Plain(name: string) {
    ' ' !in name && '=' !in name
  }

  /** The roads can be written on a line: compass directions and plain neighbour names. */
  predicate Declarable(roads: seq<Road>) {
    forall k :: 0 <= k < |roads| ==> roads[k].direction.IsCompass() && Plain(roads[k].neighbour)
  }

  /**
   * UpdateCityWithNeighborhood(first, direction, neighbour) for each road in turn, the
   * conflicts collected in order.
   */
  function LinkAll(v: Layout.View, first: string, roads: seq<Road>): (r: (Layout.View, seq<Layout.Conflict>))
    requires Layout.WellFormed(v) && Declarable(roads)
    ensures Layout.WellFormed(r.0) && |r.1| <= |roads|
    decreases roads
  {
    if roads == [] then (v, [])
    else
      var (w, err) := Layout.Link(v, first, roads[0].direction, roads[0].neighbour);
      var (w2, errs) := LinkAll(w, first, roads[1..]);
      (w2, ToSeq(err) + errs)
  }

  /** The cities a list of roads leads to. */
  function Destinations(roads: seq<Road>): (names: set<string>)
    ensures forall k :: 0 <= k < |roads| ==> roads[k].neighbour in names
  {
    set k | 0 <= k < |roads| :: roads[k].neighbour
  }

  /** Linking roads leaves every slot alone that none of the roads writes, in either direction. */
  lemma {:induction false} LinkAllFrame(v: Layout.View, first: string, roads: seq<Road>, n: string, i: int)
    requires Layout.WellFormed(v) && Declarable(roads) && n in v && 0 <= i < DirectionSize as int
    requires forall k :: 0 <= k < |roads| ==>
      (n, i) != (first, roads[k].direction as int) && (n, i) != (roads[k].neighbour, roads[k].direction.Opposite() as int)
    ensures n in LinkAll(v, first, roads).0
    ensures LinkAll(v, first, roads).0[n].slots[i] == v[n].slots[i]
    decreases roads
  {
    if roads != [] {
      var road := roads[0];
      Layout.LinkFrame(v, first, road.direction, road.neighbour);
      var w := Layout.Link(v, first, road.direction, road.neighbour).0;
      LinkAllFrame(w, first, roads[1..], n, i);
    }
  }

  /** `name` is not on the map, or is a standing city with every slot empty, as UpsertCity files it. */
  ghost predicate Vacant(v: Layout.View, name: string) {
    name !in v || (v[name].standing && forall i :: 0 <= i < |v[name].slots| ==> v[name].slots[i].None?)
  }

  /** Roads in distinct directions to distinct vacant cities, none of them `first`. */
  ghost predicate FreshRoads(v: Layout.View, first: string, roads: seq<Road>) {
    && (forall k :: 0 <= k < |roads| ==> Vacant(v, roads[k].neighbour) && roads[k].neighbour != first)
    && (forall j, k :: 0 <= j < k < |roads| ==>
          roads[j].neighbour != roads[k].neighbour && roads[j].direction != roads[k].direction)
  }

  /** After the first road is linked, the others are still fresh, and touch neither end of the first. */
  lemma FreshRoadsTail(v: Layout.View, first: string, roads: seq<Road>)
    requires Layout.WellFormed(v) && roads != [] && roads[0].direction.IsCompass() && FreshRoads(v, first, roads)
    ensures var w := Layout.Link(v, first, roads[0].direction, roads[0].neighbour).0;
      FreshRoads(w, first, roads[1..])
    ensures forall k :: 0 <= k < |roads| - 1 ==>
      && roads[1..][k].direction != roads[0].direction
      && roads[1..][k].neighbour != roads[0].neighbour && roads[1..][k].neighbour != first
      && roads[0].neighbour != first
  {
    var w := Layout.Link(v, first, roads[0].direction, roads[0].neighbour).0;
    var rest := roads[1..];
    Layout.LinkFrame(v, first, roads[0].direction, roads[0].neighbour);
    forall k | 0 <= k < |rest|
      ensures Vacant(w, rest[k].neighbour) && rest[k].neighbour != first
      ensures rest[k].direction != roads[0].direction && rest[k].neighbour != roads[0].neighbour
    {
      assert rest[k] == roads[k + 1];
      var n := rest[k].neighbour;
      if n in w {
        assert n in v && Vacant(v, n);
        forall i | 0 <= i < |w[n].slots| ensures w[n].slots[i].None? {
          assert w[n].slots[i] == v[n].slots[i];
        }
      }
    }
    forall j, k | 0 <= j < k < |rest|
      ensures rest[j].neighbour != rest[k].neighbour && rest[j].direction != rest[k].direction
    {
      assert rest[j] == roads[j + 1] && rest[k] == roads[k + 1];
    }
  }

  lemma DestinationsCons(roads: seq<Road>)
    requires roads != []
    ensures Destinations(roads) == {roads[0].neighbour} + Destinations(roads[1..])
  {
    forall x | x in Destinations(roads) ensures x in {roads[0].neighbour} + Destinations(roads[1..]) {
      var k :| 0 <= k < |roads| && roads[k].neighbour == x;
      if k > 0 {
        assert roads[1..][k - 1] == roads[k];
      }
    }
  }

  /** Linking roads is linking the first, then the rest from there. */
  lemma LinkAllCons(u: Layout.View, first: string, roads: seq<Road>,
                    w: Layout.View, e: Option<Layout.Conflict>, end: Layout.View, rest: seq<Layout.Conflict>)
    requires Layout.WellFormed(u) && roads != [] && Declarable(roads)
    requires Layout.Link(u, first, roads[0].direction, roads[0].neighbour) == (w, e)
    requires LinkAll(w, first, roads[1..]) == (end, rest)
    ensures LinkAll(u, first, roads) == (end, ToSeq(e) + rest)
  {
    assert forall k :: 0 <= k < |roads| - 1 ==> roads[1..][k] == roads[k + 1];
  }

  /** The roads after the first can still be written on a line. */
  lemma DeclarableTail(roads: seq<Road>)
    requires roads != [] && Declarable(roads)
    ensures Declarable(roads[1..])
  {
    assert forall k :: 0 <= k < |roads| - 1 ==> roads[1..][k] == roads[k + 1];
  }

  /**
   * Declaring roads in distinct directions to distinct cities that are not on the map or
   * have no road yet, none of them `first` itself, reports no conflict and files exactly
   * the destinations.
   */
  lemma {:induction false} LinkAllToNewFiles(v: Layout.View, first: string, roads: seq<Road>)
    requires Layout.WellFormed(v) && Declarable(roads) && first in v && FreshRoads(v, first, roads)
    ensures LinkAll(v, first, roads).1 == []
    ensures LinkAll(v, first, roads).0.Keys == v.Keys + Destinations(roads)
    decreases roads
  {
    if roads != [] {
      DeclarableTail(roads);
      var (w1, e1) := Layout.Link(v, first, roads[0].direction, roads[0].neighbour);
      var (w, errs) := LinkAll(w1, first, roads[1..]);
      LinkAllCons(v, first, roads, w1, e1, w, errs);
      Layout.LinkBackward(v, first, roads[0].direction, roads[0].neighbour);
      FreshRoadsTail(v, first, roads);
      LinkAllToNewFiles(w1, first, roads[1..]);
      DestinationsCons(roads);
    }
  }

  /** ... and points `first` at each destination, in the road's direction. */
  lemma {:induction false} LinkAllToNewForward(v: Layout.View, first: string, roads: seq<Road>)
    requires Layout.WellFormed(v) && Declarable(roads) && first in v && FreshRoads(v, first, roads)
    ensures first in LinkAll(v, first, roads).0
    ensures var w := LinkAll(v, first, roads).0;
      forall k :: 0 <= k < |roads| ==> w[first].slots[roads[k].direction as int] == Some(roads[k].neighbour)
    decreases roads
  {
    if roads != [] {
      var road, rest := roads[0], roads[1..];
      DeclarableTail(roads);
      var (w1, e1) := Layout.Link(v, first, road.direction, road.neighbour);
      var (w, errs) := LinkAll(w1, first, rest);
      LinkAllCons(v, first, roads, w1, e1, w, errs);
      Layout.LinkSetsForward(v, first, road.direction, road.neighbour);
      FreshRoadsTail(v, first, roads);
      LinkAllToNewForward(w1, first, rest);
      LinkAllFrame(w1, first, rest, first, road.direction as int);
      forall k | 0 < k < |roads|
        ensures roads[k] == rest[k - 1]
      {
      }
    }
  }

  /** ... and points each destination back at `first`, in the opposite direction. */
  lemma {:induction false} LinkAllToNewBackward(v: Layout.View, first: string, roads: seq<Road>)
    requires Layout.WellFormed(v) && Declarable(roads) && first in v && FreshRoads(v, first, roads)
    ensures var w := LinkAll(v, first, roads).0;
      forall k :: 0 <= k < |roads| ==>
        roads[k].neighbour in w && w[roads[k].neighbour].slots[roads[k].direction.Opposite() as int] == Some(first)
    decreases roads
  {
    if roads != [] {
      var road, rest := roads[0], roads[1..];
      DeclarableTail(roads);
      var (w1, e1) := Layout.Link(v, first, road.direction, road.neighbour);
      var (w, errs) := LinkAll(w1, first, rest);
      LinkAllCons(v, first, roads, w1, e1, w, errs);
      Layout.LinkBackward(v, first, road.direction, road.neighbour);
      FreshRoadsTail(v, first, roads);
      LinkAllToNewBackward(w1, first, rest);
      LinkAllFrame(w1, first, rest, road.neighbour, road.direction.Opposite() as int);
      forall k | 0 < k < |roads|
        ensures roads[k] == rest[k - 1]
      {
      }
    }
  }

  /** A road token splits at `=` into the direction's name and the neighbour's name. */
  lemma TokenSplits(road: Road)
    requires Plain(road.neighbour)
    ensures '=' in Token(road)
    ensures Text.Split(Token(road), '=') == [road.direction.String(), road.neighbour]
  {
    var name := road.direction.String();
    StringIsLetters(road.direction);
    assert Token(road)[|name|] == '=';
    assert Text.Join([name, road.neighbour], '=') == Token(road);
    Text.SplitJoin([name, road.neighbour], '=');
  }

  /** No road token holds a space. */
  lemma TokenHasNoSpace(road: Road)
    requires Plain(road.neighbour)
    ensures ' ' !in Token(road)
  {
    StringIsLetters(road.direction);
  }

  /** The tokens of declared roads are parsed as the links of those roads, in order. */
  lemma {:induction false} PairsOfTokens(v: Layout.View, first: string, roads: seq<Road>)
    requires Layout.WellFormed(v) && Declarable(roads)
    ensures var (w, errors) := LinkAll(v, first, roads);
      Pairs(v, first, Tokens(roads)) == (w, Parsed(errors))
    decreases roads
  {
    if roads != [] {
      var road := roads[0];
      var tokens := Tokens(roads);
      var rest := roads[1..];
      TokensCons(roads);
      var (w, err) := Layout.Link(v, first, road.direction, road.neighbour);
      TokenStep(v, first, road);
      assert Declarable(rest);
      var (w2, errs) := LinkAll(w, first, rest);
      PairsOfTokens(w, first, rest);
      PairsCons(v, first, tokens, w, ToSeq(err), w2, errs);
    }
  }

  lemma TokensCons(roads: seq<Road>)
    requires roads != []
    ensures Tokens(roads)[0] == Token(roads[0]) && Tokens(roads)[1..] == Tokens(roads[1..])
  {
  }

  /** Tokens that raise no panic: the errors of the first token come before those of the rest. */
  lemma PairsCons(v: Layout.View, first: string, elems: seq<string>,
                  w: Layout.View, e1: seq<Layout.Conflict>, w2: Layout.View, e2: seq<Layout.Conflict>)
    requires Layout.WellFormed(v) && Layout.WellFormed(w) && elems != []
    requires PairStep(v, first, elems[0]) == (w, Parsed(e1))
    requires Pairs(w, first, elems[1..]) == (w2, Parsed(e2))
    ensures Pairs(v, first, elems) == (w2, Parsed(e1 + e2))
  {
  }

  /** The token of a road, read after `first`, is that road linked from `first`. */
  lemma TokenStep(v: Layout.View, first: string, road: Road)
    requires Layout.WellFormed(v) && road.direction.IsCompass() && Plain(road.neighbour)
    ensures var (w, err) := Layout.Link(v, first, road.direction, road.neighbour);
      PairStep(v, first, Token(road)) == (w, Parsed(ToSeq(err)))
  {
    TokenSplits(road);
    StringRoundTrip(road.direction);
  }

  /**
   * A line declaring roads for a plain name parses as upserting that city, then linking
   * each declared road in order; the errors are exactly those links' conflicts.
   */
  lemma DeclarationParses(v: Layout.View, first: string, roads: seq<Road>)
    requires Layout.WellFormed(v) && Plain(first) && Declarable(roads)
    ensures var (w, errors) := LinkAll(Layout.Upsert(v, first), first, roads);
      ParseLine(v, Declaration(first, roads)) == (w, Parsed(errors))
  {
    DeclarationSplits(first, roads);
    var u := Layout.Upsert(v, first);
    if roads == [] {
      assert Pairs(u, first, [""]) == (u, Parsed([]).Then(Pairs(u, first, []).1));
    } else {
      PairsOfTokens(u, first, roads);
    }
  }

  /** A line declaring a single road is one UpdateCityWithNeighborhood call after filing its city. */
  lemma SingleRoadParses(v: Layout.View, first: string, road: Road)
    requires Layout.WellFormed(v) && Plain(first)
    requires road.direction.IsCompass() && Plain(road.neighbour)
    ensures var (w, err) := Layout.Link(Layout.Upsert(v, first), first, road.direction, road.neighbour);
      ParseLine(v, Declaration(first, [road])) == (w, Parsed(ToSeq(err)))
  {
    OneRoad(Layout.Upsert(v, first), first, road);
    DeclarationParses(v, first, [road]);
  }

  /** Linking a one-road list is linking that road. */
  lemma OneRoad(u: Layout.View, first: string, road: Road)
    requires Layout.WellFormed(u) && road.direction.IsCompass() && Plain(road.neighbour)
    ensures Declarable([road])
    ensures var (w, err) := Layout.Link(u, first, road.direction, road.neighbour);
      LinkAll(u, first, [road]) == (w, ToSeq(err))
  {
    assert [road][1..] == [];
    var (w, err) := Layout.Link(u, first, road.direction, road.neighbour);
    assert ToSeq(err) + [] == ToSeq(err);
  }

  /** Two lines: when the first does not panic, the second starts from its map and their outcomes chain. */
  lemma TwoLinesParse(v: Layout.View, a: string, b: string)
    requires Layout.WellFormed(v)
    ensures var (v1, o1) := ParseLine(v, a);
      var (v2, o2) := ParseLine(v1, b);
      o1.Parsed? ==> ParseLines(v, [a, b]) == (v2, o1.Then(o2))
  {
    var (v1, o1) := ParseLine(v, a);
    LastLine(v1, b);
    ThenIdentity(ParseLine(v1, b).1);
    assert [a, b][1..] == [b];
  }

  /** A single line from `v`: the parse ends where that line ends. */
  lemma LastLine(v: Layout.View, line: string)
    requires Layout.WellFormed(v)
    ensures ParseLines(v, [line]) == (ParseLine(v, line).0, ParseLine(v, line).1.Then(Parsed([])))
  {
    assert |[line][1..]| == 0;
  }

  /** A line made of a space-free first piece and space-free tokens is that piece upserted, then the tokens. */
  lemma LineOfPieces(v: Layout.View, first: string, tokens: seq<string>)
    requires Layout.WellFormed(v) && ' ' !in first && tokens != []
    requires forall k :: 0 <= k < |tokens| ==> ' ' !in tokens[k]
    ensures Pairs(Layout.Upsert(v, first), first, tokens) == ParseLine(v, first + " " + Text.Join(tokens, ' '))
  {
    var pieces := [first] + tokens;
    assert pieces[1..] == tokens;
    assert Text.Join(pieces, ' ') == first + " " + Text.Join(tokens, ' ');
    Text.SplitJoin(pieces, ' ');
  }

  /** A token the loop of parseSingleLine skips (StreamParser.go:59-64): no `=`, or not exactly two `=`-separated parts. */
  predicate Skipped(elem: string) {
    '=' !in elem || |Text.Split(elem, '=')| != 2
  }

  /** A skipped token at the end of a line changes neither the map nor the outcome. */
  lemma {:induction false} PairsSkipLast(v: Layout.View, first: string, elems: seq<string>, last: string)
    requires Layout.WellFormed(v) && Skipped(last)
    ensures Pairs(v, first, elems + [last]) == Pairs(v, first, elems)
    decreases elems
  {
    if elems == [] {
      assert ([] + [last])[1..] == [];
    } else {
      assert (elems + [last])[0] == elems[0] && (elems + [last])[1..] == elems[1..] + [last];
      var (w, o) := PairStep(v, first, elems[0]);
      if o.Parsed? {
        PairsSkipLast(w, first, elems[1..], last);
      }
    }
  }

  /**
   * A declaration followed by one more space-free token that parseSingleLine skips parses
   * as the declaration alone.
   */
  lemma TrailingSkippedToken(v: Layout.View, first: string, roads: seq<Road>, extra: string)
    requires Layout.WellFormed(v) && Plain(first) && Declarable(roads) && roads != []
    requires ' ' !in extra && Skipped(extra)
    ensures ParseLine(v, Declaration(first, roads) + " " + extra) == ParseLine(v, Declaration(first, roads))
  {
    var tokens := Tokens(roads);
    var more := tokens + [extra];
    TokensHaveNoSpace(roads);
    assert Declaration(first, roads) + " " + extra == first + " " + Text.Join(more, ' ') by {
      Text.JoinSnoc(tokens, ' ', extra);
      Regroup(first, Text.Join(tokens, ' '), extra);
    }
    assert tokens != [];
    SkipInLine(v, first, tokens, extra);
  }

  /** The same, for a line of any space-free tokens. */
  lemma SkipInLine(v: Layout.View, first: string, tokens: seq<string>, extra: string)
    requires Layout.WellFormed(v) && ' ' !in first && tokens != [] && ' ' !in extra && Skipped(extra)
    requires forall k :: 0 <= k < |tokens| ==> ' ' !in tokens[k]
    ensures ParseLine(v, first + " " + Text.Join(tokens + [extra], ' ')) == ParseLine(v, first + " " + Text.Join(tokens, ' '))
  {
    var u := Layout.Upsert(v, first);
    var r := Pairs(u, first, tokens);
    assert ParseLine(v, first + " " + Text.Join(tokens, ' ')) == r by {
      LineOfPieces(v, first, tokens);
    }
    assert ParseLine(v, first + " " + Text.Join(tokens + [extra], ' ')) == r by {
      SnocNoSpace(tokens, extra);
      LineOfPieces(v, first, tokens + [extra]);
      PairsSkipLast(u, first, tokens, extra);
    }
  }

  lemma TokensHaveNoSpace(roads: seq<Road>)
    requires Declarable(roads)
    ensures forall k :: 0 <= k < |Tokens(roads)| ==> ' ' !in Tokens(roads)[k]
  {
    forall k | 0 <= k < |roads| ensures ' ' !in Tokens(roads)[k] {
      TokenHasNoSpace(roads[k]);
    }
  }

  lemma SnocNoSpace(tokens: seq<string>, extra: string)
    requires ' ' !in extra && forall k :: 0 <= k < |tokens| ==> ' ' !in tokens[k]
    ensures forall k :: 0 <= k < |tokens + [extra]| ==> ' ' !in (tokens + [extra])[k]
  {
  }

  lemma Regroup(first: string, joined: string, extra: string)
    ensures first + " " + joined + " " + extra == first + " " + (joined + [' '] + extra)
  {
  }

  /** A declaration splits at spaces into its name and its tokens (a lone "" when there are none). */
  lemma DeclarationSplits(first: string, roads: seq<Road>)
    requires Plain(first) && Declarable(roads)
    ensures Text.Split(Declaration(first, roads), ' ') == [first] + (if roads == [] then [""] else Tokens(roads))
  {
    var tokens := Tokens(roads);
    var rest := if roads == [] then [""] else tokens;
    var pieces := [first] + rest;
    assert pieces[1..] == rest;
    assert Text.Join(rest, ' ') == Text.Join(tokens, ' ');
    assert Text.Join(pieces, ' ') == Declaration(first, roads);
    forall k | 0 <= k < |pieces|
      ensures ' ' !in pieces[k]
    {
      if k > 0 && roads != [] {
        assert pieces[k] == Token(roads[k - 1]);
        TokenHasNoSpace(roads[k - 1]);
      }
    }
    Text.SplitJoin(pieces, ' ');
  }

  // ---------------------------------------------------------------------------------------
  // The dump is in the line format.

  /** The roads of `name`'s slots below `k` that lead to a standing city, in slot order. */
  function LiveRoads(v: Layout.View, name: string, k: nat): (roads: seq<Road>)
    requires name in v && k <= |v[name].slots| <= DirectionSize as int
    ensures |roads| <= k
    ensures forall t :: 0 <= t < |roads| ==> roads[t].direction.IsCompass() && roads[t].neighbour in v
  {
    if k == 0 then []
    else
      var slot := v[name].slots[k - 1];
      LiveRoads(v, name, k - 1)
        + (if slot.Some? && slot.value in v && v[slot.value].standing
           then [Road((k - 1) as Direction, slot.value)] else [])
  }

  /** The words DumpMap writes for a city are the tokens of its live roads. */
  lemma {:induction false} WordsAreTokens(v: Layout.View, name: string, k: nat)
    requires name in v && k <= |v[name].slots| <= DirectionSize as int
    ensures Layout.Words(v, name, k) == Tokens(LiveRoads(v, name, k))
  {
    if k > 0 {
      WordsAreTokens(v, name, k - 1);
      var before := LiveRoads(v, name, k - 1);
      var slot := v[name].slots[k - 1];
      if slot.Some? && slot.value in v && v[slot.value].standing {
        var road := Road((k - 1) as Direction, slot.value);
        TokensSnoc(before, road);
      } else {
        assert LiveRoads(v, name, k) == before;
      }
    }
  }

  lemma TokensSnoc(roads: seq<Road>, road: Road)
    ensures Tokens(roads + [road]) == Tokens(roads) + [Token(road)]
  {
    assert forall k :: 0 <= k < |roads| ==> (roads + [road])[k] == roads[k];
  }

  /**
   * Reading back a line of the dump: parsing the line DumpMap writes for `name` into any
   * layout `w` re-declares exactly `name`'s roads to standing cities, in slot order,
   * provided the names involved are plain.
   */
  lemma DumpedLineParses(v: Layout.View, w: Layout.View, name: string)
    requires Layout.WellFormed(v) && Layout.WellFormed(w)
    requires name in v && forall n :: n in v ==> Plain(n)
    ensures var (u, errors) := LinkAll(Layout.Upsert(w, name), name, LiveRoads(v, name, DirectionSize as int));
      ParseLine(w, Layout.Line(v, name)) == (u, Parsed(errors))
  {
    var roads := LiveRoads(v, name, DirectionSize as int);
    WordsAreTokens(v, name, DirectionSize as int);
    assert Layout.Line(v, name) == Declaration(name, roads);
    DeclarationParses(w, name, roads);
  }

  // ---------------------------------------------------------------------------------------
  // What parsing keeps.

  /** Every slot names a city of the map, and no city is destroyed. */
  ghost predicate Sound(v: Layout.View) {
    Layout.WellFormed(v) && Layout.Closed(v) && forall n :: n in v ==> v[n].standing
  }

  lemma UpsertKeepsSound(v: Layout.View, name: string)
    requires Sound(v)
    ensures Sound(Layout.Upsert(v, name))
  {
  }

  lemma PairStepKeepsSound(v: Layout.View, first: string, elem: string)
    requires Sound(v)
    ensures Sound(PairStep(v, first, elem).0)
  {
    if '=' in elem {
      var pair := Text.Split(elem, '=');
      if |pair| == 2 {
        var d := DirectionFromString(pair[0]);
        var name := Text.Trim(pair[1]);
        if d.IsCompass() {
          Layout.LinkClosed(v, first, d, name);
          Layout.LinkFrame(v, first, d, name);
        } else {
          UpsertKeepsSound(v, first);
          UpsertKeepsSound(Layout.Upsert(v, first), name);
        }
      }
    }
  }

  lemma {:induction false} PairsKeepSound(v: Layout.View, first: string, elems: seq<string>)
    requires Sound(v)
    ensures Sound(Pairs(v, first, elems).0)
    decreases elems
  {
    if elems != [] {
      PairStepKeepsSound(v, first, elems[0]);
      var (w, o) := PairStep(v, first, elems[0]);
      if o.Parsed? {
        PairsKeepSound(w, first, elems[1..]);
      }
    }
  }

  /**
   * Parsing never destroys a city and never leaves a slot naming an unknown city: from a
   * sound layout (the empty one included) every input gives a sound layout.
   */
  lemma {:induction false} ParseKeepsSound(v: Layout.View, lines: seq<string>)
    requires Sound(v)
    ensures Sound(ParseLines(v, lines).0)
    decreases lines
  {
    if lines != [] {
      var elems := Text.Split(lines[0], ' ');
      UpsertKeepsSound(v, Text.Trim(elems[0]));
      PairsKeepSound(Layout.Upsert(v, Text.Trim(elems[0])), elems[0], elems[1..]);
      var (w, o) := ParseLine(v, lines[0]);
      if o.Parsed? {
        ParseKeepsSound(w, lines[1..]);
      }
    }
  }

  /** Parsing lines one batch after another is parsing them all: maps thread through, errors concatenate. */
  lemma {:induction false} ParseLinesAppend(v: Layout.View, a: seq<string>, b: seq<string>)
    requires Layout.WellFormed(v)
    ensures var (w, o) := ParseLines(v, a);
      ParseLines(v, a + b) == if o.Panicked? then (w, o) else ResumeLines(w, o.errors, b)
    decreases a
  {
    if a == [] {
      assert a + b == b;
      ResumeFromScratch(v, "", [], b);
    } else {
      assert (a + b)[0] == a[0] && (a + b)[1..] == a[1..] + b;
      var (w1, o1) := ParseLine(v, a[0]);
      if o1.Parsed? {
        ParseLinesAppend(w1, a[1..], b);
        var (w, o) := ParseLines(w1, a[1..]);
        if o.Parsed? {
          var (w2, o2) := ParseLines(w, b);
          ThenAssociative(o1, o, o2);
        }
      }
    }
  }
}
