/**
 * Worked inputs of the map-line parser: the example of the file format, an input with an
 * adjacency conflict, and a line with a direction word the program does not know. Each is
 * stated for any distinct plain city names; the example lines themselves, with the names
 * Foo, Bar, Baz and Qu-ux, are shown to be of that shape.
 */
module ParserScenarios {
  import opened Wrappers
  import opened Directions
  import Text
  import Layout
  import StreamParser

  const FooLine := "Foo north=Bar west=Baz south=Qu-ux"
  const BarLine := "Bar south=Foo"

  /** The roads of the example's first line, for the names `bar`, `baz` and `quux`. */
  function FooRoads(bar: string, baz: string, quux: string): seq<StreamParser.Road> {
    [StreamParser.Road(North, bar), StreamParser.Road(West, baz), StreamParser.Road(South, quux)]
  }

  lemma JoinThree(a: string, b: string, c: string, sep: char)
    ensures Text.Join([a, b, c], sep) == a + [sep] + b + [sep] + c
  {
    assert [a, b, c][1..] == [b, c];
    assert [b, c][1..] == [c];
    assert Text.Join([b, c], sep) == b + [sep] + c;
  }

  lemma FooTokens()
    ensures StreamParser.Tokens(FooRoads("Bar", "Baz", "Qu-ux")) == ["north=Bar", "west=Baz", "south=Qu-ux"]
  {
    var t := StreamParser.Tokens(FooRoads("Bar", "Baz", "Qu-ux"));
    assert t[0] == "north=Bar";
    assert t[1] == "west=Baz";
    assert t[2] == "south=Qu-ux";
  }

  lemma FooLineText()
    ensures FooLine == "Foo" + " " + ("north=Bar" + [' '] + "west=Baz" + [' '] + "south=Qu-ux")
  {
  }

  /** The example's first line declares Foo's three roads. */
  lemma FooLineDeclares()
    ensures FooLine == StreamParser.Declaration("Foo", FooRoads("Bar", "Baz", "Qu-ux"))
  {
    FooLineText();
    FooTokens();
    JoinThree("north=Bar", "west=Baz", "south=Qu-ux", ' ');
  }

  /** The example's second line declares Bar's road south to Foo. */
  lemma BarLineDeclares()
    ensures BarLine == StreamParser.Declaration("Bar", [StreamParser.Road(South, "Foo")])
  {
    var t := StreamParser.Tokens([StreamParser.Road(South, "Foo")]);
    assert t[0] == "south=Foo";
    assert t == ["south=Foo"];
  }

  /**
   * Foo's three roads linked after filing Foo in a layout where Bar, Baz and Qu-ux are
   * absent or have no road yet: those four cities added, no conflict, Foo and Bar facing
   * each other.
   */
  lemma FooRoadsLink(v: Layout.View, foo: string, bar: string, baz: string, quux: string)
    requires foo != bar && foo != baz && foo != quux && bar != baz && bar != quux && baz != quux
    requires StreamParser.Plain(bar) && StreamParser.Plain(baz) && StreamParser.Plain(quux)
    requires Layout.WellFormed(v) && foo !in v
    requires StreamParser.Vacant(v, bar) && StreamParser.Vacant(v, baz) && StreamParser.Vacant(v, quux)
    ensures var (w, errors) := StreamParser.LinkAll(Layout.Upsert(v, foo), foo, FooRoads(bar, baz, quux));
      && w.Keys == v.Keys + {foo, bar, baz, quux} && errors == []
      && w[foo].slots[North as int] == Some(bar) && w[bar].slots[South as int] == Some(foo)
  {
    var roads := FooRoads(bar, baz, quux);
    var u := Layout.Upsert(v, foo);
    FooRoadsFresh(v, foo, bar, baz, quux);
    StreamParser.LinkAllToNewFiles(u, foo, roads);
    StreamParser.LinkAllToNewForward(u, foo, roads);
    StreamParser.LinkAllToNewBackward(u, foo, roads);
    assert roads[0] == StreamParser.Road(North, bar);
  }

  /** Foo's roads lead to three distinct vacant cities other than Foo, in three distinct directions. */
  lemma FooRoadsFresh(v: Layout.View, foo: string, bar: string, baz: string, quux: string)
    requires foo != bar && foo != baz && foo != quux && bar != baz && bar != quux && baz != quux
    requires StreamParser.Plain(bar) && StreamParser.Plain(baz) && StreamParser.Plain(quux)
    requires Layout.WellFormed(v) && foo !in v
    requires StreamParser.Vacant(v, bar) && StreamParser.Vacant(v, baz) && StreamParser.Vacant(v, quux)
    ensures StreamParser.Declarable(FooRoads(bar, baz, quux))
    ensures StreamParser.FreshRoads(Layout.Upsert(v, foo), foo, FooRoads(bar, baz, quux))
    ensures Layout.Upsert(v, foo).Keys + StreamParser.Destinations(FooRoads(bar, baz, quux)) == v.Keys + {foo, bar, baz, quux}
  {
    var roads := FooRoads(bar, baz, quux);
    var u := Layout.Upsert(v, foo);
    assert StreamParser.Vacant(u, bar) && StreamParser.Vacant(u, baz) && StreamParser.Vacant(u, quux);
    assert StreamParser.Destinations(roads) == {bar, baz, quux} by {
      assert roads[0].neighbour == bar && roads[1].neighbour == baz && roads[2].neighbour == quux;
    }
  }

  /**
   * The example's first line over a layout without Foo, where Bar, Baz and Qu-ux are absent
   * or have no road yet: the four cities are filed, no error, Foo and Bar facing each other.
   */
  lemma ExampleFirstLine(v: Layout.View, foo: string, bar: string, baz: string, quux: string)
    requires foo != bar && foo != baz && foo != quux && bar != baz && bar != quux && baz != quux
    requires StreamParser.Plain(foo) && StreamParser.Plain(bar) && StreamParser.Plain(baz) && StreamParser.Plain(quux)
    requires Layout.WellFormed(v) && foo !in v
    requires StreamParser.Vacant(v, bar) && StreamParser.Vacant(v, baz) && StreamParser.Vacant(v, quux)
    ensures var (w, outcome) := StreamParser.ParseLine(v, StreamParser.Declaration(foo, FooRoads(bar, baz, quux)));
      && w.Keys == v.Keys + {foo, bar, baz, quux}
      && outcome == StreamParser.Parsed([])
      && w[foo].slots[North as int] == Some(bar) && w[bar].slots[South as int] == Some(foo)
  {
    var roads := FooRoads(bar, baz, quux);
    assert StreamParser.Declarable(roads);
    StreamParser.DeclarationParses(v, foo, roads);
    FooRoadsLink(v, foo, bar, baz, quux);
  }

  /** The example's first line on a map holding only Baz, as UpsertCity filed it: four cities, no error. */
  lemma ExampleOverFiledCity(foo: string, bar: string, baz: string, quux: string)
    requires foo != bar && foo != baz && foo != quux && bar != baz && bar != quux && baz != quux
    requires StreamParser.Plain(foo) && StreamParser.Plain(bar) && StreamParser.Plain(baz) && StreamParser.Plain(quux)
    ensures var (w, outcome) := StreamParser.ParseLine(Layout.Upsert(map[], baz), StreamParser.Declaration(foo, FooRoads(bar, baz, quux)));
      && w.Keys == {foo, bar, baz, quux}
      && outcome == StreamParser.Parsed([])
  {
    var v := Layout.Upsert(map[], baz);
    assert Layout.WellFormed(v) && v.Keys == {baz} && foo !in v
      && StreamParser.Vacant(v, bar) && StreamParser.Vacant(v, baz) && StreamParser.Vacant(v, quux) by {
      assert v == map[baz := Layout.Founded];
    }
    ExampleFirstLine(v, foo, bar, baz, quux);
    Absorbed(v.Keys, {foo, bar, baz, quux});
  }

  lemma Absorbed(names: set<string>, all: set<string>)
    requires names <= all
    ensures names + all == all
  {
  }

  /**
   * A line repeating a road that is already mirrored, as the example's second line does:
   * no city is added, no error, and both slots still name each other.
   */
  lemma RepeatedRoad(v: Layout.View, foo: string, bar: string)
    requires Layout.WellFormed(v) && StreamParser.Plain(foo) && StreamParser.Plain(bar)
    requires foo in v && bar in v && v[foo].slots[North as int] == Some(bar)
    ensures var (w, outcome) := StreamParser.ParseLine(v, StreamParser.Declaration(bar, [StreamParser.Road(South, foo)]));
      && w.Keys == v.Keys
      && outcome == StreamParser.Parsed([])
      && w[foo].slots[North as int] == Some(bar) && w[bar].slots[South as int] == Some(foo)
  {
    StreamParser.SingleRoadParses(v, bar, StreamParser.Road(South, foo));
    var u := Layout.Upsert(v, bar);
    Layout.LinkBackward(u, bar, South, foo);
    Layout.LinkSetsForward(u, bar, South, foo);
  }

  /**
   * The example of the format, Foo's line then Bar's: four cities, no error, and Foo and
   * Bar facing each other; Bar's line only repeats a road already mirrored.
   */
  lemma ExampleParses(foo: string, bar: string, baz: string, quux: string)
    requires foo != bar && foo != baz && foo != quux && bar != baz && bar != quux && baz != quux
    requires StreamParser.Plain(foo) && StreamParser.Plain(bar) && StreamParser.Plain(baz) && StreamParser.Plain(quux)
    ensures var lines := [StreamParser.Declaration(foo, FooRoads(bar, baz, quux)),
                          StreamParser.Declaration(bar, [StreamParser.Road(South, foo)])];
      var (v, outcome) := StreamParser.ParseLines(map[], lines);
      && v.Keys == {foo, bar, baz, quux}
      && outcome == StreamParser.Parsed([])
      && v[foo].slots[North as int] == Some(bar) && v[bar].slots[South as int] == Some(foo)
  {
    var first := StreamParser.Declaration(foo, FooRoads(bar, baz, quux));
    var second := StreamParser.Declaration(bar, [StreamParser.Road(South, foo)]);
    var none: seq<Layout.Conflict> := [];
    var v1 := StreamParser.ParseLine(map[], first).0;
    assert StreamParser.ParseLine(map[], first).1 == StreamParser.Parsed(none) && Layout.WellFormed(v1)
      && v1.Keys == {foo, bar, baz, quux} && v1[foo].slots[North as int] == Some(bar) by {
      var empty: Layout.View := map[];
      ExampleFirstLine(empty, foo, bar, baz, quux);
      assert empty.Keys + {foo, bar, baz, quux} == {foo, bar, baz, quux};
    }
    var w := StreamParser.ParseLine(v1, second).0;
    assert StreamParser.ParseLine(v1, second).1 == StreamParser.Parsed(none)
      && w.Keys == v1.Keys && w[foo].slots[North as int] == Some(bar) && w[bar].slots[South as int] == Some(foo) by {
      RepeatedRoad(v1, foo, bar);
    }
    assert StreamParser.ParseLines(map[], [first, second]) == (w, StreamParser.Parsed(none)) by {
      StreamParser.TwoLinesParse(map[], first, second);
      StreamParser.ThenIdentity(StreamParser.ParseLine(v1, second).1);
    }
  }

  /** A token `a=b=c` is cut by `=` into three pieces, so parseSingleLine skips it. */
  lemma ThreePieces(a: string, b: string, c: string)
    requires StreamParser.Plain(a) && StreamParser.Plain(b) && StreamParser.Plain(c)
    ensures ' ' !in a + "=" + b + "=" + c
    ensures StreamParser.Skipped(a + "=" + b + "=" + c)
  {
    JoinThree(a, b, c, '=');
    Text.SplitJoin([a, b, c], '=');
  }

  /** `east=EAC=aina` is such a token, and holds no space. */
  lemma ThreePieceToken()
    ensures ' ' !in "east=EAC=aina" && StreamParser.Skipped("east=EAC=aina")
  {
    var token := "east" + "=" + "EAC" + "=" + "aina";
    ThreePieces("east", "EAC", "aina");
    assert token == "east=EAC=aina";
  }

  /**
   * The example's first line with the token `east=EAC=aina` added, on a map holding only
   * Baz: the token is skipped, so four cities and no error, as without it.
   */
  lemma InvalidPairIgnored(foo: string, bar: string, baz: string, quux: string)
    requires foo != bar && foo != baz && foo != quux && bar != baz && bar != quux && baz != quux
    requires StreamParser.Plain(foo) && StreamParser.Plain(bar) && StreamParser.Plain(baz) && StreamParser.Plain(quux)
    ensures var line := StreamParser.Declaration(foo, FooRoads(bar, baz, quux)) + " " + "east=EAC=aina";
      var r := StreamParser.ParseLine(Layout.Upsert(map[], baz), line);
      && r.0.Keys == {foo, bar, baz, quux}
      && r.1 == StreamParser.Parsed([])
  {
    ThreePieceToken();
    SkippedTokenOver(foo, bar, baz, quux, "east=EAC=aina");
  }

  /** Any trailing token without a space that the parser skips leaves the first example line's result alone. */
  lemma SkippedTokenOver(foo: string, bar: string, baz: string, quux: string, extra: string)
    requires foo != bar && foo != baz && foo != quux && bar != baz && bar != quux && baz != quux
    requires StreamParser.Plain(foo) && StreamParser.Plain(bar) && StreamParser.Plain(baz) && StreamParser.Plain(quux)
    requires ' ' !in extra && StreamParser.Skipped(extra)
    ensures var r := StreamParser.ParseLine(Layout.Upsert(map[], baz), StreamParser.Declaration(foo, FooRoads(bar, baz, quux)) + " " + extra);
      && r.0.Keys == {foo, bar, baz, quux}
      && r.1 == StreamParser.Parsed([])
  {
    FooRoadsDeclarable(bar, baz, quux);
    var v := Layout.Upsert(map[], baz);
    assert Layout.WellFormed(v) by {
      assert v == map[baz := Layout.Founded];
    }
    StreamParser.TrailingSkippedToken(v, foo, FooRoads(bar, baz, quux), extra);
    ExampleOverFiledCity(foo, bar, baz, quux);
  }

  /** The map of the conflict test: `baz` given a road east to `bar`, which mirrors it west; `bar`'s south stays empty. */
  lemma EastRoad(baz: string, bar: string)
    requires baz != bar
    ensures var v := Layout.Link(map[], baz, East, bar).0;
      && v.Keys == {baz, bar}
      && Layout.SlotOf(v, baz, East) == Some(bar)
      && Layout.SlotOf(v, bar, West) == Some(baz)
      && Layout.SlotOf(v, bar, South) == None
  {
    var empty: Layout.View := map[];
    Layout.LinkSetsForward(empty, baz, East, bar);
    Layout.LinkSlotAt(empty, baz, East, bar, bar, West as int);
    Layout.LinkSlotAt(empty, baz, East, bar, bar, South as int);
    Absorbed(empty.Keys, {baz, bar});
  }

  /** Linking three roads is three Link calls, their conflicts in order. */
  lemma LinkAllThree(u: Layout.View, first: string, roads: seq<StreamParser.Road>,
                     w1: Layout.View, e1: Option<Layout.Conflict>, w2: Layout.View, e2: Option<Layout.Conflict>,
                     w3: Layout.View, e3: Option<Layout.Conflict>)
    requires Layout.WellFormed(u) && |roads| == 3 && StreamParser.Declarable(roads)
    requires Layout.Link(u, first, roads[0].direction, roads[0].neighbour) == (w1, e1)
    requires Layout.Link(w1, first, roads[1].direction, roads[1].neighbour) == (w2, e2)
    requires Layout.Link(w2, first, roads[2].direction, roads[2].neighbour) == (w3, e3)
    ensures StreamParser.LinkAll(u, first, roads) == (w3, ToSeq(e1) + ToSeq(e2) + ToSeq(e3))
  {
    var r1, r2 := roads[1..], roads[2..];
    Tails(roads);
    var t1, t2, t3 := ToSeq(e1), ToSeq(e2), ToSeq(e3);
    assert StreamParser.LinkAll(w2, first, r2) == (w3, t3) by {
      StreamParser.OneRoad(w2, first, roads[2]);
    }
    assert StreamParser.LinkAll(w1, first, r1) == (w3, t2 + t3) by {
      assert Layout.WellFormed(w1);
      StreamParser.LinkAllCons(w1, first, r1, w2, e2, w3, t3);
    }
    StreamParser.LinkAllCons(u, first, roads, w1, e1, w3, t2 + t3);
    Regrouped(t1, t2, t3);
  }

  /** The tails of a three-road list. */
  lemma Tails(roads: seq<StreamParser.Road>)
    requires |roads| == 3 && StreamParser.Declarable(roads)
    ensures roads[1..][1..] == roads[2..] && roads[1..][0] == roads[1] && roads[2..] == [roads[2]]
    ensures StreamParser.Declarable(roads[1..])
    ensures roads[2].direction.IsCompass() && StreamParser.Plain(roads[2].neighbour)
  {
    assert roads[1..][1] == roads[2];
  }

  /** Concatenation regroups freely. */
  lemma Regrouped(a: seq<Layout.Conflict>, b: seq<Layout.Conflict>, c: seq<Layout.Conflict>)
    ensures a + (b + c) == a + b + c
  {
  }

  /**
   * Foo's three roads when Bar's south slot is empty but Baz's east slot already names Bar:
   * the road west to Baz is the one conflict, and only Qu-ux is added.
   */
  lemma WestRoadClashes(u: Layout.View, foo: string, bar: string, baz: string, quux: string)
    requires foo != bar && foo != baz && foo != quux && bar != baz && bar != quux && baz != quux
    requires StreamParser.Plain(bar) && StreamParser.Plain(baz) && StreamParser.Plain(quux)
    requires Layout.WellFormed(u) && foo in u && bar in u && baz in u && quux !in u
    requires Layout.SlotOf(u, bar, South) == None && Layout.SlotOf(u, baz, East) == Some(bar)
    ensures var (w, errors) := StreamParser.LinkAll(u, foo, FooRoads(bar, baz, quux));
      && w.Keys == u.Keys + {quux}
      && errors == [Layout.Conflict(foo, West, baz, East, bar)]
  {
    var roads := FooRoads(bar, baz, quux);
    assert StreamParser.Declarable(roads);
    var (w1, e1) := Layout.Link(u, foo, North, bar);
    assert e1 == None && w1.Keys == u.Keys && Layout.SlotOf(w1, baz, East) == Some(bar) by {
      Layout.LinkBackward(u, foo, North, bar);
      Layout.LinkFrame(u, foo, North, bar);
      Absorbed({foo, bar}, u.Keys);
    }
    var (w2, e2) := Layout.Link(w1, foo, West, baz);
    assert e2 == Some(Layout.Conflict(foo, West, baz, East, bar)) && w2.Keys == u.Keys by {
      Layout.LinkBackward(w1, foo, West, baz);
      Absorbed({foo, baz}, u.Keys);
    }
    var (w3, e3) := Layout.Link(w2, foo, South, quux);
    assert e3 == None && w3.Keys == u.Keys + {quux} by {
      Layout.LinkBackward(w2, foo, South, quux);
      Absorbed({foo}, u.Keys);
    }
    LinkAllThree(u, foo, roads, w1, e1, w2, e2, w3, e3);
  }

  /**
   * The conflict test of the parser: once `baz` has a road east to `bar`, the example's
   * first line files four cities and reports exactly one conflict, its road west to `baz`,
   * whose east slot already names `bar`.
   */
  lemma ConflictPath(foo: string, bar: string, baz: string, quux: string)
    requires foo != bar && foo != baz && foo != quux && bar != baz && bar != quux && baz != quux
    requires StreamParser.Plain(foo) && StreamParser.Plain(bar) && StreamParser.Plain(baz) && StreamParser.Plain(quux)
    ensures var v := Layout.Link(map[], baz, East, bar).0;
      var (w, outcome) := StreamParser.ParseLine(v, StreamParser.Declaration(foo, FooRoads(bar, baz, quux)));
      && w.Keys == {foo, bar, baz, quux}
      && outcome == StreamParser.Parsed([Layout.Conflict(foo, West, baz, East, bar)])
  {
    var v := Layout.Link(map[], baz, East, bar).0;
    EastRoad(baz, bar);
    ConflictOver(v, foo, bar, baz, quux);
  }

  /** The conflict test's first line over any map filing just `baz` and `bar`, with `baz`'s east slot naming `bar`. */
  lemma ConflictOver(v: Layout.View, foo: string, bar: string, baz: string, quux: string)
    requires foo != bar && foo != baz && foo != quux && bar != baz && bar != quux && baz != quux
    requires StreamParser.Plain(foo) && StreamParser.Plain(bar) && StreamParser.Plain(baz) && StreamParser.Plain(quux)
    requires Layout.WellFormed(v) && v.Keys == {baz, bar}
    requires Layout.SlotOf(v, baz, East) == Some(bar) && Layout.SlotOf(v, bar, South) == None
    ensures var (w, outcome) := StreamParser.ParseLine(v, StreamParser.Declaration(foo, FooRoads(bar, baz, quux)));
      && w.Keys == {foo, bar, baz, quux}
      && outcome == StreamParser.Parsed([Layout.Conflict(foo, West, baz, East, bar)])
  {
    var roads := FooRoads(bar, baz, quux);
    var u := Layout.Upsert(v, foo);
    var (w, errors) := StreamParser.LinkAll(u, foo, roads);
    assert w.Keys == {foo, bar, baz, quux} && errors == [Layout.Conflict(foo, West, baz, East, bar)] by {
      assert u.Keys == {foo, bar, baz} && Layout.SlotOf(u, bar, South) == None
        && Layout.SlotOf(u, baz, East) == Some(bar);
      WestRoadClashes(u, foo, bar, baz, quux);
      AddedFourth(u.Keys, foo, bar, baz, quux);
    }
    FooRoadsDeclarable(bar, baz, quux);
    StreamParser.DeclarationParses(v, foo, roads);
  }

  lemma FooRoadsDeclarable(bar: string, baz: string, quux: string)
    requires StreamParser.Plain(bar) && StreamParser.Plain(baz) && StreamParser.Plain(quux)
    ensures StreamParser.Declarable(FooRoads(bar, baz, quux))
  {
  }

  lemma AddedFourth(names: set<string>, foo: string, bar: string, baz: string, quux: string)
    requires names == {foo, bar, baz}
    ensures names + {quux} == {foo, bar, baz, quux}
  {
  }

  /** Linking `foo` north to a `bar` not filed yet: both filed, `bar`'s south names `foo`, no error. */
  lemma RoadToNewCity(v: Layout.View, foo: string, bar: string)
    requires Layout.WellFormed(v) && foo != bar && bar !in v
    ensures var (w, err) := Layout.Link(Layout.Upsert(v, foo), foo, North, bar);
      && w.Keys == v.Keys + {foo, bar}
      && err == None
      && w[bar].slots[South as int] == Some(foo)
  {
    var u := Layout.Upsert(v, foo);
    Layout.LinkBackward(u, foo, North, bar);
    assert bar !in u;
  }

  /** A first line giving `foo` a road north to `bar`: both filed, mirrored, no error. */
  lemma FirstRoad(foo: string, bar: string)
    requires StreamParser.Plain(foo) && StreamParser.Plain(bar) && foo != bar
    ensures var (w, outcome) := StreamParser.ParseLine(map[], StreamParser.Declaration(foo, [StreamParser.Road(North, bar)]));
      && w.Keys == {foo, bar}
      && outcome == StreamParser.Parsed([])
      && w[bar].slots[South as int] == Some(foo)
  {
    var empty: Layout.View := map[];
    RoadToNewCity(empty, foo, bar);
    assert empty.Keys + {foo, bar} == {foo, bar};
    StreamParser.SingleRoadParses(empty, foo, StreamParser.Road(North, bar));
  }

  /** Linking `baz` north to `bar` when `bar`'s south already names `foo`: the conflict, and `bar` keeps `foo`. */
  lemma RoadIntoTakenSlot(v: Layout.View, foo: string, bar: string, baz: string)
    requires Layout.WellFormed(v) && foo != baz && bar != baz
    requires bar in v && v[bar].slots[South as int] == Some(foo)
    ensures var (w, err) := Layout.Link(Layout.Upsert(v, baz), baz, North, bar);
      && w.Keys == v.Keys + {baz}
      && err == Some(Layout.Conflict(baz, North, bar, South, foo))
      && w[baz].slots[North as int] == Some(bar)
      && w[bar].slots[South as int] == Some(foo)
  {
    var u := Layout.Upsert(v, baz);
    Layout.LinkBackward(u, baz, North, bar);
    Layout.LinkSetsForward(u, baz, North, bar);
    assert Layout.SlotOf(u, bar, South) == Some(foo);
  }

  /** A line giving `baz` a road north to `bar`, whose south already names `foo`: the conflict is reported, the old road stays. */
  lemma ClashingRoad(v: Layout.View, foo: string, bar: string, baz: string)
    requires Layout.WellFormed(v) && StreamParser.Plain(bar) && StreamParser.Plain(baz)
    requires foo != baz && bar != baz && bar in v && v[bar].slots[South as int] == Some(foo)
    ensures var (w, outcome) := StreamParser.ParseLine(v, StreamParser.Declaration(baz, [StreamParser.Road(North, bar)]));
      && w.Keys == v.Keys + {baz}
      && outcome == StreamParser.Parsed([Layout.Conflict(baz, North, bar, South, foo)])
      && w[baz].slots[North as int] == Some(bar)
      && w[bar].slots[South as int] == Some(foo)
  {
    RoadIntoTakenSlot(v, foo, bar, baz);
    StreamParser.SingleRoadParses(v, baz, StreamParser.Road(North, bar));
  }

  lemma AddedName(names: set<string>, foo: string, bar: string, baz: string)
    requires names == {foo, bar}
    ensures names + {baz} == {foo, bar, baz}
  {
  }

  /**
   * An adjacency conflict: once `foo` lies south of `bar`, a line saying `baz` lies south
   * of `bar` as well is reported, the first road stays, and the parse carries on.
   */
  lemma ConflictIsReported(foo: string, bar: string, baz: string)
    requires foo != bar && foo != baz && bar != baz
    requires StreamParser.Plain(foo) && StreamParser.Plain(bar) && StreamParser.Plain(baz)
    ensures var lines := [StreamParser.Declaration(foo, [StreamParser.Road(North, bar)]),
                          StreamParser.Declaration(baz, [StreamParser.Road(North, bar)])];
      var (v, outcome) := StreamParser.ParseLines(map[], lines);
      && v.Keys == {foo, bar, baz}
      && outcome == StreamParser.Parsed([Layout.Conflict(baz, North, bar, South, foo)])
      && v[baz].slots[North as int] == Some(bar)
      && v[bar].slots[South as int] == Some(foo)
  {
    var first := StreamParser.Declaration(foo, [StreamParser.Road(North, bar)]);
    var second := StreamParser.Declaration(baz, [StreamParser.Road(North, bar)]);
    var none: seq<Layout.Conflict> := [];
    var conflict := [Layout.Conflict(baz, North, bar, South, foo)];
    var v1 := StreamParser.ParseLine(map[], first).0;
    assert StreamParser.ParseLine(map[], first).1 == StreamParser.Parsed(none) && Layout.WellFormed(v1)
      && v1.Keys == {foo, bar} && v1[bar].slots[South as int] == Some(foo) by {
      FirstRoad(foo, bar);
    }
    var w := StreamParser.ParseLine(v1, second).0;
    assert StreamParser.ParseLine(v1, second).1 == StreamParser.Parsed(conflict) && w.Keys == v1.Keys + {baz}
      && w[baz].slots[North as int] == Some(bar) && w[bar].slots[South as int] == Some(foo) by {
      ClashingRoad(v1, foo, bar, baz);
    }
    AddedName(v1.Keys, foo, bar, baz);
    assert StreamParser.ParseLines(map[], [first, second]) == (w, StreamParser.Parsed(conflict)) by {
      StreamParser.TwoLinesParse(map[], first, second);
      StreamParser.ThenIdentity(StreamParser.ParseLine(v1, second).1);
    }
  }

  /** A token `word=bar` is cut by `=` into the word and the name. */
  lemma PairTokenSplits(word: string, bar: string)
    requires StreamParser.Plain(word) && StreamParser.Plain(bar)
    ensures '=' in word + "=" + bar && ' ' !in word + "=" + bar
    ensures Text.Split(word + "=" + bar, '=') == [word, bar]
  {
    var token := word + "=" + bar;
    assert Text.Join([word, bar], '=') == token;
    Text.SplitJoin([word, bar], '=');
    assert token[|word|] == '=';
  }

  /** After `foo`, the token `word=bar` with a word that names no direction files both cities and panics. */
  lemma PanicToken(v: Layout.View, foo: string, bar: string, word: string)
    requires Layout.WellFormed(v) && StreamParser.Plain(bar) && StreamParser.Plain(word)
    requires DirectionFromString(word) == Invalid
    ensures var (w, outcome) := StreamParser.Pairs(Layout.Upsert(v, foo), foo, [word + "=" + bar]);
      w.Keys == v.Keys + {foo, bar} && outcome == StreamParser.Panicked(word)
  {
    PairTokenSplits(word, bar);
    assert [word + "=" + bar][0] == word + "=" + bar;
  }

  /** A line `foo word=bar` whose word names no direction: both names filed, then the panic. */
  lemma PanicLine(v: Layout.View, foo: string, bar: string, word: string)
    requires Layout.WellFormed(v)
    requires StreamParser.Plain(foo) && StreamParser.Plain(bar) && StreamParser.Plain(word)
    requires DirectionFromString(word) == Invalid
    ensures var (w, outcome) := StreamParser.ParseLine(v, foo + " " + (word + "=" + bar));
      w.Keys == v.Keys + {foo, bar} && outcome == StreamParser.Panicked(word)
  {
    var token := word + "=" + bar;
    PairTokenSplits(word, bar);
    PanicToken(v, foo, bar, word);
    assert Text.Join([token], ' ') == token;
    StreamParser.LineOfPieces(v, foo, [token]);
  }

  /**
   * A line whose token carries a word that names no direction: both cities are filed,
   * then the program panics, so later lines are never read.
   */
  lemma UnknownDirectionPanics(foo: string, bar: string, word: string, later: seq<string>)
    requires StreamParser.Plain(foo) && StreamParser.Plain(bar) && StreamParser.Plain(word)
    requires DirectionFromString(word) == Invalid
    ensures var line := foo + " " + word + "=" + bar;
      var (v, outcome) := StreamParser.ParseLines(map[], [line] + later);
      && v.Keys == {foo, bar}
      && outcome == StreamParser.Panicked(word)
  {
    var line := foo + " " + word + "=" + bar;
    var empty: Layout.View := map[];
    assert line == foo + " " + (word + "=" + bar);
    PanicLine(empty, foo, bar, word);
    assert empty.Keys + {foo, bar} == {foo, bar};
    assert ([line] + later)[0] == line;
  }

  /** "up" is no direction: the line `Foo up=Bar` ends the parse once Foo and Bar are filed. */
  lemma UpIsNoDirection()
    ensures DirectionFromString("up") == Invalid
  {
    assert Text.Lower("up") == "up";
  }
}
