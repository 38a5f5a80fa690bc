# Alien invasion: a verified model of the map, the aliens and the map-file parser

The alien invasion program reads a map of cities from a text file. Each line is
`Name direction=Other direction=Other ...`, with the directions `north`, `west`, `south`
and `east`. The program drops aliens into random cities and lets every alien move along
a road to a random existing neighbour, turn after turn. When two aliens meet in a city,
the city is destroyed. The game stops when an alien has made more than 10000 moves, and
the surviving map can be printed back in the same file format.

This project models the three files that hold that logic:

- **GameMap.go**
  - compass directions and their names
  - cities, each with four neighbour slots
  - the game map and how it is built
  - destroying cities
  - placing aliens
  - the simulation turn
  - the map dump
- **Alien.go**
  - aliens and their serial numbers
  - one move of an alien
- **StreamParser.go**
  - reading map lines into a game map, and collecting the adjacency conflicts

The Dafny modules are:

| module | file | contents |
|---|---|---|
| `Wrappers` | wrappers.dfy | `Option`, for Go's nil-able pointers and errors |
| `Text` | text.dfy | the parts of Go's `strings` package the program uses: `Split`, `Join`, `Trim` with `" "`, and ASCII `ToLower` |
| `Directions` | direction.dfy | `Direction` as a newtype over `int` with the Go constant values: North 0, West 1, South 2, East 3, DirectionSize 4, Invalid 5 |
| `Layout` | layout.dfy | the road graph as a value. Each city name maps to its `Exists` flag and the names in its four slots. Building the graph is specified here as functions (`Upsert`, `Link`), and their properties are proved on them |
| `Iteration` | iteration.dfy | how the model stands in for Go's unordered `range` over a map |
| `Invasion` | invasion.dfy | the classes `Alien`, `AlienFactory`, `City` and `GameMap`, whose methods update fields in place as the Go methods do. `GameMap.View()` abstracts the heap graph to a `Layout.View`, and the map-building methods are proved to change that view exactly as the `Layout` functions say |
| `StreamParser` | stream_parser.dfy | the parser as specification functions (`PairStep`, `Pairs`, `ParseLine`, `ParseLines`), and the imperative methods that run it on a `GameMap`, proved equal to those functions. It also holds the line format's read-back properties and the invariants parsing keeps |
| `ParserScenarios` | parser_scenarios.dfy | the example of the file format and the parser's test inputs, each stated for any distinct plain city names |

Behaviour that is not deterministic in Go is passed in as a parameter:

- **Randomness.** `rand.Intn(n)` becomes a caller-supplied function. The only thing known
  about it is that it returns a number in `[0, n)`. So every property proved holds for
  every sequence of draws.
- **Map iteration order.** Go's `range` over a map becomes a caller-supplied key sequence
  `keys` that visits every city name exactly once.
- **Lines.** The lines the `bufio.Scanner` would produce are passed in as a sequence of
  strings.

A Go panic is a run-time crash: the program stops. One case matters here. A token whose
direction word is unknown makes the program index the neighbour slots with `Invalid`,
and that panics. The model ends the parse at that point with the outcome `Panicked`.

## Model

| member | source | states |
|---|---|---|
| `Directions.Direction.Opposite` | GameMap.go:21-34 | a compass point maps to the point two steps round the compass: North and South swap, West and East swap. Every other value maps to `Invalid` |
| `Directions.Direction.String` | GameMap.go:36-49 | the name is already lower-case |
| `Directions.DirectionFromString` | GameMap.go:51-65 | the result is a compass point whose name is the lower-cased input, or `Invalid` exactly when the lower-cased input is none of the four names |
| `Directions.OppositeInvolution` | GameMap.go:21-34 | taking the opposite twice gives back the compass point |
| `Directions.StringIsLetters` | GameMap.go:36-49 | every direction name is made of letters `a`-`z` only, so it never holds a space, `=` or a newline |
| `Directions.StringRoundTrip` | GameMap.go:36-65 | parsing a printed compass point or `Invalid` gives it back; `DirectionSize` and every other value come back as `Invalid` |
| `Directions.FromStringIgnoresCase` | GameMap.go:52 | two texts that lower-case alike parse to the same direction |
| `Directions.FromStringExact` | GameMap.go:51-65 | a text parses to a compass point exactly when it lower-cases to that point's name |
| `Directions.MixedCaseNorth` | GameMap_test.go:47-53 | `"NorTh"` parses to North |
| `Text.LowerChar` | GameMap.go:52 | an upper-case ASCII letter becomes the lower-case letter at the same place in the alphabet; every other character is kept |
| `Text.Lower` | GameMap.go:52 | same length as the input; each character is lower-cased on its own, so no upper-case ASCII letter remains |
| `Text.LowerIdempotent` | GameMap.go:52 | lower-casing twice is lower-casing once |
| `Text.Split` | StreamParser.go:52 | at least one piece; no piece holds the separator; more than one piece exactly when the text holds the separator |
| `Text.JoinSplit` | StreamParser.go:52 | joining the pieces of a split gives back the text |
| `Text.SplitJoin` | GameMap.go:212 | splitting a join of separator-free pieces gives back the pieces |
| `Text.Trim` | StreamParser.go:55 | the result is a slice of the input with only spaces cut off before and after it, and it neither starts nor ends with a space; a text without spaces is unchanged |
| `Text.JoinSnoc` | GameMap.go:76 | joining one more part appends the separator and that part |
| `Text.Join` | GameMap.go:76 | the result starts with the first part, and with two or more parts the separator follows it. `Text.JoinSplit` and `Text.SplitJoin` show that it inverts `Split` |
| `Layout.Upsert` | GameMap.go:143-152 | the name is added to the keys; existing cities are unchanged; a new city is `Founded` (existing, four empty slots) |
| `Layout.Connect` | GameMap.go:131-140 | the layout stays well formed and gains no city |
| `Layout.Link` | GameMap.go:127-141 | the layout stays well formed and gains exactly the two names |
| `Layout.LinkSetsForward` | GameMap.go:131 | after a link, the first city's slot in that direction names the neighbour, whatever the outcome |
| `Layout.LinkBackward` | GameMap.go:132-139 | no conflict exactly when the neighbour's opposite slot was empty or already named the city, and then it names the city; otherwise the conflict carries the old holder, and that slot is left alone |
| `Layout.ConnectSlotAt` | GameMap.go:131-139 | every slot after the slot writes, in terms of the slots before |
| `Layout.LinkSlotAt` | GameMap.go:127-139 | every slot and existence flag after a link, in terms of the layout before |
| `Layout.LinkFrame` | GameMap.go:127-139 | a link writes no slot but the two it names and no existence flag; new cities exist |
| `Layout.LinkClosed` | GameMap.go:127-139 | a link keeps every slot naming a city on the map |
| `Layout.LinkKeepsMirrored` | GameMap.go:131-139 | a link without conflict, into a slot that was empty or already named the neighbour, keeps every road mirrored |
| `Layout.RedeclaringLeavesOneWayRoad` | GameMap.go:131-139 | `A north=B` then `A north=C` reports no conflict but leaves B's south naming A while A's north names C: the layout is no longer mirrored |
| `Layout.Words` | GameMap.go:69-77 | at most one word per slot |
| `Layout.WordsListLiveSlots` | GameMap.go:71-74 | every slot naming a city that still stands contributes its `direction=name` word |
| `Layout.Line` | GameMap.go:209 | the dump line of a city; `Layout.LineStartsWithName` states its shape |
| `Layout.LineStartsWithName` | GameMap.go:209 | a city's line is its name, a space, then its words joined by single spaces |
| `Layout.WordsHaveNoNewline` | GameMap.go:69-77 | no dump word holds a newline when no city name does |
| `Layout.DumpSplitsIntoLines` | GameMap.go:205-213 | splitting a non-empty dump at newlines gives back exactly its lines |
| `Iteration.Select` | GameMap.go:180-183 | the selected keys are exactly those in the listing and in the set, and there are no more of them than keys |
| `Iteration.SelectCount` | GameMap.go:217-221 | selecting from a duplicate-free listing gives no duplicates, and as many keys as the listing shares with the set |
| `Iteration.SelectAll` | GameMap.go:217-221 | when the keys enumerate the map, selecting any subset of its names gives each of them exactly once |
| `Invasion.Alien.Move` | Alien.go:23-50 | the step count goes up by one and is returned. A dead alien, or one whose city is destroyed or cut off, stays and changes nothing. Otherwise it migrates into the neighbour drawn among the existing ones, and no other neighbour changes |
| `Invasion.AlienFactory.constructor` | Alien.go:5 | the serial counter starts at 0 |
| `Invasion.AlienFactory.NewAlien` | Alien.go:14-19 | a fresh living alien with no steps, numbered with the counter, which then goes up by one |
| `Invasion.Migrated` | GameMap.go:91-103 | the effect of one migration on the two cities. `Invasion.City.AlienMigrate` establishes it, and `Invasion.GameMap.MoveEffects` derives from it that no destroyed city comes back and no new alien appears |
| `Invasion.City.constructor` | GameMap.go:87-89 | an existing city with no alien and four empty slots in a fresh array |
| `Invasion.City.LiveSlots` | Alien.go:36-43 | exactly the slots holding an existing city, in increasing slot order |
| `Invasion.City.SomeSlotLive` | Alien.go:29-46 | a city that is neither destroyed nor isolated has a candidate, so the draw is well defined |
| `Invasion.City.IsIsolatedOrDestroyed` | GameMap.go:105-115 | true exactly when the city is destroyed or no slot holds an existing city |
| `Invasion.City.ExistingNeighbours` | Alien.go:35-43 | the candidates are the cities of the live slots, one per slot, in slot order |
| `Invasion.City.Chosen` | Alien.go:46-47 | the drawn neighbour is a neighbour that exists |
| `Invasion.City.MigrateToChosen` | Alien.go:34-47 | the alien migrates into the drawn existing neighbour; no other neighbour changes |
| `Invasion.City.AlienMigrate` | GameMap.go:91-103 | without an alien, or from a destroyed city, nothing changes. Otherwise the source is emptied, and the target is destroyed exactly when it already held an alien and takes the mover in even then. A destruction is reported exactly in that case, with both aliens' numbers |
| `Invasion.City.NeighborhoodsString` | GameMap.go:69-77 | the `direction=name` words of the slots holding an existing city, in slot order, joined by single spaces |
| `Invasion.GameMap.constructor` | GameMap.go:121-125 | an empty, well-formed map |
| `Invasion.GameMap.ViewWellFormed` | GameMap.go:127-152 | a valid map's layout has four slots per city, and every slot names a city of the map |
| `Invasion.GameMap.UpsertCity` | GameMap.go:143-152 | the layout becomes `Layout.Upsert` of the old one; the returned city is the one filed under the name; a new city is fresh; no other city changes. A map in which no city holds an alien still has none afterwards |
| `Invasion.GameMap.AddCity` | GameMap.go:146-147 | a fresh city, with its own array and no alien, is filed under the new name; the layout gains that name as `Founded` |
| `Invasion.GameMap.SetNeighbour` | GameMap.go:131-133 | exactly one slot of the layout changes, and the map stays valid |
| `Invasion.GameMap.UpdateCityWithNeighborhood` | GameMap.go:127-141 | the new layout and the reported conflict are those of `Layout.Link` on the old layout; the map stays valid and only gains cities. A map in which no city holds an alien still has none afterwards |
| `Invasion.GameMap.UpsertBoth` | GameMap.go:128-130 | the layout is both names upserted in order, and both returned cities are the ones filed under those names. A map in which no city holds an alien still has none afterwards |
| `Invasion.GameMap.Connect` | GameMap.go:131-140 | the new layout and the reported conflict are those of `Layout.Connect` |
| `Invasion.GameMap.GetExistCity` | GameMap.go:154-161 | a city is returned exactly when the name is filed and that city exists, and it is the filed city |
| `Invasion.GameMap.DestroyCity` | GameMap.go:163-174 | an unknown name or an already destroyed city is the matching error and changes nothing. Otherwise only that city's `Exists` flag is cleared, and it leaves the existing names. No alien moves |
| `Invasion.GameMap.FreeCities` | GameMap.go:179-184 | the candidates are the cities that exist and hold no alien, in `keys` order |
| `Invasion.GameMap.AssignAliens` | GameMap.go:177-191 | the error is reported exactly when there are more aliens than free cities. Alien `t` goes to a distinct, previously free city; when the free cities run out, those placed so far stay. No other city and no existence flag changes |
| `Invasion.GameMap.Occupy` | GameMap.go:188 | the city takes the alien in and leaves the free names; no other city is that city |
| `Invasion.GameMap.ChooseFree` | GameMap.go:179-188 | no city exactly when no city is free; otherwise a free city, filed under its name |
| `Invasion.GameMap.MoveEffects` | GameMap.go:91-103 | after one migration, a city that exists existed before, a destroyed city keeps its alien, and no new resident appears |
| `Invasion.GameMap.Visit` | GameMap.go:195-199 | the visited city's resident, if any, moves: when it is dead or the city is isolated or destroyed, it stays and no city changes; otherwise it migrates (`Migrated`) to the neighbour `Chosen` picks with the draw, which destroys that city if it already holds an alien; a road back to the city itself therefore destroys it. Its step count goes up by one and no other alien's count changes. It stops exactly when that count passes 10000. A city without a resident changes nothing, and the effects of a migration hold map-wide |
| `Invasion.GameMap.VisitInOrder` | GameMap.go:193-203 | one turn of the loop: the turn's resident joins the aliens moved so far. Every city visited so far, this one included, holds no alien or a moved one. Moved aliens have more steps than at the start of the loop, but at most 10000, and the others the same; when it stops, exactly one resident has moved past 10000 |
| `Invasion.GameMap.StepsOf` | GameMap.go:193-203 | the step count of each alien, taken when Update starts |
| `Invasion.GameMap.VisitedHoldMovers` | GameMap.go:195-199 | if only the visited city's old resident can have arrived anywhere, every visited city still holds no alien or one that has moved |
| `Invasion.GameMap.VisitedAll` | GameMap.go:194 | once every city has been visited, every alien living in a city has moved |
| `Invasion.GameMap.Update` | GameMap.go:193-203 | no city is added; destroyed cities stay destroyed and keep their alien; no alien appears; step counts never go down. When the game continues, every alien still living in a city has moved this turn (its count went up), and every alien that moved has at most 10000 steps. When it stops, exactly one alien moved past 10000 in this turn, and every other alien that moved has at most 10000 steps. A map without aliens is left unchanged |
| `Invasion.GameMap.StepsPastUnique` | GameMap.go:197-199 | the stopping state names one alien: two aliens that both moved past 10000 in the turn are the same |
| `Invasion.GameMap.WordsMatch` | GameMap.go:69-77 | the words read from the heap are those of the layout |
| `Invasion.GameMap.LineOf` | GameMap.go:209 | the city's dump line is the layout's `Line` for it |
| `Invasion.GameMap.ExistCityCount` | GameMap.go:215-223 | the count is the number of existing cities |
| `Invasion.GameMap.DumpMap` | GameMap.go:205-213 | the dump is the lines of the existing cities, in `keys` order, joined by newlines |
| `Invasion.GameMap.DumpCity` | GameMap.go:207-210 | one loop turn appends the city's line exactly when the city exists |
| `Invasion.GameMap.DumpHasOneLinePerCity` | GameMap.go:205-223 | when some city exists and no name holds a newline, the dump splits back into exactly `ExistCityCount` lines, one per existing city |
| `StreamParser.Outcome.Then` | StreamParser.go:41-43 | errors of two parts concatenate; a panic ends everything |
| `StreamParser.ThenAssociative` | StreamParser.go:38-44 | chaining outcomes is associative |
| `StreamParser.ThenIdentity` | StreamParser.go:38-44 | an outcome without errors is neutral on either side |
| `StreamParser.PairStep` | StreamParser.go:59-69 | one token keeps the layout well formed, only adds cities and adds at most one error |
| `StreamParser.Pairs` | StreamParser.go:53-70 | the tokens of a line add at most one error each |
| `StreamParser.ParseLine` | StreamParser.go:48-72 | a line keeps the layout well formed and only adds cities |
| `StreamParser.ParseLineFilesFirst` | StreamParser.go:54-56 | the line's first piece is a city afterwards, even if nothing follows it; fewer errors than pieces |
| `StreamParser.ParseLines` | StreamParser.go:36-46 | the lines keep the layout well formed and only add cities |
| `StreamParser.ResumeLinesStep` | StreamParser.go:38-44 | consuming one line leaves the rest of the input to parse from that line's result |
| `StreamParser.ParseToken` | StreamParser.go:59-69 | the map changes as `PairStep` says, and the outcome is `PairStep`'s. A map in which no city holds an alien still has none afterwards |
| `StreamParser.ParseSingleLine` | StreamParser.go:48-72 | the map changes as `ParseLine` says, and the outcome is `ParseLine`'s. A map in which no city holds an alien still has none afterwards |
| `StreamParser.ParsePieces` | StreamParser.go:53-71 | the first piece is upserted, then the other pieces change the map as `Pairs` says. A map in which no city holds an alien still has none afterwards |
| `StreamParser.ParseScannerResult` | StreamParser.go:36-46 | a fresh valid map whose layout and outcome are `ParseLines` from the empty layout, and no city of it holds an alien. No lines give an empty map and no error |
| `StreamParser.LinkAll` | StreamParser.go:65-68 | linking roads keeps the layout well formed and adds at most one conflict per road |
| `StreamParser.LinkAllFrame` | GameMap.go:131-133 | linking roads leaves every slot alone that none of them writes |
| `StreamParser.LinkAllToNewFiles` | GameMap.go:127-141 | roads in distinct directions to distinct cities that are new or have no road yet report no conflict and file exactly their destinations |
| `StreamParser.LinkAllToNewForward` | GameMap.go:131 | each such road sets the first city's slot in its direction |
| `StreamParser.LinkAllToNewBackward` | GameMap.go:132-133 | each such road is mirrored in the destination's opposite slot |
| `StreamParser.TokenSplits` | StreamParser.go:59-62 | a road token holds `=` and splits into the direction's name and the neighbour's name |
| `StreamParser.TokenHasNoSpace` | StreamParser.go:52 | a road token holds no space |
| `StreamParser.PairsOfTokens` | StreamParser.go:59-69 | the tokens of roads parse exactly as linking those roads in order |
| `StreamParser.TokenStep` | StreamParser.go:59-69 | one road token parses as one `Link` |
| `StreamParser.DeclarationParses` | StreamParser.go:48-72 | a line declaring roads parses as upserting its city, then linking each road in order; the errors are exactly those links' conflicts |
| `StreamParser.SingleRoadParses` | StreamParser.go:48-72 | a one-road line is one `UpdateCityWithNeighborhood` after filing its city |
| `StreamParser.TwoLinesParse` | StreamParser.go:38-44 | the second line starts from the first line's map, and the outcomes chain |
| `StreamParser.LineOfPieces` | StreamParser.go:52-56 | a line of space-free pieces is its first piece upserted, then its tokens |
| `StreamParser.DeclarationSplits` | StreamParser.go:52 | a declaration splits at spaces into its name and its tokens |
| `StreamParser.LiveRoads` | GameMap.go:71-75 | the roads a dump line lists lead to cities of the map, in compass directions |
| `StreamParser.WordsAreTokens` | GameMap.go:73 | the words of the dump are the tokens of the live roads |
| `StreamParser.DumpedLineParses` | GameMap.go:209 | reading back a dumped line re-declares exactly that city's roads to existing cities, in slot order |
| `StreamParser.PairStepKeepsSound` | StreamParser.go:59-69 | a token never destroys a city and never leaves a slot naming an unknown city |
| `StreamParser.PairsKeepSound` | StreamParser.go:53-70 | the same for a line's tokens |
| `StreamParser.ParseKeepsSound` | StreamParser.go:36-46 | the same for every input, from any sound layout, the empty one included |
| `StreamParser.ParseLinesAppend` | StreamParser.go:38-44 | parsing two batches of lines is parsing them all: maps thread through and errors concatenate |
| `StreamParser.PairsSkipLast` | StreamParser.go:59-64 | a skipped last token changes neither the map nor the outcome |
| `StreamParser.TrailingSkippedToken` | StreamParser.go:59-64 | a declaration followed by a skipped token parses as the declaration alone |
| `ParserScenarios.FooTokens` | StreamParser.go:50 | the example's tokens are `north=Bar`, `west=Baz` and `south=Qu-ux` |
| `ParserScenarios.FooLineDeclares` | StreamParser.go:50 | the example's first line declares Foo's three roads |
| `ParserScenarios.BarLineDeclares` | StreamParser.go:51 | the example's second line declares Bar's road south to Foo |
| `ParserScenarios.FooRoadsLink` | StreamParser_test.go:139-147 | Foo's three roads, on a map where their destinations are new or have no road yet, file four cities with no conflict |
| `ParserScenarios.ExampleFirstLine` | StreamParser_test.go:139-147 | the example's first line files four cities, reports no error, and Foo and Bar face each other |
| `ParserScenarios.ExampleOverFiledCity` | StreamParser_test.go:148-156 | the same line on a map already holding Baz: four cities, no error |
| `ParserScenarios.RepeatedRoad` | StreamParser.go:51 | re-declaring an already mirrored road adds nothing and reports no error |
| `ParserScenarios.ExampleParses` | StreamParser.go:49-51 | the two example lines give four cities, no error, and Foo and Bar facing each other |
| `ParserScenarios.ThreePieces` | StreamParser.go:61-64 | a token `a=b=c` is skipped |
| `ParserScenarios.InvalidPairIgnored` | StreamParser_test.go:157-165 | the example's first line with `east=EAC=aina` appended, on a map holding Baz: four cities, no error |
| `ParserScenarios.SkippedTokenOver` | StreamParser.go:59-64 | the first example line with any trailing skipped token on a map holding Baz: four cities, no error |
| `ParserScenarios.EastRoad` | StreamParser_test.go:170-174 | after `Baz east=Bar`, Baz's east names Bar, Bar's west names Baz (the mirrored road that makes a later road west from Foo to Baz a conflict), and Bar's south is empty |
| `ParserScenarios.WestRoadClashes` | StreamParser_test.go:166-179 | Foo's roads with Baz's east already naming Bar: the road west to Baz is the one conflict, and only Qu-ux is added |
| `ParserScenarios.ConflictPath` | StreamParser_test.go:166-179 | the conflict test: four cities and exactly one conflict, Foo's road west to Baz, whose east names Bar |
| `ParserScenarios.RoadToNewCity` | GameMap.go:127-141 | a road to a new city files both cities, is mirrored, and reports no conflict |
| `ParserScenarios.FirstRoad` | StreamParser.go:48-72 | a first line with one road files both cities, mirrored, with no error |
| `ParserScenarios.RoadIntoTakenSlot` | GameMap.go:135-138 | a road into a taken opposite slot is the conflict naming the holder, the forward slot is still written, and the holder stays |
| `ParserScenarios.ClashingRoad` | GameMap.go:135-138 | the same through a parsed line |
| `ParserScenarios.ConflictIsReported` | StreamParser.go:41-43 | a conflict on a later line is collected, the earlier road stays, and parsing carries on |
| `ParserScenarios.PanicToken` | GameMap.go:128-131 | a token with an unknown direction word files both cities, then panics |
| `ParserScenarios.PanicLine` | GameMap.go:128-131 | the same through a parsed line |
| `ParserScenarios.UnknownDirectionPanics` | StreamParser.go:38-44 | after such a line the parse ends in a panic, and later lines are never read |
| `ParserScenarios.UpIsNoDirection` | GameMap.go:51-65 | `up` names no direction |

## Left out

- File and string input (`ParseFile` and `ParseString`, StreamParser.go:13-34) and the
  `bufio.Scanner` line splitting are I/O. `ParseScannerResult` takes the scanned lines as
  a sequence. The scanner's 64 KiB token limit is not modelled.
- The command-line program (cmd/cmd/root.go) is not part of this model: it only wires the
  parser, `AssignAliens`, `Update` and `DumpMap` together and prints.
- The distribution of `rand.Intn` is not modelled. Every draw is an arbitrary number in
  range, so the results hold for all draws but say nothing about probabilities.
- Go's map iteration order is arbitrary and may differ on every `range`. Each operation
  takes its own `keys` order as a parameter and assumes only that it visits every name
  once.
- `strings.ToLower` is modelled on ASCII letters only. Go also lower-cases other Unicode
  letters, but none of them lower-cases to a letter of `north`, `west`, `south` or `east`,
  so `DirectionFromString` gives the same result either way.
- Go's `int` is 64 bits wide. The model's step counts and serial numbers are unbounded,
  which differs only after 2^63 moves or aliens.
- The `fmt.Printf` in `AlienMigrate` (GameMap.go:98) is modelled as the ghost `event` result
  of `Invasion.City.AlienMigrate`. It is not printed.
- The error values are datatypes (`Layout.Conflict`, `Invasion.MapError`) with a
  `Message()` giving the Go text. The formatting of `%v` on other types is not modelled.
- A Go panic (indexing the slots with `Invalid`) is modelled as the outcome `Panicked`,
  after the two upserts that precede it. A parser method that meets it returns early with
  that outcome.
- Nil pointers where the Go code never produces them are not modelled. For example,
  `AssignAliens` is given a sequence of non-null aliens, and `Move` a non-null city.
- `Invasion.GameMap.Update`: does not state which city each alien ends up in after the whole
  turn. That depends on the draws and on the order of the cities. Update states that every
  alien still living in a city has moved. Each single move, with its destination, is
  stated by `Invasion.GameMap.Visit`. When the game stops, Update states that exactly one
  alien went past 10000, but not that the cities after the stopping one in `keys` were
  left unvisited; the body returns at once, but the contract does not say so.
- `Invasion.GameMap.AssignAliens`: does not state which free city each draw selects. It
  only states that the city is free and distinct from the others; the selection itself
  is `Invasion.GameMap.ChooseFree` over `Invasion.GameMap.FreeCities`.
- `Invasion.GameMap.ChooseFree`: states that the city is free, not that it is the draw's
  index into the candidates listed by `Invasion.GameMap.FreeCities`.
- `Invasion.GameMap.MoveEffects`: states only the map-wide facts a migration keeps, not
  the whole new state. That state is given by `Invasion.City.AlienMigrate`.
- `ParserScenarios.ExampleParses`, `ParserScenarios.ConflictPath` and the other scenarios
  are stated for any distinct names without spaces or `=`. The literal example names are
  tied to them only through `ParserScenarios.FooLineDeclares` and
  `ParserScenarios.BarLineDeclares`. The parser tests that count cities after
  `ParseString` of the resource files are not modelled, because those files are not part
  of this model.
