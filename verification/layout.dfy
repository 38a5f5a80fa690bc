/**
 * The road layout of a game map as a value: for every city name, whether the city still
 * exists and the names held in its four neighbour slots. Module Invasion ties its heap
 * objects to this value (GameMap.View); the operations that build the graph while a map
 * is read are specified here as functions on it, and their properties proved here.
 */
module Layout {
  import opened Wrappers
  import opened Directions
  import Text

  /** The four neighbour slots of a city, indexed by compass point, as neighbour names. */
  type Slots = seq<Option<string>>

  /** `standing` is the city's `Exists` flag. */
  datatype CityState = CityState(standing: bool, slots: Slots)

  type View = map<string, CityState>

  const EmptySlots: Slots := [None, None, None, None]

  /** A city as newCity makes it (GameMap.go:87-89): existing, with four empty slots. */
  const Founded := CityState(true, EmptySlots)

  /** Every city has exactly one slot per compass point. */
  ghost predicate WellFormed(v: View) {
    forall n :: n in v ==> |v[n].slots| == DirectionSize as int
  }

  /** Every slot names a city of the map. */
  ghost predicate Closed(v: View)
    requires WellFormed(v)
  {
    forall n, i :: n in v && 0 <= i < |v[n].slots| && v[n].slots[i].Some? ==> v[n].slots[i].value in v
  }

  /** Every road has its way back: if `n`'s slot `i` names `m`, then `m`'s opposite slot names `n`. */
  ghost predicate Mirrored(v: View)
    requires WellFormed(v) && Closed(v)
  {
    forall n, i :: n in v && 0 <= i < |v[n].slots| && v[n].slots[i].Some? ==>
      v[v[n].slots[i].value].slots[(i as Direction).Opposite() as int] == Some(n)
  }

  /** The content of `name`'s slot `d`, where a name not yet in the map reads as empty. */
  function SlotOf(v: View, name: string, d: Direction): Option<string>
    requires WellFormed(v) && d.IsCompass()
  {
    if name in v then v[name].slots[d as int] else None
  }

  /** UpsertCity on the layout: get-or-create by name; an existing city is left as it is. */
  function Upsert(v: View, name: string): (r: View)
    ensures r.Keys == v.Keys + {name}
    ensures forall n :: n in v ==> r[n] == v[n]
    ensures name !in v ==> r[name] == Founded
  {
    if name in v then v else v[name := Founded]
  }

  function SetSlot(c: CityState, d: Direction, to: Option<string>): CityState
    requires d.IsCompass() && |c.slots| == DirectionSize as int
  {
    c.(slots := c.slots[d as int := to])
  }

  /** The conflict UpdateCityWithNeighborhood reports (GameMap.go:135-138). */
  datatype Conflict = Conflict(city: string, direction: Direction, neighbour: string,
                               opposite: Direction, holder: string)
  {
    /** The text of the Go error. */
    function Message(): string {
      city + "'s " + direction.String() + " is " + neighbour + ", but " + neighbour + "'s "
        + opposite.String() + " is " + holder + " (conflict)"
    }
  }

  /**
   * The slot logic of UpdateCityWithNeighborhood(a, d, b) once both cities exist
   * (GameMap.go:131-140): point `a`'s slot `d` at `b`, then look at `b`'s opposite slot:
   * empty, it is pointed back at `a`; holding `a`, nothing more happens; holding another
   * city, a conflict is reported and `a`'s new slot is kept.
   */
  function Connect(v: View, a: string, d: Direction, b: string): (r: (View, Option<Conflict>))
    requires WellFormed(v) && d.IsCompass() && a in v && b in v
    ensures WellFormed(r.0)
    ensures r.0.Keys == v.Keys
  {
    var v2 := v[a := SetSlot(v[a], d, Some(b))];
    var back := v2[b].slots[d.Opposite() as int];
    if back.None? then (v2[b := SetSlot(v2[b], d.Opposite(), Some(a))], None)
    else if back == Some(a) then (v2, None)
    else (v2, Some(Conflict(a, d, b, d.Opposite(), back.value)))
  }

  /** UpdateCityWithNeighborhood(a, d, b) on the layout (GameMap.go:127-141): upsert both names, then Connect. */
  function Link(v: View, a: string, d: Direction, b: string): (r: (View, Option<Conflict>))
    requires WellFormed(v) && d.IsCompass()
    ensures WellFormed(r.0)
    ensures r.0.Keys == v.Keys + {a, b}
  {
    Connect(Upsert(Upsert(v, a), b), a, d, b)
  }

  /** After Link(a, d, b), `a`'s slot `d` names `b`, whatever else happened. */
  lemma LinkSetsForward(v: View, a: string, d: Direction, b: string)
    requires WellFormed(v) && d.IsCompass()
    ensures Link(v, a, d, b).0[a].slots[d as int] == Some(b)
  {
  }

  /**
   * What Link does with `b`'s opposite slot, by what that slot held before: empty or
   * already `a`, it names `a` afterwards and there is no error; another city, there is
   * exactly that conflict and the slot is left alone.
   */
  lemma LinkBackward(v: View, a: string, d: Direction, b: string)
    requires WellFormed(v) && d.IsCompass()
    ensures var back := SlotOf(v, b, d.Opposite());
            var (w, err) := Link(v, a, d, b);
            && (err.None? <==> back.None? || back == Some(a))
            && (err.None? ==> w[b].slots[d.Opposite() as int] == Some(a))
            && (err.Some? ==> err == Some(Conflict(a, d, b, d.Opposite(), back.value))
                              && w[b].slots[d.Opposite() as int] == back)
  {
  }

  /** One city after Connect, slot by slot, in terms of the map before it. */
  lemma ConnectSlotAt(v: View, a: string, d: Direction, b: string, n: string, i: int)
    requires WellFormed(v) && d.IsCompass() && a in v && b in v && n in v && 0 <= i < DirectionSize as int
    ensures var (w, err) := Connect(v, a, d, b);
            && w[n].standing == v[n].standing
            && w[n].slots[i] == if (n, i) == (a, d as int) then Some(b)
                                else if (n, i) == (b, d.Opposite() as int) && err.None? then Some(a)
                                else v[n].slots[i]
  {
    var v2 := v[a := SetSlot(v[a], d, Some(b))];
    assert v2[n].slots[i] == if (n, i) == (a, d as int) then Some(b) else v[n].slots[i];
  }

  /** One city after Link, slot by slot, in terms of the map before it. */
  lemma LinkSlotAt(v: View, a: string, d: Direction, b: string, n: string, i: int)
    requires WellFormed(v) && d.IsCompass() && 0 <= i < DirectionSize as int
    requires n in Link(v, a, d, b).0
    ensures var (w, err) := Link(v, a, d, b);
            && w[n].standing == (n !in v || v[n].standing)
            && w[n].slots[i] == if (n, i) == (a, d as int) then Some(b)
                                else if (n, i) == (b, d.Opposite() as int) && err.None? then Some(a)
                                else SlotOf(v, n, i as Direction)
  {
    var v1 := Upsert(Upsert(v, a), b);
    ConnectSlotAt(v1, a, d, b, n, i);
    assert v1[n].standing == (n !in v || v[n].standing);
    assert v1[n].slots[i] == SlotOf(v, n, i as Direction);
  }

  /** Link changes no slot but `a`'s slot `d` and `b`'s opposite slot, and no existence flag. */
  lemma LinkFrame(v: View, a: string, d: Direction, b: string)
    requires WellFormed(v) && d.IsCompass()
    ensures var w := Link(v, a, d, b).0;
            && (forall n :: n in v ==> w[n].standing == v[n].standing)
            && (forall n :: n in w && n !in v ==> w[n].standing)
            && (forall n, i :: n in v && 0 <= i < DirectionSize as int
                  && (n, i) != (a, d as int) && (n, i) != (b, d.Opposite() as int)
                  ==> w[n].slots[i] == v[n].slots[i])
  {
    var w := Link(v, a, d, b).0;
    forall n | n in w {
      LinkSlotAt(v, a, d, b, n, 0);
    }
    forall n, i | n in v && 0 <= i < DirectionSize as int
      ensures (n, i) != (a, d as int) && (n, i) != (b, d.Opposite() as int) ==> w[n].slots[i] == v[n].slots[i]
    {
      LinkSlotAt(v, a, d, b, n, i);
    }
  }

  /** Link keeps every slot pointing into the map. */
  lemma LinkClosed(v: View, a: string, d: Direction, b: string)
    requires WellFormed(v) && Closed(v) && d.IsCompass()
    ensures Closed(Link(v, a, d, b).0)
  {
    var w := Link(v, a, d, b).0;
    forall n, i | n in w && 0 <= i < |w[n].slots| && w[n].slots[i].Some?
      ensures w[n].slots[i].value in w
    {
      LinkSlotAt(v, a, d, b, n, i);
      if SlotOf(v, n, i as Direction).Some? {
        assert v[n].slots[i].value in v;
      }
    }
  }

  /**
   * A declaration that reports no conflict keeps every road mirrored, provided `a` did not
   * already have a different neighbour in direction `d` (that case is not checked by the
   * program: see RedeclaringLeavesOneWayRoad).
   */
  lemma LinkKeepsMirrored(v: View, a: string, d: Direction, b: string)
    requires WellFormed(v) && Closed(v) && Mirrored(v) && d.IsCompass()
    requires SlotOf(v, a, d) == None || SlotOf(v, a, d) == Some(b)
    requires Link(v, a, d, b).1.None?
    ensures Closed(Link(v, a, d, b).0) && Mirrored(Link(v, a, d, b).0)
  {
    LinkClosed(v, a, d, b);
    var w := Link(v, a, d, b).0;
    OppositeInvolution(d);
    forall n, i | n in w && 0 <= i < |w[n].slots| && w[n].slots[i].Some?
      ensures w[w[n].slots[i].value].slots[(i as Direction).Opposite() as int] == Some(n)
    {
      var m := w[n].slots[i].value;
      var j := (i as Direction).Opposite() as int;
      OppositeInvolution(i as Direction);
      LinkSlotAt(v, a, d, b, n, i);
      LinkSlotAt(v, a, d, b, m, j);
      if SlotOf(v, n, i as Direction).Some? {
        assert v[n].slots[i] == Some(SlotOf(v, n, i as Direction).value);
      }
    }
  }

  /**
   * Declaring `A north=B` and then `A north=C` reports no conflict, yet leaves `B`'s south
   * slot naming `A` while `A`'s north slot names `C`: the road layout is no longer mirrored.
   */
  lemma RedeclaringLeavesOneWayRoad()
    ensures var (w1, e1) := Link(map[], "A", North, "B");
            var (w2, e2) := Link(w1, "A", North, "C");
            && e1.None? && e2.None?
            && SlotOf(w2, "A", North) == Some("C")
            && SlotOf(w2, "B", South) == Some("A")
            && Closed(w2) && !Mirrored(w2)
  {
    var (w1, e1) := Link(map[], "A", North, "B");
    LinkBackward(map[], "A", North, "B");
    LinkClosed(map[], "A", North, "B");
    var (w2, e2) := Link(w1, "A", North, "C");
    LinkBackward(w1, "A", North, "C");
    LinkClosed(w1, "A", North, "C");
    assert w2["B"].slots[South as int] == Some("A");
    assert w2["A"].slots[North as int] == Some("C");
  }

  /**
   * The `direction=name` words Neighborhoods.String writes (GameMap.go:67-77) for `name`'s
   * slots below `k`: one per slot naming a city that still stands, in slot order.
   */
  function Words(v: View, name: string, k: nat): (words: seq<string>)
    requires name in v && k <= |v[name].slots|
    ensures |words| <= k
  {
    if k == 0 then []
    else
      var slot := v[name].slots[k - 1];
      Words(v, name, k - 1)
        + (if slot.Some? && slot.value in v && v[slot.value].standing
           then [((k - 1) as Direction).String() + "=" + slot.value] else [])
  }

  /** Every slot below `k` naming a city that still stands has its word among `Words`. */
  lemma {:induction false} WordsListLiveSlots(v: View, name: string, k: nat, d: nat)
    requires name in v && d < k <= |v[name].slots|
    requires v[name].slots[d].Some? && v[name].slots[d].value in v && v[v[name].slots[d].value].standing
    ensures (d as Direction).String() + "=" + v[name].slots[d].value in Words(v, name, k)
  {
    if d < k - 1 {
      WordsListLiveSlots(v, name, k - 1, d);
    } else {
      var w := (d as Direction).String() + "=" + v[name].slots[d].value;
      assert Words(v, name, k) == Words(v, name, d) + [w];
    }
  }

  /** The line DumpMap writes for `name` (GameMap.go:209): the name, a space, then its words. */
  function Line(v: View, name: string): string
    requires name in v
  {
    name + " " + Text.Join(Words(v, name, |v[name].slots|), ' ')
  }

  /** A city's line starts with its name and a space; the rest is its words, separated by spaces. */
  lemma LineStartsWithName(v: View, name: string)
    requires name in v
    ensures var line := Line(v, name);
            |name| < |line| && line[..|name|] == name && line[|name|] == ' '
            && line[|name| + 1..] == Text.Join(Words(v, name, |v[name].slots|), ' ')
  {
    var line := Line(v, name);
    assert line == name + " " + Text.Join(Words(v, name, |v[name].slots|), ' ');
  }

  /** The lines for `names`, in that order. */
  function DumpLines(v: View, names: seq<string>): (lines: seq<string>)
    requires forall n :: n in names ==> n in v
  {
    seq(|names|, t requires 0 <= t < |names| => Line(v, names[t]))
  }

  /** The lines of one more name end with that name's line. */
  lemma DumpLinesSnoc(v: View, names: seq<string>, name: string)
    requires name in v && forall n :: n in names ==> n in v
    ensures DumpLines(v, names + [name]) == DumpLines(v, names) + [Line(v, name)]
  {
  }

  /** No word holds a newline when no city name does. */
  lemma {:induction false} WordsHaveNoNewline(v: View, name: string, k: nat)
    requires name in v && k <= |v[name].slots|
    requires forall n :: n in v ==> '\n' !in n
    ensures forall w :: w in Words(v, name, k) ==> '\n' !in w
  {
    if k > 0 {
      WordsHaveNoNewline(v, name, k - 1);
      var slot := v[name].slots[k - 1];
      if slot.Some? && slot.value in v && v[slot.value].standing {
        var d := ((k - 1) as Direction).String();
        StringIsLetters((k - 1) as Direction);
        assert '\n' !in d + "=" + slot.value;
      }
    }
  }

  /**
   * A dump of at least one city splits at newlines back into exactly its lines, one per
   * city, provided no city name holds a newline.
   */
  lemma DumpSplitsIntoLines(v: View, names: seq<string>)
    requires forall n :: n in names ==> n in v
    requires |names| > 0 && forall n :: n in v ==> '\n' !in n
    ensures Text.Split(Text.Join(DumpLines(v, names), '\n'), '\n') == DumpLines(v, names)
  {
    var lines := DumpLines(v, names);
    forall line | line in lines
      ensures '\n' !in line
    {
      var t :| 0 <= t < |lines| && lines[t] == line;
      var name := names[t];
      WordsHaveNoNewline(v, name, |v[name].slots|);
      Text.JoinExcludes(Words(v, name, |v[name].slots|), ' ', '\n');
    }
    Text.SplitJoin(lines, '\n');
  }
}
