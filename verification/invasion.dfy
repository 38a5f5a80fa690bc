/**
 * The world model and simulation engine of the alien invasion (GameMap.go, Alien.go):
 * aliens, cities and the game map, as classes whose fields the operations update in place.
 *
 * Randomness is injected: where the Go code calls rand.Intn(n), the model calls a
 * caller-supplied function that is only known to return a number in [0, n), so every
 * property proved here holds for every sequence of random draws. Likewise every `range`
 * over the city map follows a caller-supplied enumeration of its keys.
 */
module Invasion {
  import opened Wrappers
  import opened Directions
  import Text
  import Layout
  import Iteration

  /** A step count above this makes Update stop the game (GameMap.go:197). */
  const StepCeiling := 10000

  /** `intn` behaves as rand.Intn: for every positive `n` it gives a number in [0, n). */
  ghost predicate IsIntn(intn: nat -> nat) {
    forall n: nat :: 0 < n ==> intn(n) < n
  }

  /** `rng(k, n)` is the `k`-th draw of rand.Intn(n) within one call. */
  ghost predicate IsRandomSource(rng: (nat, nat) -> nat) {
    forall k: nat, n: nat :: 0 < n ==> rng(k, n) < n
  }

  /** What AlienMigrate prints when a city is destroyed (GameMap.go:98), kept as an event. */
  datatype Destruction = Destruction(city: string, mover: int, resident: int)

  /** The errors GameMap reports besides adjacency conflicts. */
  datatype MapError = NoSuchCity(name: string) | AlreadyDestroyed(name: string) | NotEnoughCities
  {
    function Message(): string {
      match this
      case NoSuchCity(name) => "city " + name + " doesn't exist"
      case AlreadyDestroyed(name) => "city " + name + " have been already destroyed"
      case NotEnoughCities => "not enough exist cities available to assign aliens"
    }
  }

  /** An alien: its serial number, how many moves it has attempted, and whether it is alive. */
  class Alien {
    var Number: int
    var Steps: int
    var Alive: bool

    constructor (number: int, steps: int, alive: bool)
      ensures Number == number && Steps == steps && Alive == alive
    {
      Number, Steps, Alive := number, steps, alive;
    }

    /**
     * Move (Alien.go:23-50): count the step, then, if the alien is alive and its city is
     * neither destroyed nor cut off, pick one of the existing neighbours with `intn` and
     * migrate into it. The city returned is the one moved towards, or `from` when the
     * alien stays.
     */
    method Move(from: City, intn: nat -> nat) returns (to: City, step: int)
      requires IsIntn(intn)
      modifies this`Steps, from`Exists, from`AlienInCity, from.Neighbours()`Exists, from.Neighbours()`AlienInCity
      ensures Steps == old(Steps) + 1 && step == Steps
      ensures Number == old(Number) && Alive == old(Alive)
      ensures forall c :: c in from.Neighbours() && c != from && c != to ==> unchanged(c)
      ensures !Alive || old(from.IsolatedOrDestroyed()) ==> to == from && unchanged(from)
      ensures Alive && !old(from.IsolatedOrDestroyed()) ==> old(from.Chosen(intn)) == to && Migrated(from, to)
    {
      // The step count plays no part in the migration, so it is written after it.
      ghost var chosen := if !Alive || from.IsolatedOrDestroyed() then from else from.Chosen(intn);
      to := from;
      if Alive {
        var isolated := from.IsIsolatedOrDestroyed();
        if !isolated {
          to := from.MigrateToChosen(intn);
        }
      }
      Steps := Steps + 1;
      step := Steps;
    }
  }

  /**
   * The serial-number counter behind NewAlien (Alien.go:5, 14-19): a package variable in
   * the Go program, an object owned by whoever creates aliens here.
   */
  class AlienFactory {
    var SerialCount: int

    constructor ()
      ensures SerialCount == 0
    {
      SerialCount := 0;
    }

    /** NewAlien: a fresh, living alien with no steps, numbered with the counter, which then goes up by one. */
    method NewAlien() returns (a: Alien)
      modifies this
      ensures fresh(a)
      ensures a.Number == old(SerialCount) && a.Steps == 0 && a.Alive
      ensures SerialCount == old(SerialCount) + 1
    {
      a := new Alien(SerialCount, 0, true);
      SerialCount := SerialCount + 1;
    }
  }

  /**
   * The effect of AlienMigrate(from -> to) (GameMap.go:91-103). Nothing changes unless
   * `from` exists and holds an alien. Otherwise `from` is emptied; `to` is destroyed
   * exactly when it already held an alien; and, when the two differ, the mover becomes
   * `to`'s resident even if `to` is (or has just been) destroyed. When they are one city
   * (a road from a city to itself), the city is destroyed and its alien vanishes.
   */
  twostate predicate Migrated(from: City, to: City)
    reads from, to
  {
    if old(from.AlienInCity) == null || !old(from.Exists) then
      && from.Exists == old(from.Exists) && from.AlienInCity == old(from.AlienInCity)
      && to.Exists == old(to.Exists) && to.AlienInCity == old(to.AlienInCity)
    else
      && from.AlienInCity == null
      && to.Exists == (old(to.Exists) && old(to.AlienInCity) == null)
      && (from != to ==> to.AlienInCity == old(from.AlienInCity) && from.Exists == old(from.Exists))
  }

  /** A city: its name, four neighbour slots indexed by Direction, whether it still exists, and its resident alien. */
  class City {
    const Name: string
    const Neighborhoods: array<City?>
    var Exists: bool
    var AlienInCity: Alien?

    /** newCity (GameMap.go:87-89): four empty slots, existing, no alien. */
    constructor (name: string)
      ensures Name == name && Exists && AlienInCity == null
      ensures fresh(Neighborhoods) && Neighborhoods.Length == DirectionSize as int
      ensures forall i :: 0 <= i < Neighborhoods.Length ==> Neighborhoods[i] == null
    {
      Name := name;
      Neighborhoods := new City?[DirectionSize as int](_ => null);
      Exists := true;
      AlienInCity := null;
    }

    /** The alien living here, as a set: empty when there is none. */
    ghost function Occupant(): set<Alien>
      reads this
    {
      if AlienInCity == null then {} else {AlienInCity}
    }

    /** The cities held in the slots. */
    ghost function Neighbours(): set<City>
      reads Neighborhoods
    {
      set c: City | c in Neighborhoods[..]
    }

    /** Slot `i` holds a city that still exists. */
    ghost predicate LiveAt(i: nat)
      requires i < Neighborhoods.Length
      reads Neighborhoods, Neighborhoods[..]
    {
      Neighborhoods[i] != null && Neighborhoods[i].Exists
    }

    /** The slots below `n` that hold an existing city, in slot order. */
    ghost function LiveSlots(n: nat): (r: seq<nat>)
      requires n <= Neighborhoods.Length
      reads Neighborhoods, Neighborhoods[..]
      ensures forall t :: 0 <= t < |r| ==> r[t] < n && LiveAt(r[t])
      ensures forall i :: 0 <= i < n && LiveAt(i) ==> i in r
      ensures forall t, u :: 0 <= t < u < |r| ==> r[t] < r[u]
    {
      if n == 0 then [] else LiveSlots(n - 1) + (if LiveAt(n - 1) then [n - 1] else [])
    }

    /** No alien can leave: the city is destroyed, or no slot holds an existing city. */
    ghost predicate IsolatedOrDestroyed()
      reads this, Neighborhoods, Neighborhoods[..]
    {
      !Exists || forall i :: 0 <= i < Neighborhoods.Length ==> !LiveAt(i)
    }

    /** A city that is neither destroyed nor cut off has a slot holding an existing city. */
    lemma SomeSlotLive()
      requires !IsolatedOrDestroyed()
      ensures |LiveSlots(Neighborhoods.Length)| > 0
    {
      var k :| 0 <= k < Neighborhoods.Length && LiveAt(k);
      assert k in LiveSlots(Neighborhoods.Length);
    }

    /** IsIsolatedOrDestroyed (GameMap.go:105-115). */
    method IsIsolatedOrDestroyed() returns (r: bool)
      ensures r == IsolatedOrDestroyed()
    {
      if !Exists {
        return true;
      }
      var i := 0;
      while i < Neighborhoods.Length
        invariant 0 <= i <= Neighborhoods.Length
        invariant forall k :: 0 <= k < i ==> !LiveAt(k)
      {
        var n := Neighborhoods[i];
        if n != null && n.Exists {
          assert LiveAt(i);
          return false;
        }
        i := i + 1;
      }
      return true;
    }

    /**
     * The loop of Move that gathers the candidates (Alien.go:35-43): the existing
     * neighbours, one per slot that holds one, in slot order.
     */
    method ExistingNeighbours() returns (candidates: seq<City>)
      ensures |candidates| == |LiveSlots(Neighborhoods.Length)|
      ensures forall t :: 0 <= t < |candidates| ==>
                candidates[t] == Neighborhoods[LiveSlots(Neighborhoods.Length)[t]]
    {
      candidates := [];
      var i := 0;
      while i < Neighborhoods.Length
        invariant 0 <= i <= Neighborhoods.Length
        invariant |candidates| == |LiveSlots(i)|
        invariant forall t :: 0 <= t < |candidates| ==> candidates[t] == Neighborhoods[LiveSlots(i)[t]]
      {
        var city := Neighborhoods[i];
        if city != null && city.Exists {
          candidates := candidates + [city];
        }
        i := i + 1;
      }
    }

    /**
     * The neighbour a move out of this city goes to: the `intn(k)`-th of the `k` slots
     * that hold an existing city, counted in slot order.
     */
    ghost function Chosen(intn: nat -> nat): (to: City)
      requires IsIntn(intn) && !IsolatedOrDestroyed()
      reads this, Neighborhoods, Neighborhoods[..]
      ensures to in Neighbours() && to.Exists
    {
      SomeSlotLive();
      var live := LiveSlots(Neighborhoods.Length);
      Neighborhoods[live[intn(|live|)]]
    }

    /**
     * The second half of Move (Alien.go:34-47): gather the existing neighbours, pick one
     * with `intn` and migrate the resident into it.
     */
    method MigrateToChosen(intn: nat -> nat) returns (to: City)
      requires IsIntn(intn) && !IsolatedOrDestroyed()
      modifies this`Exists, this`AlienInCity, Neighbours()`Exists, Neighbours()`AlienInCity
      ensures to == old(Chosen(intn)) && old(to.Exists)
      ensures Migrated(this, to)
      ensures forall c :: c in Neighbours() && c != this && c != to ==> unchanged(c)
    {
      SomeSlotLive();
      ghost var live := LiveSlots(Neighborhoods.Length);
      var candidates := ExistingNeighbours();
      var index := intn(|candidates|);
      to := candidates[index];
      assert to == Neighborhoods[live[index]];
      ghost var event := AlienMigrate(to);
    }

    /** AlienMigrate (GameMap.go:91-103); `event` is the line the Go program prints on a destruction. */
    method AlienMigrate(to: City) returns (ghost event: Option<Destruction>)
      modifies this`Exists, this`AlienInCity, to`Exists, to`AlienInCity
      ensures Migrated(this, to)
      ensures event.Some? <==> old(AlienInCity) != null && old(Exists) && old(to.AlienInCity) != null
      ensures event.Some? ==>
                event.value == Destruction(to.Name, old(AlienInCity).Number, old(to.AlienInCity).Number)
    {
      var alien := AlienInCity;
      if alien == null || !Exists {
        return None;
      }
      event := None;
      if to.AlienInCity != null {
        event := Some(Destruction(to.Name, alien.Number, to.AlienInCity.Number));
        to.Exists := false;
      }
      to.AlienInCity := alien;
      AlienInCity := null;
    }

    /** The names held in the slots, empty slots as None. */
    ghost function SlotNames(): (slots: Layout.Slots)
      reads Neighborhoods
      ensures |slots| == Neighborhoods.Length
      ensures forall i :: 0 <= i < Neighborhoods.Length ==>
                (slots[i].None? <==> Neighborhoods[i] == null)
                && (slots[i].Some? ==> slots[i].value == Neighborhoods[i].Name)
    {
      seq(Neighborhoods.Length, i requires 0 <= i < Neighborhoods.Length reads Neighborhoods =>
        if Neighborhoods[i] == null then None else Some(Neighborhoods[i].Name))
    }

    /** This city as a value of the road layout. */
    ghost function State(): Layout.CityState
      reads this, Neighborhoods
    {
      Layout.CityState(Exists, SlotNames())
    }

    /** The `direction=name` word Neighborhoods.String writes for slot `i`. */
    ghost function Word(i: nat): string
      requires i < Neighborhoods.Length
      reads Neighborhoods
    {
      (i as Direction).String() + "=" + (if Neighborhoods[i] == null then "" else Neighborhoods[i].Name)
    }

    /** One word per slot below `n` holding an existing city, in slot order. */
    ghost function Words(n: nat): (words: seq<string>)
      requires n <= Neighborhoods.Length
      reads Neighborhoods, Neighborhoods[..]
    {
      if n == 0 then [] else Words(n - 1) + (if LiveAt(n - 1) then [Word(n - 1)] else [])
    }

    /** The words of all slots. */
    ghost function NeighbourWords(): seq<string>
      reads Neighborhoods, Neighborhoods[..]
    {
      Words(Neighborhoods.Length)
    }

    /**
     * Neighborhoods.String (GameMap.go:69-77): the words of the existing neighbours,
     * separated by single spaces; destroyed neighbours and empty slots are skipped.
     */
    method NeighborhoodsString() returns (s: string)
      ensures s == Text.Join(NeighbourWords(), ' ')
    {
      var lines: seq<string> := [];
      var i := 0;
      while i < Neighborhoods.Length
        invariant 0 <= i <= Neighborhoods.Length
        invariant lines == Words(i)
      {
        var city := Neighborhoods[i];
        if city != null && city.Exists {
          lines := lines + [(i as Direction).String() + "=" + city.Name];
        }
        i := i + 1;
      }
      s := Text.Join(lines, ' ');
    }
  }
  /** The game map: the cities by name (GameMap.go:117-125). */
  class GameMap {
    var cities: map<string, City>

    /** NewGameMap: no cities. */
    constructor ()
      ensures cities == map[] && Valid()
    {
      cities := map[];
    }

    ghost function Cities(): set<City>
      reads this
    {
      cities.Values
    }

    /** The slot arrays of all cities. */
    ghost function Slots(): set<array<City?>>
      reads this
    {
      set c | c in cities.Values :: c.Neighborhoods
    }

    /** Every city is filed under its own name. */
    ghost predicate NamesFiled()
      reads this
    {
      forall n :: n in cities ==> cities[n].Name == n
    }

    /** `c` is the city recorded under its own name. */
    ghost predicate Holds(c: City)
      reads this
    {
      c.Name in cities && cities[c.Name] == c
    }

    /**
     * The map is well formed: every city is filed under its own name, has one slot per
     * compass point and a slot array of its own, and every slot holds a city of the map.
     */
    ghost predicate Valid()
      reads this, Slots()
    {
      WellFiled(cities)
    }

    /** Valid, for any name-to-city map `m`. */
    static ghost predicate WellFiled(m: map<string, City>)
      reads set c | c in m.Values :: c.Neighborhoods
    {
      && (forall n :: n in m ==> m[n].Name == n && m[n].Neighborhoods.Length == DirectionSize as int)
      && (forall n, k :: n in m && k in m && n != k ==> m[n].Neighborhoods != m[k].Neighborhoods)
      && (forall n, i :: n in m && 0 <= i < m[n].Neighborhoods.Length && m[n].Neighborhoods[i] != null
            ==> var c := m[n].Neighborhoods[i]; c.Name in m && m[c.Name] == c)
    }

    /** Filing a new city with empty slots and an array of its own keeps a map well filed. */
    static lemma FileNew(m: map<string, City>, c: City)
      requires WellFiled(m) && c.Name !in m
      requires c.Neighborhoods.Length == DirectionSize as int
      requires forall i :: 0 <= i < c.Neighborhoods.Length ==> c.Neighborhoods[i] == null
      requires forall n :: n in m ==> m[n].Neighborhoods != c.Neighborhoods
      ensures WellFiled(m[c.Name := c])
    {
    }

    /** The road layout of the map, as names. */
    ghost function View(): (v: Layout.View)
      reads this, Cities(), Slots()
      ensures v.Keys == cities.Keys
    {
      map n | n in cities :: cities[n].State()
    }

    lemma ViewWellFormed()
      requires Valid()
      ensures Layout.WellFormed(View()) && Layout.Closed(View())
    {
    }

    /** The names of the cities that still exist. */
    ghost function ExistingNames(): set<string>
      reads this, Cities()
    {
      set n | n in cities && cities[n].Exists
    }

    /** The names of the cities that exist and hold no alien. */
    ghost function FreeNames(): set<string>
      reads this, Cities()
    {
      set n | n in cities && cities[n].Exists && cities[n].AlienInCity == null
    }

    /** The aliens living in the cities of the map. */
    ghost function Residents(): set<Alien>
      reads this, Cities()
    {
      set c | c in cities.Values && c.AlienInCity != null :: c.AlienInCity
    }

    /** Since the earlier state the map has only gained cities, each with a slot array allocated since. */
    twostate predicate Grown()
      reads this
    {
      && (forall n :: n in old(cities) ==> n in cities && cities[n] == old(cities[n]))
      && (forall n :: n in cities && n !in old(cities) ==> fresh(cities[n].Neighborhoods))
    }

    /** No city holds an alien: the state parsing leaves a map in. */
    ghost predicate Unoccupied()
      reads this, Cities()
    {
      forall n :: n in cities ==> cities[n].AlienInCity == null
    }

    /**
     * UpsertCity (GameMap.go:143-152): the city filed under `name`, created by newCity
     * and filed when there was none.
     */
    method UpsertCity(name: string) returns (city: City)
      requires Valid()
      modifies this
      ensures Valid()
      ensures View() == Layout.Upsert(old(View()), name)
      ensures city.Name == name && cities == old(cities)[name := city]
      ensures forall n :: n in old(cities) ==> cities[n] == old(cities[n])
      ensures name !in old(cities) ==> fresh(city) && fresh(city.Neighborhoods) && city.AlienInCity == null
      ensures old(Unoccupied()) ==> Unoccupied()
    {
      if name in cities {
        city := cities[name];
      } else {
        city := AddCity(name);
      }
    }

    /** The creating branch of UpsertCity (GameMap.go:146-147): file a new city under a name not yet used. */
    method AddCity(name: string) returns (city: City)
      requires Valid() && name !in cities
      modifies this
      ensures Valid()
      ensures View() == old(View())[name := Layout.Founded]
      ensures city.Name == name && cities == old(cities)[name := city]
      ensures fresh(city) && fresh(city.Neighborhoods) && city.AlienInCity == null
    {
      ghost var v := View();
      city := new City(name);
      FileNew(cities, city);
      cities := cities[name := city];
      assert View() == v[name := Layout.Founded] by {
        assert city.State() == Layout.Founded;
        forall n | n in old(cities)
          ensures cities[n].State() == v[n]
        {
        }
      }
    }

    /** One slot write of UpdateCityWithNeighborhood (GameMap.go:131 and 133). */
    method SetNeighbour(city: City, d: Direction, to: City)
      requires Valid() && Holds(city) && Holds(to) && d.IsCompass()
      modifies city.Neighborhoods
      ensures Valid()
      ensures View() == old(View())[city.Name := Layout.SetSlot(old(View())[city.Name], d, Some(to.Name))]
    {
      city.Neighborhoods[d as int] := to;
      assert city.SlotNames() == old(city.SlotNames())[d as int := Some(to.Name)];
      forall n | n in cities && n != city.Name
        ensures cities[n].State() == old(cities[n].State())
      {
        assert cities[n].Neighborhoods != city.Neighborhoods;
        assert cities[n].SlotNames() == old(cities[n].SlotNames());
      }
      assert Valid() by {
        forall n, i | n in cities && 0 <= i < cities[n].Neighborhoods.Length && cities[n].Neighborhoods[i] != null
          ensures Holds(cities[n].Neighborhoods[i])
        {
          if cities[n] != city || i != d as int {
            assert cities[n].Neighborhoods[i] == old(cities[n].Neighborhoods[i]);
          }
        }
      }
    }

    /**
     * UpdateCityWithNeighborhood (GameMap.go:127-141): record that `neighborhoodCityName`
     * lies to the `direction` of `name`, creating either city as needed, and mirror the road
     * unless the neighbour's opposite slot already holds another city, which is a conflict.
     */
    method UpdateCityWithNeighborhood(name: string, direction: Direction, neighborhoodCityName: string)
      returns (err: Option<Layout.Conflict>)
      requires Valid() && direction.IsCompass()
      modifies this, Slots()
      ensures Valid()
      ensures (View(), err) == Layout.Link(old(View()), name, direction, neighborhoodCityName)
      ensures old(Unoccupied()) ==> Unoccupied()
      ensures Grown()
    {
      ViewWellFormed();
      var city, neighborhoodCity := UpsertBoth(name, neighborhoodCityName);
      err := Connect(city, direction, neighborhoodCity);
    }

    /** The two upserts that open UpdateCityWithNeighborhood (GameMap.go:128-130). */
    method UpsertBoth(name: string, neighborhoodCityName: string) returns (city: City, neighborhoodCity: City)
      requires Valid()
      modifies this
      ensures Valid()
      ensures View() == Layout.Upsert(Layout.Upsert(old(View()), name), neighborhoodCityName)
      ensures Holds(city) && Holds(neighborhoodCity) && city.Name == name && neighborhoodCity.Name == neighborhoodCityName
      ensures city.Neighborhoods in old(Slots()) || fresh(city.Neighborhoods)
      ensures neighborhoodCity.Neighborhoods in old(Slots()) || fresh(neighborhoodCity.Neighborhoods)
      ensures old(Unoccupied()) ==> Unoccupied()
      ensures Grown()
    {
      city := UpsertCity(name);
      ghost var between := cities;
      neighborhoodCity := UpsertCity(neighborhoodCityName);
      forall n | n in cities && n !in old(cities)
        ensures fresh(cities[n].Neighborhoods)
      {
        if n != neighborhoodCityName {
          assert n == name && between[n] == city;
        }
      }
    }

    /** The slot logic of UpdateCityWithNeighborhood once both cities are filed (GameMap.go:131-140). */
    method Connect(city: City, direction: Direction, neighborhoodCity: City) returns (err: Option<Layout.Conflict>)
      requires Valid() && Holds(city) && Holds(neighborhoodCity) && direction.IsCompass()
      modifies city.Neighborhoods, neighborhoodCity.Neighborhoods
      ensures Valid()
      ensures (View(), err) == Layout.Connect(old(View()), city.Name, direction, neighborhoodCity.Name)
    {
      ghost var v1 := View();
      SetNeighbour(city, direction, neighborhoodCity);
      ghost var v2 := View();
      var opposite := direction.Opposite();
      var back := neighborhoodCity.Neighborhoods[opposite as int];
      assert v2[neighborhoodCity.Name].slots[opposite as int] == if back == null then None else Some(back.Name);
      if back == null {
        SetNeighbour(neighborhoodCity, opposite, city);
        err := None;
      } else if back != city {
        assert Holds(back);
        err := Some(Layout.Conflict(city.Name, direction, neighborhoodCity.Name, opposite, back.Name));
      } else {
        err := None;
      }
    }

    /**
     * GetExistCity (GameMap.go:154-161): the city filed under `name` if it still exists,
     * null otherwise.
     */
    function GetExistCity(name: string): (c: City?)
      reads this, Cities()
      ensures c != null <==> name in ExistingNames()
      ensures c != null ==> c == cities[name] && c.Exists
    {
      if name in cities && cities[name].Exists then cities[name] else null
    }

    /**
     * destroyCity (GameMap.go:163-174): clear the `Exists` flag of the named city; an
     * absent or already destroyed city is an error and changes nothing.
     */
    method DestroyCity(name: string) returns (err: Option<MapError>)
      requires Valid()
      modifies Cities()
      ensures Valid()
      ensures name !in cities ==> err == Some(NoSuchCity(name)) && unchanged(Cities())
      ensures name in cities && !old(cities[name].Exists) ==> err == Some(AlreadyDestroyed(name)) && unchanged(Cities())
      ensures name in cities && old(cities[name].Exists) ==>
                && err.None?
                && View() == old(View())[name := old(View())[name].(standing := false)]
                && ExistingNames() == old(ExistingNames()) - {name}
      ensures forall c :: c in Cities() ==> c.AlienInCity == old(c.AlienInCity)
    {
      if name in cities {
        var c := cities[name];
        if c.Exists {
          c.Exists := false;
          forall n | n in cities && n != name
            ensures cities[n].State() == old(cities[n].State())
          {
            assert cities[n] != c;
          }
        } else {
          return Some(AlreadyDestroyed(name));
        }
      } else {
        return Some(NoSuchCity(name));
      }
      return None;
    }

    /** The cities filed under `names` in `m`, in the same order. */
    static ghost function FiledUnder(m: map<string, City>, names: seq<string>): (r: seq<City>)
      requires forall n :: n in names ==> n in m
      ensures |r| == |names|
      ensures forall u :: 0 <= u < |names| ==> r[u] == m[names[u]]
    {
      if names == [] then [] else FiledUnder(m, names[..|names| - 1]) + [m[names[|names| - 1]]]
    }

    /**
     * The inner loop of AssignAliens (GameMap.go:179-184): the cities that exist and
     * hold no alien, in `keys` order.
     */
    method FreeCities(keys: seq<string>) returns (candidates: seq<City>)
      requires Iteration.Enumerates(keys, cities)
      ensures candidates == FiledUnder(cities, Iteration.Select(keys, FreeNames()))
    {
      ghost var free := FreeNames();
      candidates := [];
      for i := 0 to |keys|
        invariant candidates == FiledUnder(cities, Iteration.Select(keys[..i], free))
      {
        ghost var selected := Iteration.Select(keys[..i], free);
        Iteration.SelectSnoc(keys, i, free);
        assert keys[i] in keys;
        var city := cities[keys[i]];
        if city.Exists && city.AlienInCity == null {
          assert Iteration.Select(keys[..i + 1], free) == selected + [keys[i]];
          FiledUnderSnoc(cities, selected, keys[i]);
          candidates := candidates + [city];
        } else {
          assert Iteration.Select(keys[..i + 1], free) == selected;
        }
      }
      assert keys[..|keys|] == keys && free == FreeNames();
    }

    /** Filing one more name appends its city. */
    static lemma FiledUnderSnoc(m: map<string, City>, names: seq<string>, name: string)
      requires forall n :: n in names ==> n in m
      requires name in m
      ensures FiledUnder(m, names + [name]) == FiledUnder(m, names) + [m[name]]
    {
      assert (names + [name])[..|names|] == names;
    }

    /**
     * AssignAliens (GameMap.go:177-191): each alien in turn goes to a city drawn with
     * `rng` from those that exist and hold no alien. When there are fewer such cities
     * than aliens, the error is reported once they run out; the aliens placed so far
     * stay. `placed[t]` names the city of the `t`-th alien placed.
     */
    method AssignAliens(aliens: seq<Alien>, keys: seq<string>, rng: (nat, nat) -> nat)
      returns (err: Option<MapError>, ghost placed: seq<string>)
      requires NamesFiled() && Iteration.Enumerates(keys, cities) && IsRandomSource(rng)
      modifies Cities()
      ensures cities == old(cities)
      ensures err.Some? <==> |aliens| > |old(FreeNames())|
      ensures err.Some? ==> err == Some(NotEnoughCities)
      ensures |placed| == if err.Some? then |old(FreeNames())| else |aliens|
      ensures Iteration.NoDuplicates(placed)
      ensures forall t :: 0 <= t < |placed| ==>
                placed[t] in old(FreeNames()) && cities[placed[t]].AlienInCity == aliens[t]
      ensures forall n :: n in cities && n !in placed ==> cities[n].AlienInCity == old(cities[n].AlienInCity)
      ensures forall n :: n in cities ==> cities[n].Exists == old(cities[n].Exists)
    {
      ghost var free0 := FreeNames();
      ghost var free := free0;
      placed := [];
      for t := 0 to |aliens|
        invariant free == FreeNames() && free <= free0 && |free| + t == |free0|
        invariant |placed| == t && Iteration.NoDuplicates(placed)
        invariant forall u :: 0 <= u < t ==>
                    placed[u] in free0 && placed[u] !in free && cities[placed[u]].AlienInCity == aliens[u]
        invariant forall n :: n in cities && n !in placed ==> cities[n].AlienInCity == old(cities[n].AlienInCity)
        invariant forall n :: n in cities ==> cities[n].Exists == old(cities[n].Exists)
      {
        var city, name := ChooseFree(keys, n => rng(t, n));
        if city == null {
          return Some(NotEnoughCities), placed;
        }
        ghost var before := placed;
        assert name !in before;
        Occupy(city, aliens[t]);
        free := free - {name};
        placed := placed + [name];
        forall u | 0 <= u < |placed|
          ensures placed[u] in free0 && placed[u] !in free && cities[placed[u]].AlienInCity == aliens[u]
        {
          if u < |before| {
            assert placed[u] == before[u] && before[u] != name;
          }
        }
      }
      err := None;
    }

    /** The write of AssignAliens (GameMap.go:188): the free city `city` takes `alien` in. */
    method Occupy(city: City, alien: Alien)
      requires NamesFiled() && Holds(city) && city.Name in FreeNames()
      modifies city`AlienInCity
      ensures city.AlienInCity == alien
      ensures FreeNames() == old(FreeNames()) - {city.Name}
      ensures forall n :: n in cities && n != city.Name ==> cities[n] != city
    {
      city.AlienInCity := alien;
    }

    /**
     * The draw of AssignAliens (GameMap.go:179-185, 188): gather the cities that exist and
     * hold no alien, and pick one with `intn`; null when there is none.
     */
    method ChooseFree(keys: seq<string>, intn: nat -> nat) returns (city: City?, ghost name: string)
      requires NamesFiled() && Iteration.Enumerates(keys, cities) && IsIntn(intn)
      ensures city == null <==> FreeNames() == {}
      ensures city != null ==> name in FreeNames() && city == cities[name] && city.Name == name
    {
      var candidates := FreeCities(keys);
      Iteration.SelectAll(keys, cities, FreeNames());
      if |candidates| == 0 {
        return null, "";
      }
      var index := intn(|candidates|);
      name := Iteration.Select(keys, FreeNames())[index];
      city := candidates[index];
    }

    /** The neighbours of a city of a valid map are cities of the map. */
    lemma NeighboursFiled(c: City)
      requires Valid() && Holds(c)
      ensures c.Neighbours() <= Cities()
    {
      forall x | x in c.Neighbours() ensures x in Cities() {
        var i :| 0 <= i < c.Neighborhoods.Length && c.Neighborhoods[i] == x;
        assert Holds(x);
      }
    }

    /**
     * What one migration (GameMap.go:91-103) out of `city` into `to` does to the map,
     * `to` being `city` itself or a neighbour that existed: destroyed cities stay
     * destroyed and untouched, and every resident was a resident before.
     */
    twostate lemma MoveEffects(city: City)
      requires Holds(city)
      requires exists to :: to in old(Cities()) && Moved(city, to)
      ensures forall n :: n in cities && cities[n].Exists ==> old(cities[n].Exists)
      ensures forall n :: n in cities && !old(cities[n].Exists) ==> cities[n].AlienInCity == old(cities[n].AlienInCity)
      ensures Residents() <= old(Residents())
    {
      var to :| to in old(Cities()) && Moved(city, to);
      forall r | r in Residents() ensures r in old(Residents()) {
        var c :| c in cities.Values && c.AlienInCity == r;
        if c == to && c != city {
          if old(city.AlienInCity) == null || !old(city.Exists) {
            assert old(c.AlienInCity) == r;
          } else {
            assert old(city.AlienInCity) == r && city in old(Cities());
          }
        } else if c != city {
          assert old(c.AlienInCity) == r;
        }
      }
    }

    /**
     * The map-wide effect of a Move out of `city` that ended in `to`: `to` is `city`
     * left as it was, or an existing city the resident migrated into; no other city of
     * the map changed.
     */
    twostate predicate Moved(city: City, to: City)
      reads this, Cities(), city, to
    {
      && cities == old(cities)
      && ((to == city && unchanged(city)) || (old(to.Exists) && Migrated(city, to)))
      && forall n :: n in cities && cities[n] != city && cities[n] != to ==>
           cities[n].Exists == old(cities[n].Exists) && cities[n].AlienInCity == old(cities[n].AlienInCity)
    }

    /**
     * Update (GameMap.go:193-203): every resident alien, in `keys` order, makes one Move
     * out of its city, the `i`-th city's move drawing with `rng(i, _)`; the game stops as
     * soon as a move takes an alien's step count past StepCeiling. An alien that reaches a
     * city later in the order moves again. Destroyed cities stay destroyed and nothing
     * enters or leaves them, no alien appears, and step counts only go up; when the game
     * goes on, every alien still living in a city has moved, and none is past StepCeiling;
     * when it stops, exactly one alien has (StepsPast).
     */
    method Update(keys: seq<string>, rng: (nat, nat) -> nat) returns (willContinue: bool)
      requires Valid() && Iteration.Enumerates(keys, cities) && IsRandomSource(rng)
      modifies Cities()`Exists, Cities()`AlienInCity, Residents()`Steps
      ensures cities == old(cities)
      ensures forall n :: n in cities && cities[n].Exists ==> old(cities[n].Exists)
      ensures forall n :: n in cities && !old(cities[n].Exists) ==> cities[n].AlienInCity == old(cities[n].AlienInCity)
      ensures Residents() <= old(Residents())
      ensures forall a :: a in old(Residents()) ==> a.Steps >= old(a.Steps)
      ensures willContinue ==> forall a :: a in old(Residents()) ==> a.Steps == old(a.Steps) || a.Steps <= StepCeiling
      ensures !willContinue ==> StepsPast(old(Residents()), old(StepsOf(Residents())))
      ensures old(Residents()) == {} ==> willContinue && unchanged(Cities())
      ensures willContinue ==> forall a :: a in Residents() ==> a.Steps > old(a.Steps)
    {
      ghost var residents := Residents();
      ghost var steps0 := StepsOf(residents);
      assert residents == old(Residents()) && steps0 == old(StepsOf(Residents()));
      ghost var start := Snapshot();
      ghost var moved: set<Alien> := {};
      for i := 0 to |keys|
        invariant cities == old(cities) && Valid()
        invariant KeptSince(start, Snapshot(), residents)
        invariant Residents() <= residents
        invariant StepsSince(residents, moved, steps0)
        invariant forall n :: n in keys[..i] ==> cities[n].AlienInCity == null || cities[n].AlienInCity in moved
      {
        assert keys[..i + 1] == keys[..i] + [keys[i]];
        assert keys[i] in keys;
        var city := cities[keys[i]];
        ghost var occupant := city.Occupant();
        var stop := VisitInOrder(city, n => rng(i, n), keys[..i], residents, moved, steps0, start);
        if stop {
          return false;
        }
        moved := moved + occupant;
      }
      assert keys[..|keys|] == keys;
      VisitedAll(keys, moved);
      if residents == {} {
        forall c | c in Cities() ensures c.Exists == old(c.Exists) && c.AlienInCity == old(c.AlienInCity) {
          assert c == cities[c.Name];
        }
      }
      return true;
    }

    /** The step count of each of `aliens`. */
    ghost function StepsOf(aliens: set<Alien>): (steps: map<Alien, int>)
      reads aliens
      ensures steps.Keys == aliens && forall a :: a in aliens ==> steps[a] == a.Steps
    {
      map a | a in aliens :: a.Steps
    }

    /**
     * Against the counts `steps0` the turn started with: the aliens of `moved` have made
     * moves and are at most StepCeiling, the other `residents` have not moved.
     */
    ghost predicate StepsSince(residents: set<Alien>, moved: set<Alien>, steps0: map<Alien, int>)
      reads residents
    {
      && moved <= residents <= steps0.Keys
      && forall a :: a in residents ==>
           if a in moved then steps0[a] < a.Steps <= StepCeiling else a.Steps == steps0[a]
    }

    /**
     * Against the counts `steps0` the turn started with: no step count has gone down, and
     * exactly one of `residents` has moved and gone past StepCeiling.
     */
    ghost predicate StepsPast(residents: set<Alien>, steps0: map<Alien, int>)
      reads residents
    {
      && residents <= steps0.Keys
      && (forall a :: a in residents ==> steps0[a] <= a.Steps)
      && exists a :: a in residents && steps0[a] < a.Steps && StepCeiling < a.Steps
                     && forall b :: b in residents && b != a ==> b.Steps == steps0[b] || b.Steps <= StepCeiling
    }

    /**
     * An alien of `residents` whose count rose past StepCeiling, with no count gone down and
     * every other moved count at most StepCeiling, gives StepsPast.
     */
    lemma StepsPastWitness(residents: set<Alien>, steps0: map<Alien, int>, a: Alien)
      requires residents <= steps0.Keys
      requires forall b :: b in residents ==> steps0[b] <= b.Steps
      requires a in residents && steps0[a] < a.Steps && StepCeiling < a.Steps
      requires forall b :: b in residents && b != a ==> b.Steps == steps0[b] || b.Steps <= StepCeiling
      ensures StepsPast(residents, steps0)
    {
    }

    /** StepsPast names a single alien: two residents that moved past StepCeiling are the same. */
    lemma StepsPastUnique(residents: set<Alien>, steps0: map<Alien, int>, a: Alien, b: Alien)
      requires StepsPast(residents, steps0)
      requires a in residents && steps0[a] < a.Steps && StepCeiling < a.Steps
      requires b in residents && steps0[b] < b.Steps && StepCeiling < b.Steps
      ensures a == b
    {
      var w :| w in residents && steps0[w] < w.Steps && StepCeiling < w.Steps
               && forall c :: c in residents && c != w ==> c.Steps == steps0[c] || c.Steps <= StepCeiling;
      assert a == w && b == w;
    }

    /** When every city has been visited, every alien still living in a city is one of `moved`. */
    lemma VisitedAll(keys: seq<string>, moved: set<Alien>)
      requires NamesFiled() && Iteration.Enumerates(keys, cities)
      requires forall n :: n in keys ==> cities[n].AlienInCity == null || cities[n].AlienInCity in moved
      ensures Residents() <= moved
    {
      forall a | a in Residents() ensures a in moved {
        var c :| c in cities.Values && c.AlienInCity == a;
        assert c.Name in keys;
      }
    }

    /** Each city's existence flag and resident, by name. */
    ghost function Snapshot(): (snap: map<string, (bool, Alien?)>)
      reads this, Cities()
      ensures snap.Keys == cities.Keys
      ensures forall n :: n in cities ==> snap[n] == (cities[n].Exists, cities[n].AlienInCity)
    {
      map n | n in cities :: (cities[n].Exists, cities[n].AlienInCity)
    }

    /**
     * From the snapshot `start` to the snapshot `now` of the same cities: no destroyed
     * city came back, a destroyed city kept its alien, and, when there were no
     * `residents` to move, nothing changed.
     */
    static ghost predicate KeptSince(start: map<string, (bool, Alien?)>, now: map<string, (bool, Alien?)>,
                                     residents: set<Alien>)
    {
      && start.Keys == now.Keys
      && forall n :: n in now ==>
           && (now[n].0 ==> start[n].0)
           && (!start[n].0 ==> now[n].1 == start[n].1)
           && (residents == {} ==> now[n] == start[n])
    }

    /** KeptSince composes. */
    static lemma KeptSinceTrans(a: map<string, (bool, Alien?)>, b: map<string, (bool, Alien?)>,
                                c: map<string, (bool, Alien?)>, residents: set<Alien>)
      requires KeptSince(a, b, residents) && KeptSince(b, c, residents)
      ensures KeptSince(a, c, residents)
    {
    }

    /**
     * Across a change in which no alien but `before[city.Name]`, one of `occupant`, came
     * to a city: if every city of `visited` held, in `before`, no alien or one of `moved`,
     * then every city of `visited` and `city` itself holds no alien or one of `moved` or
     * `occupant`.
     */
    lemma VisitedHoldMovers(city: City, visited: seq<string>, moved: set<Alien>, occupant: set<Alien>,
                            before: map<string, (bool, Alien?)>)
      requires Holds(city) && before.Keys == cities.Keys
      requires before[city.Name].1 == null || before[city.Name].1 in occupant
      requires forall n :: n in visited ==> n in cities && (before[n].1 == null || before[n].1 in moved)
      requires forall n :: n in cities && cities[n].AlienInCity != before[n].1 ==>
                 cities[n].AlienInCity == null || cities[n].AlienInCity == before[city.Name].1
      ensures forall n :: n in visited + [city.Name] ==>
                n in cities && (cities[n].AlienInCity == null || cities[n].AlienInCity in moved + occupant)
    {
      forall n | n in visited + [city.Name]
        ensures n in cities && (cities[n].AlienInCity == null || cities[n].AlienInCity in moved + occupant)
      {
        if n != city.Name {
          assert n in visited;
        }
      }
    }

    /**
     * One turn of Update's loop (GameMap.go:195-199): the resident of `city`, if any,
     * makes one Move, to `city` itself when it is dead or its city is isolated or destroyed,
     * and to the neighbour `intn` chooses otherwise; `stop` says its step count went past
     * StepCeiling. No city but `city` and that destination changes, and no other alien's
     * step count.
     */
    method Visit(city: City, intn: nat -> nat) returns (stop: bool)
      requires Valid() && Holds(city) && IsIntn(intn)
      modifies Cities()`Exists, Cities()`AlienInCity, city.Occupant()`Steps
      ensures cities == old(cities) && Valid()
      ensures forall n :: n in cities && cities[n].Exists ==> old(cities[n].Exists)
      ensures forall n :: n in cities && !old(cities[n].Exists) ==> cities[n].AlienInCity == old(cities[n].AlienInCity)
      ensures Residents() <= old(Residents())
      ensures forall a: Alien :: old(allocated(a)) && a != old(city.AlienInCity) ==> a.Steps == old(a.Steps)
      ensures old(city.AlienInCity) != null ==> old(city.AlienInCity).Steps == old(city.AlienInCity.Steps) + 1
      ensures stop <==> old(city.AlienInCity) != null && old(city.AlienInCity).Steps > StepCeiling
      ensures old(city.AlienInCity) == null ==> unchanged(Cities())
      ensures old(city.AlienInCity) != null && (!old(city.AlienInCity.Alive) || old(city.IsolatedOrDestroyed())) ==>
                Moved(city, city) && unchanged(Cities())
      ensures old(city.AlienInCity) != null && old(city.AlienInCity.Alive) && !old(city.IsolatedOrDestroyed()) ==>
                Moved(city, old(city.Chosen(intn))) && Migrated(city, old(city.Chosen(intn)))
      ensures forall n :: n in cities && cities[n].AlienInCity != old(cities[n].AlienInCity) ==>
                cities[n].AlienInCity == null || cities[n].AlienInCity == old(city.AlienInCity)
    {
      stop := false;
      var alien := city.AlienInCity;
      if alien != null {
        NeighboursFiled(city);
        var to, steps := alien.Move(city, intn);
        stop := steps > StepCeiling;
        forall n | n in cities && cities[n] != city && cities[n] != to
          ensures cities[n].Exists == old(cities[n].Exists) && cities[n].AlienInCity == old(cities[n].AlienInCity)
        {
          if cities[n] in city.Neighbours() {
            assert unchanged(cities[n]);
          }
        }
        assert to in old(Cities()) && Moved(city, to);
        MoveEffects(city);
      }
    }

    /**
     * Visit, as the `i`-th turn of Update's loop: against the counts `steps0` the loop
     * started with, the aliens `moved` by earlier turns and the cities `visited` by them,
     * this turn's resident joins `moved`, and every visited city still holds no alien or a
     * moved one; when `stop`, one resident has gone past StepCeiling.
     */
    method VisitInOrder(city: City, intn: nat -> nat, ghost visited: seq<string>,
                        ghost residents: set<Alien>, ghost moved: set<Alien>, ghost steps0: map<Alien, int>,
                        ghost start: map<string, (bool, Alien?)>)
      returns (stop: bool)
      requires Valid() && Holds(city) && IsIntn(intn)
      requires forall n :: n in visited ==> n in cities && (cities[n].AlienInCity == null || cities[n].AlienInCity in moved)
      requires Residents() <= residents && StepsSince(residents, moved, steps0)
      requires KeptSince(start, Snapshot(), residents)
      modifies Cities()`Exists, Cities()`AlienInCity, city.Occupant()`Steps
      ensures cities == old(cities) && Valid()
      ensures Residents() <= old(Residents())
      ensures KeptSince(start, Snapshot(), residents)
      ensures forall n :: n in visited + [city.Name] ==>
                n in cities && (cities[n].AlienInCity == null || cities[n].AlienInCity in moved + old(city.Occupant()))
      ensures !stop ==> StepsSince(residents, moved + old(city.Occupant()), steps0)
      ensures stop ==> StepsPast(residents, steps0)
    {
      ghost var occupant := city.Occupant();
      ghost var before := Snapshot();
      ghost var stepsBefore := StepsOf(residents);
      ghost var alien := city.AlienInCity;
      assert forall a :: a in occupant <==> a == alien;
      assert city in cities.Values;
      stop := Visit(city, intn);
      VisitedHoldMovers(city, visited, moved, occupant, before);
      KeptSinceTrans(start, before, Snapshot(), residents);
      if alien != null {
        assert city in old(cities.Values);
      }
      forall a | a in residents
        ensures if a in moved + occupant then steps0[a] < a.Steps && (a.Steps <= StepCeiling || (stop && a == alien))
                else a.Steps == steps0[a]
      {
        assert if a in moved then steps0[a] < stepsBefore[a] <= StepCeiling else stepsBefore[a] == steps0[a];
        if a == alien {
          assert a.Steps == stepsBefore[a] + 1;
        } else {
          assert a.Steps == stepsBefore[a];
        }
      }
      if stop {
        StepsPastWitness(residents, steps0, alien);
      }
    }

    /** A city's words, read from the heap, are its words in the layout. */
    lemma {:induction false} WordsMatch(c: City, k: nat)
      requires Valid() && Holds(c) && k <= DirectionSize as int
      ensures c.Words(k) == Layout.Words(View(), c.Name, k)
    {
      if k > 0 {
        WordsMatch(c, k - 1);
        var x := c.Neighborhoods[k - 1];
        if x != null {
          assert Holds(x);
        }
      }
    }

    /** The line DumpMap writes for `city` (GameMap.go:209): its name, a space, then Neighborhoods.String. */
    method LineOf(city: City, ghost v: Layout.View) returns (line: string)
      requires Valid() && Holds(city) && v == View()
      ensures line == Layout.Line(v, city.Name)
    {
      WordsMatch(city, DirectionSize as int);
      var neighbours := city.NeighborhoodsString();
      line := city.Name + " " + neighbours;
    }

    /**
     * ExistCityCount (GameMap.go:215-223): the number of cities that still exist, counted
     * over the map in `keys` order.
     */
    method ExistCityCount(keys: seq<string>) returns (count: int)
      requires Iteration.Enumerates(keys, cities)
      ensures count == |ExistingNames()|
    {
      count := 0;
      for i := 0 to |keys|
        invariant count == |Iteration.Select(keys[..i], ExistingNames())|
      {
        Iteration.SelectSnoc(keys, i, ExistingNames());
        assert keys[i] in keys;
        if cities[keys[i]].Exists {
          count := count + 1;
        }
      }
      assert keys[..|keys|] == keys;
      Iteration.SelectAll(keys, cities, ExistingNames());
    }

    /**
     * DumpMap (GameMap.go:205-213): one line per existing city, in `keys` order, joined by
     * newlines. When some city exists and no city name holds a newline, splitting the dump
     * at newlines gives back exactly one line per existing city.
     */
    method DumpMap(keys: seq<string>) returns (dump: string)
      requires Valid() && Iteration.Enumerates(keys, cities)
      ensures dump == Text.Join(Layout.DumpLines(View(), Iteration.Select(keys, ExistingNames())), '\n')
    {
      ghost var v := View();
      ghost var existing := ExistingNames();
      ghost var names: seq<string> := [];
      var result: seq<string> := [];
      for i := 0 to |keys|
        invariant names == Iteration.Select(keys[..i], existing)
        invariant result == Layout.DumpLines(v, names)
        invariant Valid() && View() == v && ExistingNames() == existing
      {
        Iteration.SelectSnoc(keys, i, existing);
        assert keys[i] in keys;
        result, names := DumpCity(keys[i], v, existing, result, names);
      }
      assert keys[..|keys|] == keys;
      dump := Text.Join(result, '\n');
    }

    /** One turn of DumpMap's loop: the line of `name` is appended when that city exists. */
    method DumpCity(name: string, ghost v: Layout.View, ghost existing: set<string>,
                    result: seq<string>, ghost names: seq<string>)
      returns (result': seq<string>, ghost names': seq<string>)
      requires Valid() && v == View() && existing == ExistingNames() && name in cities
      requires (forall n :: n in names ==> n in v) && result == Layout.DumpLines(v, names)
      ensures name in v
      ensures result' == result + (if name in existing then [Layout.Line(v, name)] else [])
      ensures names' == names + (if name in existing then [name] else [])
      ensures result' == Layout.DumpLines(v, names')
      ensures Valid() && v == View() && existing == ExistingNames()
    {
      result', names' := result, names;
      var city := cities[name];
      if city.Exists {
        var line := LineOf(city, v);
        Layout.DumpLinesSnoc(v, names, name);
        result' := result + [line];
        names' := names + [name];
      }
    }

    /**
     * The dump has one line per existing city: when some city exists and no city name
     * holds a newline, splitting DumpMap's text at newlines gives as many lines as
     * ExistCityCount counts, and each is the line of one existing city.
     */
    lemma DumpHasOneLinePerCity(keys: seq<string>)
      requires Valid() && Iteration.Enumerates(keys, cities)
      requires |ExistingNames()| > 0 && forall n :: n in cities ==> '\n' !in n
      ensures var lines := Layout.DumpLines(View(), Iteration.Select(keys, ExistingNames()));
              && Text.Split(Text.Join(lines, '\n'), '\n') == lines
              && |lines| == |ExistingNames()|
    {
      Iteration.SelectAll(keys, cities, ExistingNames());
      Layout.DumpSplitsIntoLines(View(), Iteration.Select(keys, ExistingNames()));
    }
  }
}
