/**
 * The compass directions of the city graph (GameMap.go:9-65). As in the Go program a
 * direction is a plain integer: the four compass points are 0..3 (in the order North,
 * West, South, East) and index a city's neighbour slots, and two sentinels follow them,
 * `DirectionSize` (the number of slots) and `Invalid`.
 */
module Directions {
  import Text

  newtype Direction = int {

    /** One of the four compass points, and so a usable index into the neighbour slots. */
    predicate IsCompass() {
      North <= this <= East
    }

    /**
     * GetOpposite: North and South swap, East and West swap, anything else is `Invalid`.
     * With the compass points numbered round the compass, the opposite is two steps on.
     */
    function Opposite(): (r: Direction)
      ensures IsCompass() <==> r.IsCompass()
      ensures IsCompass() ==> r as int == (this as int + 2) % 4
      ensures !IsCompass() ==> r == Invalid
    {
      if this == North then South
      else if this == South then North
      else if this == East then West
      else if this == West then East
      else Invalid
    }

    /** String: the lower-case name of a compass point, "invalid" for any other value. */
    function String(): (s: string)
      ensures Text.Lower(s) == s
    {
      if this == North then "north"
      else if this == South then "south"
      else if this == East then "east"
      else if this == West then "west"
      else "invalid"
    }
  }

  const North: Direction := 0
  const West: Direction := 1
  const South: Direction := 2
  const East: Direction := 3
  /** The number of neighbour slots of a city; must stay after the compass points. */
  const DirectionSize: Direction := 4
  const Invalid: Direction := 5

  /**
   * DirectionFromString: case-insensitive match against the four compass names; any
   * other text, the empty one included, gives `Invalid` rather than an error.
   */
  function DirectionFromString(from: string): (d: Direction)
    ensures d.IsCompass() || d == Invalid
    ensures d.IsCompass() ==> d.String() == Text.Lower(from)
    ensures d == Invalid ==> Text.Lower(from) !in {"north", "west", "south", "east"}
  {
    var s := Text.Lower(from);
    if s == "north" then North
    else if s == "west" then West
    else if s == "south" then South
    else if s == "east" then East
    else Invalid
  }

  /** A direction's name is made of lower-case ASCII letters only. */
  lemma StringIsLetters(d: Direction)
    ensures forall c :: c in d.String() ==> 'a' <= c <= 'z'
  {
    var s := d.String();
    assert forall i :: 0 <= i < |s| ==> 'a' <= s[i] <= 'z';
  }

  /** Opposite is an involution on the compass points. */
  lemma OppositeInvolution(d: Direction)
    requires d.IsCompass()
    ensures d.Opposite().Opposite() == d
  {
  }

  /** Printing a direction and parsing the text back gives the direction again, for the
      compass points and for `Invalid`; `DirectionSize` and every other value come back
      as `Invalid`. */
  lemma StringRoundTrip(d: Direction)
    ensures d.IsCompass() || d == Invalid ==> DirectionFromString(d.String()) == d
    ensures !d.IsCompass() ==> DirectionFromString(d.String()) == Invalid
  {
  }

  /** A mixed-case name parses like the lower-case one. */
  lemma MixedCaseNorth()
    ensures DirectionFromString("NorTh") == North
  {
    assert Text.Lower("NorTh") == "north";
  }

  /** Matching ignores case: texts that lower-case alike parse alike. */
  lemma FromStringIgnoresCase(s: string, t: string)
    requires Text.Lower(s) == Text.Lower(t)
    ensures DirectionFromString(s) == DirectionFromString(t)
  {
  }

  /** A text parses to a compass point exactly when it lower-cases to that point's name. */
  lemma FromStringExact(s: string, d: Direction)
    requires d.IsCompass()
    ensures DirectionFromString(s) == d <==> Text.Lower(s) == d.String()
  {
  }
}
