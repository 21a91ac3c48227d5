/**
 * The command encoder: a verb, an ordered list of axis/value pairs, the values
 * to emit as bare flags, and an optional card address become one command line.
 */
module Command {
  import opened Wrappers
  import opened Text

  const BUILD := "BU"
  const HERE := "H"
  const HOME := "!"
  const LED := "LED"
  const MOVE := "M"
  const RDSTAT := "RS"
  const SETHOME := "HM"
  const STATUS := "/"
  const WHERE := "W"
  const WHO := "WHO"

  /** A coordinate value: a string, or an int that is rendered in decimal. */
  datatype Value = Text(s: string) | Int(n: int)

  /** What an f-string makes of the value. */
  function Render(v: Value): string
  {
    match v
    case Text(s) => s
    case Int(n) => IntToString(n)
  }

  /**
   * `flag_overrides and value in flag_overrides`: the list must be non-empty and
   * hold the value itself. An int is never equal to a string, so it is never a flag.
   */
  predicate IsFlag(value: Value, flagOverrides: seq<string>) {
    |flagOverrides| > 0 && value.Text? && value.s in flagOverrides
  }

  /** `Command.format_coordinate`: `axis` then either the bare flag or `=` and the value. */
  function FormatCoordinate(axis: string, value: Value, flagOverrides: seq<string>): (token: string)
    ensures |token| >= |axis| && token[..|axis|] == axis
    ensures IsFlag(value, flagOverrides) ==> token[|axis|..] == value.s
    ensures !IsFlag(value, flagOverrides) ==> token[|axis|..] == "=" + Render(value)
  {
    if IsFlag(value, flagOverrides) then axis + value.s else axis + "=" + Render(value)
  }

  /** The per-pair tokens, in the caller's order. */
  function CoordinateTokens(coordinates: seq<(string, Value)>, flagOverrides: seq<string>): (tokens: seq<string>)
    ensures |tokens| == |coordinates|
    ensures forall k :: 0 <= k < |coordinates| ==>
      tokens[k] == FormatCoordinate(coordinates[k].0, coordinates[k].1, flagOverrides)
  {
    seq(|coordinates|, k requires 0 <= k < |coordinates| =>
      FormatCoordinate(coordinates[k].0, coordinates[k].1, flagOverrides))
  }

  /** `Command.format_coordinates`: the tokens joined with single spaces. */
  function FormatCoordinates(coordinates: seq<(string, Value)>, flagOverrides: seq<string>): string
  {
    Join(" ", CoordinateTokens(coordinates, flagOverrides))
  }

  /** `Command.format`. A card address of None or 0 adds no prefix. */
  function Format(
    command: string, coordinates: seq<(string, Value)>, flagOverrides: seq<string>, cardAddress: Option<int>
  ): string
  {
    var body := if |coordinates| > 0 then command + " " + FormatCoordinates(coordinates, flagOverrides) else command;
    if cardAddress.Some? && cardAddress.value != 0 then IntToString(cardAddress.value) + body else body
  }

  /** No axis and no rendered value holds a space. */
  predicate SpaceFree(coordinates: seq<(string, Value)>) {
    forall k :: 0 <= k < |coordinates| ==> ' ' !in coordinates[k].0 && ' ' !in Render(coordinates[k].1)
  }

  /**
   * `format_coordinates` emits one token per pair, in order, separated by exactly
   * one space: splitting on the space recovers every token.
   */
  lemma FormatCoordinatesSplits(coordinates: seq<(string, Value)>, flagOverrides: seq<string>)
    requires |coordinates| > 0
    requires SpaceFree(coordinates)
    ensures SplitOn(FormatCoordinates(coordinates, flagOverrides), ' ') == CoordinateTokens(coordinates, flagOverrides)
  {
    var tokens := CoordinateTokens(coordinates, flagOverrides);
    forall k | 0 <= k < |tokens|
      ensures ' ' !in tokens[k]
    {
      var (axis, value) := coordinates[k];
      assert tokens[k] == axis + tokens[k][|axis|..];
    }
    SplitOnOfJoin(tokens, ' ');
  }

  /** With no flag overrides every pair is an assignment `axis=value`. */
  lemma FormatWithoutFlags(coordinates: seq<(string, Value)>, k: nat)
    requires k < |coordinates|
    ensures CoordinateTokens(coordinates, [])[k] == coordinates[k].0 + "=" + Render(coordinates[k].1)
  {
    var (axis, value) := coordinates[k];
    var t := CoordinateTokens(coordinates, [])[k];
    assert t == t[..|axis|] + t[|axis|..];
  }

  /**
   * `format` with no pairs is the verb itself; with pairs it is the verb, one
   * space and the formatted pairs. An address of 0 adds nothing, as None does;
   * a non-zero card address is put in front in decimal, with no separator, and
   * parses back to the address.
   */
  lemma FormatShape(command: string, coordinates: seq<(string, Value)>, flagOverrides: seq<string>, address: int)
    ensures Format(command, [], flagOverrides, None) == command
    ensures Format(command, [], flagOverrides, Some(0)) == command
    ensures Format(command, coordinates, flagOverrides, Some(0)) == Format(command, coordinates, flagOverrides, None)
    ensures |coordinates| > 0 ==>
      Format(command, coordinates, flagOverrides, None) == command + " " + FormatCoordinates(coordinates, flagOverrides)
    ensures address != 0 ==>
      Format(command, coordinates, flagOverrides, Some(address))
        == IntToString(address) + Format(command, coordinates, flagOverrides, None)
    ensures address != 0 ==> ParseInt(IntToString(address)) == Some(address)
  {
    ParseIntOfIntToString(address);
  }

  /** Flag membership is exact, as the repository's tests pin it. */
  lemma FormatCoordinateExamples()
    ensures FormatCoordinate("Y", Text("1"), []) == "Y=1"
    ensures FormatCoordinate("Z", Text("1"), ["+"]) == "Z=1"
    ensures FormatCoordinate("Z", Text("+"), ["+"]) == "Z+"
    ensures FormatCoordinate("Z", Text("+"), ["+", "-"]) == "Z+"
    ensures FormatCoordinate("X", Int(1), ["1"]) == "X=1"
  {
    assert IntToString(1) == "1";
  }

  /**
   * The value is written out whole: nothing shortens a long value to 16
   * characters, although a test of the repository expects `W=-123456789.12345`.
   */
  lemma FormatCoordinateTruncationTest()
    ensures FormatCoordinate("W", Text("-123456789.123456789"), []) == "W=-123456789.123456789"
    ensures FormatCoordinate("W", Text("-123456789.123456789"), []) != "W=-123456789.12345"
  {
    var r := FormatCoordinate("W", Text("-123456789.123456789"), []);
    assert r == "W" + "=" + "-123456789.123456789";
    assert |r| == 22;
  }

  /** A mix of flags and assignments, joined in the caller's order. */
  lemma FormatCoordinatesExample()
    ensures FormatCoordinates([("X", Text("+")), ("Y", Text("?")), ("Z", Text("!"))], ["+", "?"]) == "X+ Y? Z=!"
  {
    var c := [("X", Text("+")), ("Y", Text("?")), ("Z", Text("!"))];
    var t := CoordinateTokens(c, ["+", "?"]);
    assert t[0] == FormatCoordinate("X", Text("+"), ["+", "?"]) == "X+";
    assert t[1] == FormatCoordinate("Y", Text("?"), ["+", "?"]) == "Y?";
    assert t[2] == FormatCoordinate("Z", Text("!"), ["+", "?"]) == "Z=!";
    assert t == ["X+", "Y?", "Z=!"];
    assert Join(" ", t) == "X+" + " " + Join(" ", ["Y?", "Z=!"]);
  }

  /** A card address is written in front of the verb, as the tests pin it. */
  lemma FormatCardAddressExample()
    ensures Format("CMD", [], [], Some(123)) == "123CMD"
  {
    assert NatToString(1) == "1";
    assert NatToString(12) == NatToString(1) + "2";
    assert NatToString(123) == NatToString(12) + "3";
  }

  /** Two assignments after the verb. */
  lemma FormatTwoAssignments(command: string, a1: string, v1: Value, a2: string, v2: Value)
    ensures Format(command, [(a1, v1), (a2, v2)], [], None)
      == command + " " + (a1 + "=" + Render(v1)) + " " + (a2 + "=" + Render(v2))
  {
    var c := [(a1, v1), (a2, v2)];
    var t := CoordinateTokens(c, []);
    FormatWithoutFlags(c, 0);
    FormatWithoutFlags(c, 1);
    assert t == [a1 + "=" + Render(v1), a2 + "=" + Render(v2)];
    assert Join(" ", t) == t[0] + " " + Join(" ", t[1..]);
  }

  /** The verb, one space and the pairs, as the tests pin it. */
  lemma FormatExample()
    ensures Format("CMD", [("X", Int(1)), ("Y", Text("-2.0"))], [], None) == "CMD X=1 Y=-2.0"
  {
    FormatTwoAssignments("CMD", "X", Int(1), "Y", Text("-2.0"));
    assert Render(Int(1)) == "1";
  }
}
