/**
 * The build-report decoder: `key: v1 v2 ...` lines become a table from key to
 * value list, and four of those lists are zipped position by position into
 * axis records whose type letters go through a fixed table.
 */
module Axis {
  import opened Wrappers
  import opened Text
  import opened Errors

  /** The members of `Axis.Type`. */
  datatype AxisType =
    | Dac | FilterWheel | Lens | Logic | MicroMirror | Motor | MultiLed | Piezo
    | PiezoLinear | Shutter | Slider | Theta | Turret | XyMotor | ZMotor | Zoom

  /**
   * `UNKNOWN = "u"` repeats the value of `MICRO_MIRROR`, so the enum makes it an
   * alias of that member rather than a member of its own.
   */
  const UNKNOWN: AxisType := MicroMirror

  /** The enum value of each member, a one-letter string in the build report. */
  function LetterChar(t: AxisType): char
  {
    match t
    case Dac => 'd'
    case FilterWheel => 'w'
    case Lens => 'b'
    case Logic => 'g'
    case MicroMirror => 'u'
    case Motor => 'l'
    case MultiLed => 'i'
    case Piezo => 'p'
    case PiezoLinear => 'a'
    case Shutter => 's'
    case Slider => 'f'
    case Theta => 't'
    case Turret => 'o'
    case XyMotor => 'x'
    case ZMotor => 'z'
    case Zoom => 'm'
  }

  function Letter(t: AxisType): string
  {
    [LetterChar(t)]
  }

  /** The member whose letter is `c`, searched in declaration order. */
  function TypeOfLetter(c: char): Option<AxisType>
  {
    if c == 'd' then Some(Dac)
    else if c == 'w' then Some(FilterWheel)
    else if c == 'b' then Some(Lens)
    else if c == 'g' then Some(Logic)
    else if c == 'u' then Some(MicroMirror)
    else if c == 'l' then Some(Motor)
    else if c == 'i' then Some(MultiLed)
    else if c == 'p' then Some(Piezo)
    else if c == 'a' then Some(PiezoLinear)
    else if c == 's' then Some(Shutter)
    else if c == 'f' then Some(Slider)
    else if c == 't' then Some(Theta)
    else if c == 'o' then Some(Turret)
    else if c == 'x' then Some(XyMotor)
    else if c == 'z' then Some(ZMotor)
    else if c == 'm' then Some(Zoom)
    else None
  }

  /** `Axis.Type(value)`: lookup by value; a value no member has raises ValueError. */
  function TypeOf(value: string): (r: Result<AxisType, Failure>)
    ensures r.Ok? ==> Letter(r.value) == value
    ensures r.Err? ==> r.error == ValueError
  {
    if |value| == 1 && TypeOfLetter(value[0]).Some? then Ok(TypeOfLetter(value[0]).value) else Err(ValueError)
  }

  /** Every member is found by its own letter. */
  lemma TypeOfLetterRoundTrip(t: AxisType)
    ensures TypeOf(Letter(t)) == Ok(t)
  {
  }

  /**
   * The table is a bijection between the members and their letters: a lookup
   * succeeds exactly on the letters of members.
   */
  lemma TypeOfSucceedsOnLetters(value: string)
    ensures TypeOf(value).Ok? <==> exists u: AxisType :: Letter(u) == value
  {
    if exists u: AxisType :: Letter(u) == value {
      var u: AxisType :| Letter(u) == value;
      TypeOfLetterRoundTrip(u);
    }
  }

  /** `u` is MICRO_MIRROR (and UNKNOWN with it); the letters the tests use. */
  lemma TypeExamples()
    ensures TypeOf("u") == Ok(MicroMirror) && UNKNOWN == MicroMirror
    ensures TypeOf("x") == Ok(XyMotor) && TypeOf("z") == Ok(ZMotor) && TypeOf("f") == Ok(Slider)
    ensures TypeOf("o") == Ok(Turret) && TypeOf("i") == Ok(MultiLed)
    ensures TypeOf("U") == Err(ValueError) && TypeOf("") == Err(ValueError)
  {
  }

  /** `Axis.AxisInfo`; its `label` field is `axisLabel` here, since `label` is a Dafny keyword. */
  datatype AxisInfo = AxisInfo(axisLabel: string, axisType: AxisType, address: string, addressHex: string)

  /** What `_make_build_info_dict` returns. */
  type BuildInfo = map<string, seq<string>>

  /** A line that sets an entry: it holds exactly one colon, so `split(":")` unpacks into two. */
  predicate IsEntry(line: string) {
    ':' in line && |SplitOn(line, ':')| == 2
  }

  function KeyOfLine(line: string): string
    requires IsEntry(line)
  {
    SplitOn(line, ':')[0]
  }

  /** The value list: the text after the colon, stripped and split at whitespace runs. */
  function ValuesOfLine(line: string): seq<string>
    requires IsEntry(line)
  {
    SplitWhitespace(SplitOn(line, ':')[1])
  }

  /** One pass of the loop body: skip a line with no colon, fail on two or more, else set the entry. */
  function AddLine(info: BuildInfo, line: string): Result<BuildInfo, Failure>
  {
    if ':' !in line then Ok(info)
    else if |SplitOn(line, ':')| != 2 then Err(ValueError)
    else Ok(info[KeyOfLine(line) := ValuesOfLine(line)])
  }

  /** A line is an entry exactly when it has one colon, and fails exactly when it has two or more. */
  lemma ColonCount(line: string)
    ensures IsEntry(line) <==> multiset(line)[':'] == 1
    ensures ':' in line && !IsEntry(line) <==> multiset(line)[':'] >= 2
  {
    SplitOnLength(line, ':');
  }

  /** The loop over the lines from `info` on; the dictionary starts empty. */
  function BuildInfoFrom(info: BuildInfo, lines: seq<string>): Result<BuildInfo, Failure>
    decreases |lines|
  {
    if lines == [] then Ok(info)
    else
      match AddLine(info, lines[0])
      case Err(e) => Err(e)
      case Ok(next) => BuildInfoFrom(next, lines[1..])
  }

  function BuildInfoOf(lines: seq<string>): Result<BuildInfo, Failure>
  {
    BuildInfoFrom(map[], lines)
  }

  /** `_make_build_info_dict`. */
  method MakeBuildInfoDict(buildResponse: seq<string>) returns (r: Result<BuildInfo, Failure>)
    ensures r == BuildInfoOf(buildResponse)
  {
    var info: BuildInfo := map[];
    for i := 0 to |buildResponse|
      invariant BuildInfoFrom(info, buildResponse[i..]) == BuildInfoOf(buildResponse)
    {
      var line := buildResponse[i];
      assert buildResponse[i..][1..] == buildResponse[i + 1..];
      if ':' !in line {
        continue;
      }
      var parts := SplitOn(line, ':');
      if |parts| != 2 {
        return Err(ValueError);
      }
      var key, valuesTsv := parts[0], parts[1];
      var values := SplitWhitespace(valuesTsv);
      info := info[key := values];
    }
    return Ok(info);
  }

  /** The decode fails, with ValueError, exactly when some line holds two or more colons. */
  lemma {:induction false} BuildInfoFails(info: BuildInfo, lines: seq<string>)
    ensures BuildInfoFrom(info, lines).Err? <==> exists i :: 0 <= i < |lines| && multiset(lines[i])[':'] >= 2
    ensures BuildInfoFrom(info, lines).Err? ==> BuildInfoFrom(info, lines).error == ValueError
    decreases |lines|
  {
    if lines != [] {
      ColonCount(lines[0]);
      match AddLine(info, lines[0])
      case Err(_) =>
      case Ok(next) =>
        BuildInfoFails(next, lines[1..]);
        if exists i :: 0 <= i < |lines| && multiset(lines[i])[':'] >= 2 {
          var i :| 0 <= i < |lines| && multiset(lines[i])[':'] >= 2;
          assert lines[1..][i - 1] == lines[i];
        }
        if exists i :: 0 <= i < |lines[1..]| && multiset(lines[1..][i])[':'] >= 2 {
          var i :| 0 <= i < |lines[1..]| && multiset(lines[1..][i])[':'] >= 2;
          assert lines[i + 1] == lines[1..][i];
        }
    }
  }

  /** Some line sets `key`. */
  predicate SetsKey(lines: seq<string>, key: string) {
    exists i :: 0 <= i < |lines| && IsEntry(lines[i]) && KeyOfLine(lines[i]) == key
  }

  /** The keys of the table are the keys of the entry lines. */
  lemma {:induction false} BuildInfoKeys(info: BuildInfo, lines: seq<string>, key: string)
    requires BuildInfoFrom(info, lines).Ok?
    ensures key in BuildInfoFrom(info, lines).value <==> key in info || SetsKey(lines, key)
    decreases |lines|
  {
    if lines != [] {
      var next := AddLine(info, lines[0]).value;
      BuildInfoKeys(next, lines[1..], key);
      if SetsKey(lines, key) {
        var i :| 0 <= i < |lines| && IsEntry(lines[i]) && KeyOfLine(lines[i]) == key;
        if i > 0 {
          assert lines[1..][i - 1] == lines[i];
        }
      }
      if SetsKey(lines[1..], key) {
        var i :| 0 <= i < |lines[1..]| && IsEntry(lines[1..][i]) && KeyOfLine(lines[1..][i]) == key;
        assert lines[i + 1] == lines[1..][i];
      }
    }
  }

  /** A key no line sets keeps the value it started with. */
  lemma {:induction false} BuildInfoUntouched(info: BuildInfo, lines: seq<string>, key: string)
    requires BuildInfoFrom(info, lines).Ok?
    requires key in info && !SetsKey(lines, key)
    ensures key in BuildInfoFrom(info, lines).value && BuildInfoFrom(info, lines).value[key] == info[key]
    decreases |lines|
  {
    if lines != [] {
      var next := AddLine(info, lines[0]).value;
      assert !IsEntry(lines[0]) || KeyOfLine(lines[0]) != key;
      assert !SetsKey(lines[1..], key) by {
        forall i | 0 <= i < |lines[1..]|
          ensures !(IsEntry(lines[1..][i]) && KeyOfLine(lines[1..][i]) == key)
        {
          assert lines[1..][i] == lines[i + 1];
        }
      }
      BuildInfoUntouched(next, lines[1..], key);
    }
  }

  /** The entry of a key is the values of the last line that sets it: later lines overwrite. */
  lemma {:induction false} BuildInfoLastWins(info: BuildInfo, lines: seq<string>, key: string, i: nat)
    requires BuildInfoFrom(info, lines).Ok?
    requires i < |lines| && IsEntry(lines[i]) && KeyOfLine(lines[i]) == key
    requires forall j :: i < j < |lines| ==> !(IsEntry(lines[j]) && KeyOfLine(lines[j]) == key)
    ensures key in BuildInfoFrom(info, lines).value
    ensures BuildInfoFrom(info, lines).value[key] == ValuesOfLine(lines[i])
    decreases |lines|
  {
    var next := AddLine(info, lines[0]).value;
    if i == 0 {
      assert !SetsKey(lines[1..], key) by {
        forall j | 0 <= j < |lines[1..]|
          ensures !(IsEntry(lines[1..][j]) && KeyOfLine(lines[1..][j]) == key)
        {
          assert lines[1..][j] == lines[j + 1];
        }
      }
      BuildInfoUntouched(next, lines[1..], key);
    } else {
      forall j | i - 1 < j < |lines[1..]|
        ensures !(IsEntry(lines[1..][j]) && KeyOfLine(lines[1..][j]) == key)
      {
        assert lines[1..][j] == lines[j + 1];
      }
      assert lines[1..][i - 1] == lines[i];
      BuildInfoLastWins(next, lines[1..], key, i - 1);
    }
  }

  function Min(a: nat, b: nat): nat { if a < b then a else b }

  /** How many axes `zip` yields: the length of the shortest of the four lists. */
  function AxisCount(labels: seq<string>, types: seq<string>, addrs: seq<string>, hexes: seq<string>): nat
  {
    Min(Min(|labels|, |types|), Min(|addrs|, |hexes|))
  }

  /**
   * How many type letters are looked up. `zip` draws from its arguments in
   * order, so the letter at the stopping position is still looked up when the
   * label and type lists both reach it.
   */
  function TypesLookedUp(labels: seq<string>, types: seq<string>, addrs: seq<string>, hexes: seq<string>): (m: nat)
    ensures m <= |types|
  {
    var n := AxisCount(labels, types, addrs, hexes);
    if n < |labels| && n < |types| then n + 1 else n
  }

  /** The comprehension over `zip(labels, map(Axis.Type, types), addrs, hexes)`, drawn one position at a time. */
  function ZipAxes(labels: seq<string>, types: seq<string>, addrs: seq<string>, hexes: seq<string>)
    : (r: Result<seq<AxisInfo>, Failure>)
    ensures r.Ok? <==> forall k :: 0 <= k < TypesLookedUp(labels, types, addrs, hexes) ==> TypeOf(types[k]).Ok?
    ensures r.Err? ==> r.error == ValueError
    ensures r.Ok? ==> |r.value| == AxisCount(labels, types, addrs, hexes)
    ensures r.Ok? ==> forall k :: 0 <= k < |r.value| ==>
      r.value[k] == AxisInfo(labels[k], TypeOf(types[k]).value, addrs[k], hexes[k])
  {
    if labels == [] || types == [] then Ok([])
    else
      match TypeOf(types[0])
      case Err(e) => Err(e)
      case Ok(t) =>
        if addrs == [] || hexes == [] then Ok([])
        else
          var rest := ZipAxes(labels[1..], types[1..], addrs[1..], hexes[1..]);
          assert forall k :: 1 <= k < |types| ==> types[1..][k - 1] == types[k];
          match rest
          case Err(e) => Err(e)
          case Ok(tail) => Ok([AxisInfo(labels[0], t, addrs[0], hexes[0])] + tail)
  }

  /** The keys `get_axes_from_build` reads, in the order it reads them. */
  const AXIS_KEYS: seq<string> := ["Motor Axes", "Axis Types", "Axis Addr", "Hex Addr"]

  predicate HasAxisKeys(info: BuildInfo) {
    "Motor Axes" in info && "Axis Types" in info && "Axis Addr" in info && "Hex Addr" in info
  }

  /** The first of the four keys that is missing: the one whose KeyError is raised. */
  function FirstMissingKey(info: BuildInfo): (key: string)
    requires !HasAxisKeys(info)
    ensures key !in info
    ensures exists k :: 0 <= k < |AXIS_KEYS| && AXIS_KEYS[k] == key && (forall j :: 0 <= j < k ==> AXIS_KEYS[j] in info)
  {
    if AXIS_KEYS[0] !in info then AXIS_KEYS[0]
    else if AXIS_KEYS[1] !in info then AXIS_KEYS[1]
    else if AXIS_KEYS[2] !in info then AXIS_KEYS[2]
    else AXIS_KEYS[3]
  }

  /**
   * `Axis.get_axes_from_build`: a colon error from the table first, then a
   * KeyError for the first missing key in the order the arguments of `zip` are
   * evaluated, then the zip itself.
   */
  function GetAxesFromBuild(buildResponse: seq<string>): (r: Result<seq<AxisInfo>, Failure>)
    ensures BuildInfoOf(buildResponse).Err? ==> r == Err(ValueError)
    ensures BuildInfoOf(buildResponse).Ok? && !HasAxisKeys(BuildInfoOf(buildResponse).value) ==>
      r == Err(KeyError(FirstMissingKey(BuildInfoOf(buildResponse).value)))
    ensures BuildInfoOf(buildResponse).Ok? && HasAxisKeys(BuildInfoOf(buildResponse).value) ==>
      var info := BuildInfoOf(buildResponse).value;
      r == ZipAxes(info["Motor Axes"], info["Axis Types"], info["Axis Addr"], info["Hex Addr"])
  {
    BuildInfoFails(map[], buildResponse);
    match BuildInfoOf(buildResponse)
    case Err(e) => Err(e)
    case Ok(info) =>
      if "Motor Axes" !in info then Err(KeyError("Motor Axes"))
      else if "Axis Types" !in info then Err(KeyError("Axis Types"))
      else if "Axis Addr" !in info then Err(KeyError("Axis Addr"))
      else if "Hex Addr" !in info then Err(KeyError("Hex Addr"))
      else ZipAxes(info["Motor Axes"], info["Axis Types"], info["Axis Addr"], info["Hex Addr"])
  }

  /** A line with one colon whose key holds none sets that key. */
  lemma ColonLine(key: string, rest: string)
    requires ':' !in key && ':' !in rest
    ensures IsEntry(key + ":" + rest) && KeyOfLine(key + ":" + rest) == key
    ensures SplitOn(key + ":" + rest, ':') == [key, rest]
  {
    var line := key + ":" + rest;
    assert Join([':'], [key, rest]) == line;
    SplitOnOfJoin([key, rest], ':');
    assert line[|key|] == ':';
  }

  /** The text after the colon of an entry line: a space, then the words separated by spaces. */
  lemma SpacedWords(words: seq<string>)
    requires |words| > 0 && forall k :: 0 <= k < |words| ==> IsWord(words[k])
    ensures SplitWhitespace(" " + Join(" ", words)) == words
  {
    WordsOfSpaced(words);
    SplitWhitespaceIsWords(" " + Join(" ", words));
  }

  /** A leading space adds no word to the space-joined words. */
  lemma WordsOfSpaced(words: seq<string>)
    requires forall k :: 0 <= k < |words| ==> IsWord(words[k])
    ensures Words(" " + Join(" ", words)) == words
  {
    var joined := Join(" ", words);
    var rest := " " + joined;
    WordsOfJoin(words);
    WordsAfterSpaces(rest, 1);
    assert rest[1..] == joined;
  }

  /** `key: w1 w2 ...` sets `key` to exactly the words. */
  lemma EntryLine(key: string, words: seq<string>)
    requires ':' !in key
    requires |words| > 0 && forall k :: 0 <= k < |words| ==> IsWord(words[k]) && ':' !in words[k]
    ensures IsEntry(key + ":" + (" " + Join(" ", words)))
    ensures KeyOfLine(key + ":" + (" " + Join(" ", words))) == key
    ensures ValuesOfLine(key + ":" + (" " + Join(" ", words))) == words
  {
    SpacedWords(words);
    JoinAvoids(" ", words, ':');
    ColonLine(key, " " + Join(" ", words));
  }

  /** The build report of the repository's test fixture. */
  const BUILD_EXAMPLE: seq<string> := [
    "TIGER_COMM",
    "Motor Axes: X Z S O L",
    "Axis Types: x z f o i",
    "Axis Addr: 1 2 2 3 7",
    "Hex Addr: 31 32 32 33 37",
    "Axis Props:  74   2   2   0   0",
    "SOME_EXTRA STUFF",
    "DOWN_HERE"]

  lemma MotorAxesLine()
    ensures IsEntry(BUILD_EXAMPLE[1]) && KeyOfLine(BUILD_EXAMPLE[1]) == "Motor Axes"
    ensures ValuesOfLine(BUILD_EXAMPLE[1]) == ["X", "Z", "S", "O", "L"]
  {
    var words := ["X", "Z", "S", "O", "L"];
    assert Join(" ", words) == "X Z S O L";
    assert BUILD_EXAMPLE[1] == "Motor Axes" + ":" + (" " + Join(" ", words));
    EntryLine("Motor Axes", words);
  }

  lemma AxisTypesLine()
    ensures IsEntry(BUILD_EXAMPLE[2]) && KeyOfLine(BUILD_EXAMPLE[2]) == "Axis Types"
    ensures ValuesOfLine(BUILD_EXAMPLE[2]) == ["x", "z", "f", "o", "i"]
  {
    var words := ["x", "z", "f", "o", "i"];
    assert Join(" ", words) == "x z f o i";
    assert BUILD_EXAMPLE[2] == "Axis Types" + ":" + (" " + Join(" ", words));
    EntryLine("Axis Types", words);
  }

  lemma AxisAddrLine()
    ensures IsEntry(BUILD_EXAMPLE[3]) && KeyOfLine(BUILD_EXAMPLE[3]) == "Axis Addr"
    ensures ValuesOfLine(BUILD_EXAMPLE[3]) == ["1", "2", "2", "3", "7"]
  {
    var words := ["1", "2", "2", "3", "7"];
    assert Join(" ", words) == "1 2 2 3 7";
    assert BUILD_EXAMPLE[3] == "Axis Addr" + ":" + (" " + Join(" ", words));
    EntryLine("Axis Addr", words);
  }

  lemma HexAddrLine()
    ensures IsEntry(BUILD_EXAMPLE[4]) && KeyOfLine(BUILD_EXAMPLE[4]) == "Hex Addr"
    ensures ValuesOfLine(BUILD_EXAMPLE[4]) == ["31", "32", "32", "33", "37"]
  {
    var words := ["31", "32", "32", "33", "37"];
    assert Join(" ", words[3..]) == "33 37";
    assert Join(" ", words[1..]) == "32 32 33 37";
    assert Join(" ", words) == "31 32 32 33 37";
    assert BUILD_EXAMPLE[4] == "Hex Addr" + ":" + (" " + Join(" ", words));
    EntryLine("Hex Addr", words);
  }

  lemma AxisPropsLine()
    ensures IsEntry(BUILD_EXAMPLE[5]) && KeyOfLine(BUILD_EXAMPLE[5]) == "Axis Props"
  {
    assert BUILD_EXAMPLE[5] == "Axis Props" + ":" + "  74   2   2   0   0";
    ColonLine("Axis Props", "  74   2   2   0   0");
  }

  /** A line with no colon is skipped. */
  lemma FoldSkip(info: BuildInfo, lines: seq<string>, i: nat)
    requires i < |lines| && ':' !in lines[i]
    ensures BuildInfoFrom(info, lines[i..]) == BuildInfoFrom(info, lines[i + 1..])
  {
    assert lines[i..][1..] == lines[i + 1..];
  }

  /** An entry line sets its key and the loop goes on. */
  lemma FoldEntry(info: BuildInfo, lines: seq<string>, i: nat)
    requires i < |lines| && IsEntry(lines[i])
    ensures BuildInfoFrom(info, lines[i..])
      == BuildInfoFrom(info[KeyOfLine(lines[i]) := ValuesOfLine(lines[i])], lines[i + 1..])
  {
    assert lines[i..][1..] == lines[i + 1..];
  }

  /** The shape of the fixture: a banner, five entry lines and two trailing lines without a colon. */
  lemma FixtureFold(lines: seq<string>)
    requires |lines| == 8
    requires ':' !in lines[0] && ':' !in lines[6] && ':' !in lines[7]
    requires IsEntry(lines[1]) && IsEntry(lines[2]) && IsEntry(lines[3]) && IsEntry(lines[4]) && IsEntry(lines[5])
    ensures BuildInfoOf(lines) == Ok(map[]
      [KeyOfLine(lines[1]) := ValuesOfLine(lines[1])]
      [KeyOfLine(lines[2]) := ValuesOfLine(lines[2])]
      [KeyOfLine(lines[3]) := ValuesOfLine(lines[3])]
      [KeyOfLine(lines[4]) := ValuesOfLine(lines[4])]
      [KeyOfLine(lines[5]) := ValuesOfLine(lines[5])])
  {
    var m0: BuildInfo := map[];
    var m1 := m0[KeyOfLine(lines[1]) := ValuesOfLine(lines[1])];
    var m2 := m1[KeyOfLine(lines[2]) := ValuesOfLine(lines[2])];
    var m3 := m2[KeyOfLine(lines[3]) := ValuesOfLine(lines[3])];
    var m4 := m3[KeyOfLine(lines[4]) := ValuesOfLine(lines[4])];
    var m5 := m4[KeyOfLine(lines[5]) := ValuesOfLine(lines[5])];
    assert lines[0..] == lines;
    FoldSkip(m0, lines, 0);
    FoldEntry(m0, lines, 1);
    FoldEntry(m1, lines, 2);
    FoldEntry(m2, lines, 3);
    FoldEntry(m3, lines, 4);
    FoldEntry(m4, lines, 5);
    FoldSkip(m5, lines, 6);
    FoldSkip(m5, lines, 7);
    assert lines[8..] == [];
  }

  /** Five updates of the empty table, in order. */
  function Updates(keys: seq<string>, values: seq<seq<string>>): BuildInfo
    requires |keys| == 5 && |values| == 5
  {
    map[][keys[0] := values[0]][keys[1] := values[1]][keys[2] := values[2]][keys[3] := values[3]][keys[4] := values[4]]
  }

  /** With distinct keys every update survives the later ones. */
  lemma UpdatesLookup(keys: seq<string>, values: seq<seq<string>>)
    requires |keys| == 5 && |values| == 5
    requires keys[0] != keys[1] && keys[0] != keys[2] && keys[0] != keys[3] && keys[0] != keys[4]
    requires keys[1] != keys[2] && keys[1] != keys[3] && keys[1] != keys[4]
    requires keys[2] != keys[3] && keys[2] != keys[4] && keys[3] != keys[4]
    ensures forall k :: 0 <= k < 5 ==> keys[k] in Updates(keys, values) && Updates(keys, values)[keys[k]] == values[k]
  {
  }

  /** The fixture's shape, with the entry lines' keys and values named. */
  lemma FixtureTable(lines: seq<string>, keys: seq<string>, values: seq<seq<string>>)
    requires |lines| == 8 && |keys| == 5 && |values| == 5
    requires ':' !in lines[0] && ':' !in lines[6] && ':' !in lines[7]
    requires IsEntry(lines[1]) && IsEntry(lines[2]) && IsEntry(lines[3]) && IsEntry(lines[4]) && IsEntry(lines[5])
    requires KeyOfLine(lines[1]) == keys[0] && ValuesOfLine(lines[1]) == values[0]
    requires KeyOfLine(lines[2]) == keys[1] && ValuesOfLine(lines[2]) == values[1]
    requires KeyOfLine(lines[3]) == keys[2] && ValuesOfLine(lines[3]) == values[2]
    requires KeyOfLine(lines[4]) == keys[3] && ValuesOfLine(lines[4]) == values[3]
    requires KeyOfLine(lines[5]) == keys[4] && ValuesOfLine(lines[5]) == values[4]
    ensures BuildInfoOf(lines) == Ok(Updates(keys, values))
  {
    FixtureFold(lines);
  }

  lemma BannerLines()
    ensures ':' !in BUILD_EXAMPLE[0] && ':' !in BUILD_EXAMPLE[6] && ':' !in BUILD_EXAMPLE[7]
  {
  }

  /** The later entry key differs from each of the four axis keys. */
  lemma FixtureKeysDistinct()
    ensures "Axis Props" != "Motor Axes" && "Axis Props" != "Axis Types" && "Axis Props" != "Axis Addr"
    ensures "Axis Props" != "Hex Addr"
    ensures "Hex Addr" != "Motor Axes" && "Hex Addr" != "Axis Types" && "Hex Addr" != "Axis Addr"
    ensures "Axis Addr" != "Motor Axes" && "Axis Addr" != "Axis Types" && "Axis Types" != "Motor Axes"
  {
    assert "Axis Props"[0] != "Motor Axes"[0] && "Axis Props"[5] != "Axis Types"[5];
    assert "Axis Types"[0] != "Motor Axes"[0];
  }

  /** The table the fixture decodes to: each of the four keys holds its line's words. */
  lemma BuildExampleInfo()
    ensures BuildInfoOf(BUILD_EXAMPLE).Ok?
    ensures var info := BuildInfoOf(BUILD_EXAMPLE).value;
      && HasAxisKeys(info)
      && info["Motor Axes"] == ["X", "Z", "S", "O", "L"]
      && info["Axis Types"] == ["x", "z", "f", "o", "i"]
      && info["Axis Addr"] == ["1", "2", "2", "3", "7"]
      && info["Hex Addr"] == ["31", "32", "32", "33", "37"]
  {
    BannerLines();
    MotorAxesLine();
    AxisTypesLine();
    AxisAddrLine();
    HexAddrLine();
    AxisPropsLine();
    FixtureKeysDistinct();
    var keys := ["Motor Axes", "Axis Types", "Axis Addr", "Hex Addr", "Axis Props"];
    var values := [["X", "Z", "S", "O", "L"], ["x", "z", "f", "o", "i"], ["1", "2", "2", "3", "7"],
                   ["31", "32", "32", "33", "37"], ValuesOfLine(BUILD_EXAMPLE[5])];
    FixtureTable(BUILD_EXAMPLE, keys, values);
    UpdatesLookup(keys, values);
    var info := Updates(keys, values);
    assert info[keys[0]] == values[0] && info[keys[1]] == values[1];
    assert info[keys[2]] == values[2] && info[keys[3]] == values[3];
  }

  /** Five positions of the zip whose letters all name a type. */
  lemma ZipOfFive(labels: seq<string>, types: seq<string>, addrs: seq<string>, hexes: seq<string>, ts: seq<AxisType>)
    requires |labels| == 5 && |types| == 5 && |addrs| == 5 && |hexes| == 5 && |ts| == 5
    requires TypeOf(types[0]) == Ok(ts[0]) && TypeOf(types[1]) == Ok(ts[1]) && TypeOf(types[2]) == Ok(ts[2])
    requires TypeOf(types[3]) == Ok(ts[3]) && TypeOf(types[4]) == Ok(ts[4])
    ensures ZipAxes(labels, types, addrs, hexes)
      == Ok([AxisInfo(labels[0], ts[0], addrs[0], hexes[0]), AxisInfo(labels[1], ts[1], addrs[1], hexes[1]),
             AxisInfo(labels[2], ts[2], addrs[2], hexes[2]), AxisInfo(labels[3], ts[3], addrs[3], hexes[3]),
             AxisInfo(labels[4], ts[4], addrs[4], hexes[4])])
  {
    var r := ZipAxes(labels, types, addrs, hexes);
    assert TypesLookedUp(labels, types, addrs, hexes) == 5;
    assert r.Ok? by {
      forall k | 0 <= k < 5
        ensures TypeOf(types[k]).Ok?
      {
        assert k == 0 || k == 1 || k == 2 || k == 3 || k == 4;
      }
    }
    var want := [AxisInfo(labels[0], ts[0], addrs[0], hexes[0]), AxisInfo(labels[1], ts[1], addrs[1], hexes[1]),
                 AxisInfo(labels[2], ts[2], addrs[2], hexes[2]), AxisInfo(labels[3], ts[3], addrs[3], hexes[3]),
                 AxisInfo(labels[4], ts[4], addrs[4], hexes[4])];
    assert |r.value| == 5;
    assert r.value[0] == want[0] && r.value[1] == want[1] && r.value[2] == want[2];
    assert r.value[3] == want[3] && r.value[4] == want[4];
    assert r.value == want;
  }

  /** The zip of the fixture's four lists. */
  lemma ZipExample()
    ensures ZipAxes(["X", "Z", "S", "O", "L"], ["x", "z", "f", "o", "i"], ["1", "2", "2", "3", "7"],
                    ["31", "32", "32", "33", "37"])
      == Ok([AxisInfo("X", XyMotor, "1", "31"), AxisInfo("Z", ZMotor, "2", "32"), AxisInfo("S", Slider, "2", "32"),
             AxisInfo("O", Turret, "3", "33"), AxisInfo("L", MultiLed, "7", "37")])
  {
    TypeExamples();
    ZipOfFive(["X", "Z", "S", "O", "L"], ["x", "z", "f", "o", "i"], ["1", "2", "2", "3", "7"],
              ["31", "32", "32", "33", "37"], [XyMotor, ZMotor, Slider, Turret, MultiLed]);
  }

  /** The five axes of the fixture, position by position, as the repository's tests list them. */
  lemma BuildExampleAxes()
    ensures GetAxesFromBuild(BUILD_EXAMPLE)
      == Ok([AxisInfo("X", XyMotor, "1", "31"), AxisInfo("Z", ZMotor, "2", "32"), AxisInfo("S", Slider, "2", "32"),
             AxisInfo("O", Turret, "3", "33"), AxisInfo("L", MultiLed, "7", "37")])
  {
    BuildExampleInfo();
    ZipExample();
  }
}
