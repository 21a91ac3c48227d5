/**
 * The Tiger controller session: each call sends one command line, reads one
 * reply line, raises when the reply reports a device error, and parses what
 * it gets back.
 */
module Controller {
  import opened Wrappers
  import opened Text
  import opened Errors
  import Cmd = Command
  import St = Status
  import opened Axis
  import opened Connection

  /** `TigerController.DEFAULT_POLL_INTERVAL_S`. */
  const DEFAULT_POLL_INTERVAL: real := 0.01

  // ---------------------------------------------------------------------------
  // One round trip

  /** What `send_command` makes of a reply: the reply itself, or the device error it reports. */
  function Reply(command: string, response: string): (r: Result<string, Failure>)
    ensures r.Ok? <==> !HasSentinel(response)
    ensures r.Ok? ==> r.value == response
    ensures r.Err? ==> r.error == Device(Classify(response).value, FailureMessage(command, response))
  {
    match RaiseErrorIfPresent(command, response)
    case None => Ok(response)
    case Some(failure) => Err(failure)
  }

  /** The replies the repository's tests pin: a plain reply comes back unchanged, `:N-2` raises. */
  lemma ReplyExamples()
    ensures Reply("command", "response") == Ok("response")
    ensures Reply("Nice", ":N-2").Err? && Reply("Nice", ":N-2").error.kind == UnrecognizedAxisParameter
  {
    NoColonNoSentinel("response");
    ClassifyTestReplies();
  }

  /** `Status(reply)` after the round trip for `/`. */
  function StatusOfReply(response: string): (r: Result<St.Status, Failure>)
    ensures r.Ok? <==> response == "N" || response == "B"
    ensures r.Ok? ==> St.StatusValue(r.value) == response
  {
    match Reply(Cmd.STATUS, response)
    case Err(e) => Err(e)
    case Ok(s) => St.StatusOfValue(s)
  }

  /** `is_busy` for one reply: `self.status() is Status.BUSY`. */
  function BusyOfReply(response: string): (r: Result<bool, Failure>)
    ensures r == Ok(true) <==> response == "B"
    ensures r == Ok(false) <==> response == "N"
  {
    match StatusOfReply(response)
    case Err(e) => Err(e)
    case Ok(s) => Ok(s == St.Busy)
  }

  /** A reply other than `N` and `B` fails: with the device error it reports, else with ValueError. */
  lemma BusyOfReplyFails(response: string)
    requires response != "N" && response != "B"
    ensures BusyOfReply(response).Err?
    ensures HasSentinel(response) ==> BusyOfReply(response).error.Device?
    ensures !HasSentinel(response) ==> BusyOfReply(response).error == ValueError
  {
  }

  /** How many reply lines in a row, from the first, read as `B`. */
  function BusyRun(replies: seq<string>): (n: nat)
    ensures n <= |replies|
  {
    if replies != [] && replies[0] == "B" then 1 + BusyRun(replies[1..]) else 0
  }

  /** The busy run is exactly the leading `B` replies: every one before it is `B` and the next is not. */
  lemma {:induction false} BusyRunIsLeadingBusy(replies: seq<string>)
    ensures forall j :: 0 <= j < BusyRun(replies) ==> NextReply(Drop(replies, j)) == "B"
    ensures NextReply(Drop(replies, BusyRun(replies))) != "B"
  {
    if replies != [] && replies[0] == "B" {
      BusyRunIsLeadingBusy(replies[1..]);
      forall j | 0 <= j < BusyRun(replies)
        ensures NextReply(Drop(replies, j)) == "B"
      {
        if j > 0 {
          assert Drop(replies, j) == Drop(replies[1..], j - 1);
        }
      }
      assert Drop(replies, BusyRun(replies)) == Drop(replies[1..], BusyRun(replies[1..]));
    }
  }

  /** One poll more: a `B` reply extends the run by one, any other reply ends it. */
  lemma BusyRunStep(replies: seq<string>, k: nat)
    ensures NextReply(Drop(replies, k)) == "B" ==> BusyRun(Drop(replies, k)) == 1 + BusyRun(Drop(replies, k + 1))
    ensures NextReply(Drop(replies, k)) != "B" ==> BusyRun(Drop(replies, k)) == 0
  {
    DropNext(replies, k);
  }

  /** A busy poll reads a scripted line: the run goes on from the next one. */
  lemma PollWhileBusy(replies: seq<string>, k: nat)
    requires BusyOfReply(NextReply(Drop(replies, k))) == Ok(true)
    ensures k < |replies|
    ensures BusyRun(Drop(replies, k)) == 1 + BusyRun(Drop(replies, k + 1))
    ensures Drop(replies, k + 2) == Rest(Drop(replies, k + 1))
  {
    BusyRunStep(replies, k);
    DropNext(replies, k + 1);
  }

  /** A poll that is not busy after `k` busy ones ends the run, and the wait with it. */
  lemma PollWhenIdle(replies: seq<string>, k: nat)
    requires BusyOfReply(NextReply(Drop(replies, k))) != Ok(true)
    requires BusyRun(replies) == k + BusyRun(Drop(replies, k))
    ensures BusyRun(replies) == k
    ensures WaitOutcome(replies) == Settle(BusyOfReply(NextReply(Drop(replies, k))))
  {
    BusyRunStep(replies, k);
  }

  /** The state the wait loop leaves, once a poll is not busy, is the one `wait_until_idle` promises. */
  lemma WaitEnds(script: seq<string>, k: nat, busy: Result<bool, Failure>, log0: seq<string>, log: seq<string>,
                 replies: seq<string>, naps: seq<real>, interval: real)
    requires busy == BusyOfReply(NextReply(Drop(script, k))) && busy != Ok(true)
    requires BusyRun(script) == k + BusyRun(Drop(script, k))
    requires log == log0 + Repeat(Cmd.STATUS, k + 1)
    requires replies == Drop(script, k + 1)
    requires naps == Repeat(interval, k)
    ensures log == log0 + Repeat(Cmd.STATUS, BusyRun(script) + 1)
    ensures replies == Drop(script, BusyRun(script) + 1)
    ensures naps == Repeat(interval, BusyRun(script))
    ensures Settle(busy) == WaitOutcome(script)
  {
    PollWhenIdle(script, k);
  }

  /** `poll_interval_s if poll_interval_s else self.poll_interval_s`: None and 0.0 are falsy. */
  function EffectiveInterval(pollIntervalOverride: Option<real>, field: real): (interval: real)
    ensures pollIntervalOverride == None ==> interval == field
    ensures pollIntervalOverride == Some(0.0) ==> interval == field
    ensures pollIntervalOverride.Some? && pollIntervalOverride.value != 0.0 ==> interval == pollIntervalOverride.value
  {
    if pollIntervalOverride.Some? && pollIntervalOverride.value != 0.0 then pollIntervalOverride.value else field
  }

  /** What `wait_until_idle` ends with: the reply to the first poll that is not busy. */
  function WaitOutcome(replies: seq<string>): Result<(), Failure>
  {
    Settle(BusyOfReply(NextReply(Drop(replies, BusyRun(replies)))))
  }

  /** The last poll's status, less the answer: the wait returns nothing or raises. */
  function Settle(busy: Result<bool, Failure>): Result<(), Failure>
  {
    match busy
    case Err(e) => Err(e)
    case Ok(_) => Ok(())
  }

  /** The wait returns normally exactly when the busy run ends with an `N` reply. */
  lemma WaitOutcomeIsIdle(replies: seq<string>)
    ensures WaitOutcome(replies).Ok? <==> NextReply(Drop(replies, BusyRun(replies))) == "N"
    ensures WaitOutcome(replies).Err? ==> WaitOutcome(replies).error == BusyOfReply(NextReply(Drop(replies, BusyRun(replies)))).error
  {
    BusyRunIsLeadingBusy(replies);
  }

  /** An exhausted script ends every wait: the empty reply is not a status. */
  lemma WaitEndsOnExhaustedScript(replies: seq<string>)
    requires forall j :: 0 <= j < |replies| ==> replies[j] == "B"
    ensures BusyRun(replies) == |replies|
    ensures WaitOutcome(replies) == Err(ValueError)
  {
    BusyRunIsLeadingBusy(replies);
    NoColonNoSentinel("");
  }

  // ---------------------------------------------------------------------------
  // Commands of the round trips

  /** `Command.format(f"{Command.BUILD} X", card_address=...)`. */
  function BuildCommand(cardAddress: Option<int>): string
  {
    Cmd.Format(Cmd.BUILD + " X", [], [], cardAddress)
  }

  /** `BU X`, with a truthy card address in front in decimal. */
  lemma BuildCommandShape(cardAddress: Option<int>)
    ensures cardAddress == None || cardAddress == Some(0) ==> BuildCommand(cardAddress) == "BU X"
    ensures cardAddress.Some? && cardAddress.value != 0 ==> BuildCommand(cardAddress) == IntToString(cardAddress.value) + "BU X"
  {
  }

  /** `f"{verb} {' '.join(axes)}"`, the shape of `home`, `rdstat` and `where`. */
  function AxesCommand(verb: string, axes: seq<string>): (command: string)
    ensures |command| > |verb| && command[..|verb|] == verb && command[|verb|] == ' '
    ensures command[|verb| + 1..] == Join(" ", axes)
  {
    verb + " " + Join(" ", axes)
  }

  /** The axes of an axes command come back from a split at spaces when no axis holds one. */
  lemma AxesCommandSplits(verb: string, axes: seq<string>)
    requires ' ' !in verb && |axes| > 0
    requires forall k :: 0 <= k < |axes| ==> ' ' !in axes[k]
    ensures SplitOn(AxesCommand(verb, axes), ' ') == [verb] + axes
  {
    assert AxesCommand(verb, axes) == Join(" ", [verb] + axes);
    SplitOnOfJoin([verb] + axes, ' ');
  }

  /** A successful reply, then a parse of it. */
  function Then<T>(reply: Result<string, Failure>, parse: string -> Result<T, Failure>): Result<T, Failure>
  {
    match reply
    case Err(e) => Err(e)
    case Ok(response) => parse(response)
  }

  /** `response.split("\r")`, the lines of `build` and `who`. */
  function LinesOf(response: string): Result<seq<string>, Failure>
  {
    Ok(SplitOn(response, '\r'))
  }

  // ---------------------------------------------------------------------------
  // The pure reply parsers

  /** What `_cast_number` makes of a coordinate: an int when `int()` accepts it; the float branch is not modelled. */
  datatype Number = IntNumber(n: int) | FloatText(text: string)

  /** `_cast_number`: `int(s)`, and on ValueError the text is left to `float()`. */
  function CastNumber(s: string): (r: Number)
    ensures r.IntNumber? <==> ParseInt(s).Some?
    ensures r.IntNumber? ==> r.n == ParseInt(s).value
    ensures r.FloatText? ==> r.text == s
  {
    match ParseInt(s)
    case Some(n) => IntNumber(n)
    case None => FloatText(s)
  }

  /** The decimal text of an int casts back to it. */
  lemma CastNumberOfInt(n: int)
    ensures CastNumber(IntToString(n)) == IntNumber(n)
  {
    ParseIntOfIntToString(n);
  }

  /** `zip(axes, coordinates)`: the pairs up to the end of the shorter list. */
  function Zip(axes: seq<string>, coordinates: seq<string>): (pairs: seq<(string, string)>)
    ensures |pairs| == Min(|axes|, |coordinates|)
    ensures forall k :: 0 <= k < |pairs| ==> pairs[k] == (axes[k], coordinates[k])
  {
    seq(Min(|axes|, |coordinates|), k requires 0 <= k < Min(|axes|, |coordinates|) => (axes[k], coordinates[k]))
  }

  /** The reply's coordinates: `response.split(" ")[1:]`. */
  function CoordinatesOf(response: string): seq<string>
  {
    SplitOn(response, ' ')[1..]
  }

  /** What `where` returns for a reply. */
  function WhereOfReply(axes: seq<string>, response: string): map<string, Number>
  {
    var pairs := Zip(axes, CoordinatesOf(response));
    DictOfPairs(pairs, CastNumber, |pairs|)
  }

  /** The decimal texts of ints. */
  function IntTexts(values: seq<int>): (texts: seq<string>)
    ensures |texts| == |values| && forall k :: 0 <= k < |values| ==> texts[k] == IntToString(values[k])
  {
    seq(|values|, k requires 0 <= k < |values| => IntToString(values[k]))
  }

  /**
   * `where` inverts the reply the device writes back: a marker, then one
   * decimal coordinate per axis, separated by single spaces.
   */
  lemma WhereRoundTrip(marker: string, axes: seq<string>, values: seq<int>)
    requires ' ' !in marker
    requires |values| == |axes| > 0
    requires forall j, k :: 0 <= j < k < |axes| ==> axes[j] != axes[k]
    ensures var result := WhereOfReply(axes, marker + " " + Join(" ", IntTexts(values)));
      && (forall key :: key in result <==> key in axes)
      && (forall k :: 0 <= k < |axes| ==> result[axes[k]] == IntNumber(values[k]))
  {
    var texts := IntTexts(values);
    CoordinatesOfIntReply(marker, values);
    DictOfDistinctPairs(axes, texts, CastNumber);
    forall k | 0 <= k < |axes|
      ensures CastNumber(texts[k]) == IntNumber(values[k])
    {
      CastNumberOfInt(values[k]);
    }
  }

  /** The coordinates of a reply holding a marker and the decimal texts of ints are those texts. */
  lemma CoordinatesOfIntReply(marker: string, values: seq<int>)
    requires ' ' !in marker
    requires |values| > 0
    ensures CoordinatesOf(marker + " " + Join(" ", IntTexts(values))) == IntTexts(values)
  {
    var texts := IntTexts(values);
    var all := [marker] + texts;
    assert marker + " " + Join(" ", texts) == Join(" ", all);
    forall k | 0 <= k < |all|
      ensures ' ' !in all[k]
    {
      if k > 0 {
        var t := IntToString(values[k - 1]);
        assert all[k] == t;
        assert forall i :: 0 <= i < |t| ==> t[i] != ' ';
      }
    }
    SplitOnOfJoin(all, ' ');
  }

  /** The key and value of one `key=value` token; a token with no `=` or several cannot be unpacked. */
  function PairOf(token: string): (r: Result<(string, string), Failure>)
    ensures r.Ok? <==> multiset(token)['='] == 1
    ensures r.Err? ==> r.error == ValueError
    ensures r.Ok? ==> token == r.value.0 + "=" + r.value.1 && '=' !in r.value.0 && '=' !in r.value.1
  {
    SplitOnLength(token, '=');
    var parts := SplitOn(token, '=');
    if |parts| == 2 then
      JoinOfSplitOn(token, '=');
      assert Join(['='], parts) == parts[0] + "=" + parts[1];
      Ok((parts[0], parts[1]))
    else Err(ValueError)
  }

  /** The tokens `_dict_from_response` maps: the reply split at whitespace runs, first token dropped. */
  function DictTokens(response: string): seq<string>
  {
    SplitWhitespace(response)[1..]
  }

  /** `map(lambda pair: pair.split("="), tokens)` unpacked: the first token that is not a pair raises. */
  function PairsOf(tokens: seq<string>): (r: Result<seq<(string, string)>, Failure>)
    ensures r.Ok? <==> forall k :: 0 <= k < |tokens| ==> PairOf(tokens[k]).Ok?
    ensures r.Err? ==> r.error == ValueError
    ensures r.Ok? ==> |r.value| == |tokens|
    ensures r.Ok? ==> forall k :: 0 <= k < |tokens| ==> PairOf(tokens[k]) == Ok(r.value[k])
  {
    if tokens == [] then Ok([])
    else
      match PairOf(tokens[0])
      case Err(e) => Err(e)
      case Ok(first) =>
        match PairsOf(tokens[1..])
        case Err(e) => Err(e)
        case Ok(rest) => Ok([first] + rest)
  }

  /** The dict comprehension over the first `n` pairs; the cast is applied to every value. */
  function DictOfPairs<T>(pairs: seq<(string, string)>, cast: string -> T, n: nat): map<string, T>
    requires n <= |pairs|
  {
    if n == 0 then map[] else DictOfPairs(pairs, cast, n - 1)[pairs[n - 1].0 := cast(pairs[n - 1].1)]
  }

  /**
   * `_dict_from_response(serial_response, cast_values_to=cast)`. The cast is
   * total here, so evaluating it between the unpackings, as the comprehension
   * does, changes nothing.
   */
  function DictFromResponse<T>(response: string, cast: string -> T): Result<map<string, T>, Failure>
  {
    match PairsOf(DictTokens(response))
    case Err(e) => Err(e)
    case Ok(pairs) => Ok(DictOfPairs(pairs, cast, |pairs|))
  }

  /** `_dict_from_response` with no cast: the values stay strings. */
  function DictOfStrings(response: string): Result<map<string, string>, Failure>
  {
    DictFromResponse(response, (s: string) => s)
  }

  /** The key set holds exactly the pairs' keys. */
  lemma {:induction false} DictOfPairsKeys<T>(pairs: seq<(string, string)>, cast: string -> T, n: nat, key: string)
    requires n <= |pairs|
    ensures key in DictOfPairs(pairs, cast, n) <==> exists k :: 0 <= k < n && pairs[k].0 == key
  {
    if n > 0 {
      DictOfPairsKeys(pairs, cast, n - 1, key);
      if key != pairs[n - 1].0 && exists k :: 0 <= k < n && pairs[k].0 == key {
        var k :| 0 <= k < n && pairs[k].0 == key;
        assert k < n - 1;
      }
    }
  }

  /** A key holds the cast value of its last pair: a later duplicate overwrites. */
  lemma {:induction false} DictOfPairsLastWins<T>(pairs: seq<(string, string)>, cast: string -> T, n: nat, k: nat)
    requires n <= |pairs| && k < n
    requires forall j :: k < j < n ==> pairs[j].0 != pairs[k].0
    ensures pairs[k].0 in DictOfPairs(pairs, cast, n)
    ensures DictOfPairs(pairs, cast, n)[pairs[k].0] == cast(pairs[k].1)
  {
    if k < n - 1 {
      DictOfPairsLastWins(pairs, cast, n - 1, k);
    }
  }

  /** A `key=value` token with no other `=` unpacks into its key and value. */
  lemma PairOfAssignment(key: string, value: string)
    requires '=' !in key && '=' !in value
    ensures PairOf(key + "=" + value) == Ok((key, value))
  {
    assert Join(['='], [key, value]) == key + "=" + value;
    SplitOnOfJoin([key, value], '=');
  }

  /** The `key=value` tokens of a reply. */
  function Assignments(keys: seq<string>, values: seq<string>): (tokens: seq<string>)
    requires |keys| == |values|
    ensures |tokens| == |keys| && forall k :: 0 <= k < |keys| ==> tokens[k] == keys[k] + "=" + values[k]
  {
    seq(|keys|, k requires 0 <= k < |keys| => keys[k] + "=" + values[k])
  }

  /** An assignment token of a key and a value without whitespace is a word. */
  lemma AssignmentIsWord(key: string, value: string)
    requires NoSpace(key) && NoSpace(value)
    ensures IsWord(key + "=" + value)
  {
    var t := key + "=" + value;
    forall i | 0 <= i < |t|
      ensures !IsSpace(t[i])
    {
      if i < |key| {
        assert t[i] == key[i];
      } else if i > |key| {
        assert t[i] == value[i - |key| - 1];
      }
    }
  }

  /** The tokens after the marker are the assignments. */
  lemma DictTokensOfReply(marker: string, keys: seq<string>, values: seq<string>)
    requires IsWord(marker)
    requires |keys| == |values|
    requires forall k :: 0 <= k < |keys| ==> NoSpace(keys[k]) && NoSpace(values[k])
    ensures DictTokens(marker + " " + Join(" ", Assignments(keys, values))) == Assignments(keys, values)
  {
    var tokens := Assignments(keys, values);
    var response := marker + " " + Join(" ", tokens);
    var all := [marker] + tokens;
    if tokens == [] {
      assert Join(" ", tokens) == "";
      assert response == Join(" ", [marker]) + " ";
      assert Words(response) == [marker] by {
        WordsOfWordThen(marker, " ");
        assert Words(" ") == Words("") by {
          WordsAfterSpaces(" ", 1);
        }
      }
    } else {
      assert response == Join(" ", all);
      forall k | 0 <= k < |all|
        ensures IsWord(all[k])
      {
        if k > 0 {
          AssignmentIsWord(keys[k - 1], values[k - 1]);
        }
      }
      WordsOfJoin(all);
    }
    SplitWhitespaceIsWords(response);
  }

  /** Every assignment unpacks, in order. */
  lemma PairsOfAssignments(keys: seq<string>, values: seq<string>)
    requires |keys| == |values|
    requires forall k :: 0 <= k < |keys| ==> '=' !in keys[k] && '=' !in values[k]
    ensures PairsOf(Assignments(keys, values)) == Ok(Zip(keys, values))
  {
    var tokens := Assignments(keys, values);
    var pairs := Zip(keys, values);
    forall k | 0 <= k < |tokens|
      ensures PairOf(tokens[k]) == Ok(pairs[k])
    {
      PairOfAssignment(keys[k], values[k]);
    }
    var r := PairsOf(tokens);
    assert r.Ok?;
    assert |r.value| == |pairs|;
    assert forall k :: 0 <= k < |pairs| ==> r.value[k] == pairs[k];
    assert r.value == pairs;
  }

  /** With distinct keys, every key maps to the cast of its own value and there are no other keys. */
  lemma DictOfDistinctPairs<T>(keys: seq<string>, values: seq<string>, cast: string -> T)
    requires |keys| == |values|
    requires forall j, k :: 0 <= j < k < |keys| ==> keys[j] != keys[k]
    ensures var result := DictOfPairs(Zip(keys, values), cast, |keys|);
      && (forall key :: key in result <==> key in keys)
      && (forall k :: 0 <= k < |keys| ==> result[keys[k]] == cast(values[k]))
  {
    var pairs := Zip(keys, values);
    var result := DictOfPairs(pairs, cast, |keys|);
    forall key
      ensures key in result <==> key in keys
    {
      DictOfPairsKeys(pairs, cast, |pairs|, key);
      if key in keys {
        var k :| 0 <= k < |keys| && keys[k] == key;
        assert pairs[k].0 == key;
      }
    }
    forall k | 0 <= k < |keys|
      ensures result[keys[k]] == cast(values[k])
    {
      DictOfPairsLastWins(pairs, cast, |pairs|, k);
    }
  }

  /**
   * `_dict_from_response` inverts the reply the device writes back: a marker,
   * then `key=value` tokens separated by spaces; each distinct key maps to its
   * cast value, and there are no other keys.
   */
  lemma DictRoundTrip<T>(marker: string, keys: seq<string>, values: seq<string>, cast: string -> T)
    requires IsWord(marker)
    requires |keys| == |values|
    requires forall j, k :: 0 <= j < k < |keys| ==> keys[j] != keys[k]
    requires forall k :: 0 <= k < |keys| ==> '=' !in keys[k] && NoSpace(keys[k])
    requires forall k :: 0 <= k < |keys| ==> '=' !in values[k] && NoSpace(values[k])
    ensures var r := DictFromResponse(marker + " " + Join(" ", Assignments(keys, values)), cast);
      && r.Ok?
      && (forall key :: key in r.value <==> key in keys)
      && (forall k :: 0 <= k < |keys| ==> r.value[keys[k]] == cast(values[k]))
  {
    DictTokensOfReply(marker, keys, values);
    PairsOfAssignments(keys, values);
    DictOfDistinctPairs(keys, values, cast);
  }

  /** The parse fails, with ValueError, exactly when a token after the first does not hold exactly one `=`. */
  lemma DictFromResponseFails<T>(response: string, cast: string -> T)
    ensures var tokens := DictTokens(response);
      DictFromResponse(response, cast).Err? <==> exists k :: 0 <= k < |tokens| && multiset(tokens[k])['='] != 1
    ensures DictFromResponse(response, cast).Err? ==> DictFromResponse(response, cast).error == ValueError
  {
  }

  /** Three distinct keys after a marker, each mapped to the cast of its own value. */
  lemma DictOfThree<T>(marker: string, k1: string, v1: string, k2: string, v2: string, k3: string, v3: string,
                       cast: string -> T)
    requires IsWord(marker)
    requires k1 != k2 && k1 != k3 && k2 != k3
    requires '=' !in k1 && '=' !in k2 && '=' !in k3 && NoSpace(k1) && NoSpace(k2) && NoSpace(k3)
    requires '=' !in v1 && '=' !in v2 && '=' !in v3 && NoSpace(v1) && NoSpace(v2) && NoSpace(v3)
    ensures DictFromResponse(marker + " " + Join(" ", [k1 + "=" + v1, k2 + "=" + v2, k3 + "=" + v3]), cast)
      == Ok(map[k1 := cast(v1), k2 := cast(v2), k3 := cast(v3)])
  {
    var keys, values := [k1, k2, k3], [v1, v2, v3];
    ThreeAssignments(k1, v1, k2, v2, k3, v3);
    assert forall j, k :: 0 <= j < k < |keys| ==> keys[j] != keys[k];
    assert forall k :: 0 <= k < |keys| ==> '=' !in keys[k] && NoSpace(keys[k]);
    assert forall k :: 0 <= k < |values| ==> '=' !in values[k] && NoSpace(values[k]);
    DictRoundTrip(marker, keys, values, cast);
    var r := DictFromResponse(marker + " " + Join(" ", Assignments(keys, values)), cast).value;
    ThreeKeyMap(r, keys, values, cast);
  }

  /** The assignments of three pairs. */
  lemma ThreeAssignments(k1: string, v1: string, k2: string, v2: string, k3: string, v3: string)
    ensures Assignments([k1, k2, k3], [v1, v2, v3]) == [k1 + "=" + v1, k2 + "=" + v2, k3 + "=" + v3]
  {
  }

  /** A map whose keys are exactly three distinct given ones is fixed by its values at them. */
  lemma ThreeKeyMap<T>(r: map<string, T>, keys: seq<string>, values: seq<string>, cast: string -> T)
    requires |keys| == 3 && |values| == 3
    requires forall j, k :: 0 <= j < k < |keys| ==> keys[j] != keys[k]
    requires forall key :: key in r <==> key in keys
    requires forall k :: 0 <= k < |keys| ==> r[keys[k]] == cast(values[k])
    ensures r == map[keys[0] := cast(values[0]), keys[1] := cast(values[1]), keys[2] := cast(values[2])]
  {
    var want := map[keys[0] := cast(values[0]), keys[1] := cast(values[1]), keys[2] := cast(values[2])];
    forall key
      ensures key in r <==> key in want
    {
      assert key in keys <==> key == keys[0] || key == keys[1] || key == keys[2];
    }
    assert r[keys[0]] == want[keys[0]] && r[keys[1]] == want[keys[1]] && r[keys[2]] == want[keys[2]];
    MapsAgree(r, want);
  }

  /** Two maps with the same keys and the same value at every key are equal. */
  lemma MapsAgree<K, V>(a: map<K, V>, b: map<K, V>)
    requires forall key :: key in a <==> key in b
    requires forall key :: key in a ==> a[key] == b[key]
    ensures a == b
  {
  }

  /** The reply the repository's tests pin: an empty value stays an empty string. */
  lemma DictExample()
    ensures DictOfStrings(":A X=a Y= Z=3") == Ok(map["X" := "a", "Y" := "", "Z" := "3"])
  {
    ExampleDictWords();
    ExampleDictReply();
    DictOfThree(":A", "X", "a", "Y", "", "Z", "3", (s: string) => s);
  }

  /** The marker, keys and values of the example reply are single words. */
  lemma ExampleDictWords()
    ensures IsWord(":A")
    ensures NoSpace("X") && NoSpace("Y") && NoSpace("Z") && NoSpace("a") && NoSpace("") && NoSpace("3")
    ensures '=' !in "X" && '=' !in "Y" && '=' !in "Z" && '=' !in "a" && '=' !in "3"
  {
  }

  /** The example reply is the marker followed by the three assignments. */
  lemma ExampleDictReply()
    ensures ":A" + " " + Join(" ", ["X" + "=" + "a", "Y" + "=" + "", "Z" + "=" + "3"]) == ":A X=a Y= Z=3"
  {
    assert "X" + "=" + "a" == "X=a" && "Y" + "=" + "" == "Y=" && "Z" + "=" + "3" == "Z=3";
    assert ["X" + "=" + "a", "Y" + "=" + "", "Z" + "=" + "3"] == ["X=a", "Y=", "Z=3"];
    assert Join(" ", ["X=a", "Y=", "Z=3"]) == "X=a Y= Z=3";
  }

  // ---------------------------------------------------------------------------
  // The session

  /** `axes`: the build listing's lines, then the axis table read from them. */
  function AxesOfLines(lines: seq<string>): Result<seq<AxisInfo>, Failure>
  {
    GetAxesFromBuild(lines)
  }

  /** What `where` returns for a reply that may report a device error. */
  function WhereOfResult(axes: seq<string>, reply: Result<string, Failure>): (r: Result<map<string, Number>, Failure>)
    ensures reply.Err? ==> r == Err(reply.error)
    ensures reply.Ok? ==> r == Ok(WhereOfReply(axes, reply.value))
  {
    match reply
    case Err(e) => Err(e)
    case Ok(response) => Ok(WhereOfReply(axes, response))
  }

  /**
   * `TigerController`: every call is one command sent and one reply read on
   * the connection, except `wait_until_idle`, which polls the status until
   * the controller stops reporting busy.
   */
  class TigerController {
    const connection: ScriptedConnection
    /** `poll_interval_s`, the nap between two status polls. */
    var pollInterval: real

    constructor(connection: ScriptedConnection, pollInterval: real)
      ensures this.connection == connection && this.pollInterval == pollInterval
    {
      this.connection := connection;
      this.pollInterval := pollInterval;
    }

    /** `send_command`: the command goes out, one reply comes back, and a device error in it is raised. */
    method SendCommand(command: string) returns (r: Result<string, Failure>)
      modifies connection
      ensures connection.sent == old(connection.sent) + [command]
      ensures connection.replies == Rest(old(connection.replies))
      ensures r == Reply(command, NextReply(old(connection.replies)))
    {
      connection.SendCommand(command);
      var response := connection.ReadResponse();
      match RaiseErrorIfPresent(command, response) {
        case None => r := Ok(response);
        case Some(failure) => r := Err(failure);
      }
    }

    /** `status`: `/`, and the reply read as a status. */
    method Status() returns (r: Result<St.Status, Failure>)
      modifies connection
      ensures connection.sent == old(connection.sent) + [Cmd.STATUS]
      ensures connection.replies == Rest(old(connection.replies))
      ensures r == StatusOfReply(NextReply(old(connection.replies)))
    {
      var reply := SendCommand(Cmd.STATUS);
      match reply {
        case Err(e) => r := Err(e);
        case Ok(response) => r := St.StatusOfValue(response);
      }
    }

    /** `is_busy`. */
    method IsBusy() returns (r: Result<bool, Failure>)
      modifies connection
      ensures connection.sent == old(connection.sent) + [Cmd.STATUS]
      ensures connection.replies == Rest(old(connection.replies))
      ensures r == BusyOfReply(NextReply(old(connection.replies)))
    {
      var status := Status();
      match status {
        case Err(e) => r := Err(e);
        case Ok(s) => r := Ok(s == St.Busy);
      }
    }

    /**
     * `wait_until_idle`: poll, and nap between polls, for as long as the
     * replies say busy. It sends one poll per leading `B` reply and one more,
     * and ends with what the first other reply means. `naps` lists the
     * `time.sleep` calls in order: one per `B`, each of the effective interval.
     */
    method WaitUntilIdle(pollIntervalOverride: Option<real>) returns (r: Result<(), Failure>, naps: seq<real>)
      modifies connection
      ensures connection.sent == old(connection.sent) + Repeat(Cmd.STATUS, BusyRun(old(connection.replies)) + 1)
      ensures connection.replies == Drop(old(connection.replies), BusyRun(old(connection.replies)) + 1)
      ensures naps == Repeat(EffectiveInterval(pollIntervalOverride, pollInterval), BusyRun(old(connection.replies)))
      ensures r == WaitOutcome(old(connection.replies))
    {
      var interval := EffectiveInterval(pollIntervalOverride, pollInterval);
      ghost var script := connection.replies;
      var busy;
      ghost var k;
      busy, naps, k := PollUntilIdle(script, interval);
      r := Settle(busy);
      WaitEnds(script, k, busy, old(connection.sent), connection.sent, connection.replies, naps, interval);
    }

    /**
     * The loop of `wait_until_idle`: poll, and nap while the reply is busy. It
     * stops after `k` busy replies, at the first poll that is not busy.
     */
    method PollUntilIdle(ghost script: seq<string>, interval: real)
      returns (busy: Result<bool, Failure>, naps: seq<real>, ghost k: nat)
      requires connection.replies == script
      modifies connection
      ensures connection.sent == old(connection.sent) + Repeat(Cmd.STATUS, k + 1)
      ensures connection.replies == Drop(script, k + 1)
      ensures naps == Repeat(interval, k)
      ensures busy == BusyOfReply(NextReply(Drop(script, k))) && busy != Ok(true)
      ensures BusyRun(script) == k + BusyRun(Drop(script, k))
    {
      k := 0;
      naps := [];
      busy := IsBusy();
      DropNext(script, 0);
      RepeatAppend(old(connection.sent), Cmd.STATUS, 0);
      while busy == Ok(true)
        invariant connection.sent == old(connection.sent) + Repeat(Cmd.STATUS, k + 1)
        invariant connection.replies == Drop(script, k + 1)
        invariant naps == Repeat(interval, k)
        invariant busy == BusyOfReply(NextReply(Drop(script, k)))
        invariant BusyRun(script) == k + BusyRun(Drop(script, k))
        invariant k <= |script|
        decreases |script| - k
      {
        RepeatAppend(old(connection.sent), Cmd.STATUS, k + 1);
        RepeatAppend([], interval, k);
        naps := naps + [interval];
        busy := PollAgain(script, k);
        k := k + 1;
      }
    }

    /** The poll after a busy one. */
    method PollAgain(ghost script: seq<string>, ghost k: nat) returns (busy: Result<bool, Failure>)
      requires BusyOfReply(NextReply(Drop(script, k))) == Ok(true)
      requires connection.replies == Drop(script, k + 1)
      modifies connection
      ensures connection.sent == old(connection.sent) + [Cmd.STATUS]
      ensures connection.replies == Drop(script, k + 2)
      ensures busy == BusyOfReply(NextReply(Drop(script, k + 1)))
      ensures BusyRun(Drop(script, k)) == 1 + BusyRun(Drop(script, k + 1))
      ensures k < |script|
    {
      PollWhileBusy(script, k);
      busy := IsBusy();
    }

    /** `build`: `BU X`, and the reply's lines. */
    method Build(cardAddress: Option<int>) returns (r: Result<seq<string>, Failure>)
      modifies connection
      ensures connection.sent == old(connection.sent) + [BuildCommand(cardAddress)]
      ensures connection.replies == Rest(old(connection.replies))
      ensures r == Then(Reply(BuildCommand(cardAddress), NextReply(old(connection.replies))), LinesOf)
    {
      var reply := SendCommand(BuildCommand(cardAddress));
      match reply {
        case Err(e) => r := Err(e);
        case Ok(response) => r := Ok(SplitOn(response, '\r'));
      }
    }

    /** `axes`: the axis table of the build listing. */
    method Axes(cardAddress: Option<int>) returns (r: Result<seq<AxisInfo>, Failure>)
      modifies connection
      ensures connection.sent == old(connection.sent) + [BuildCommand(cardAddress)]
      ensures connection.replies == Rest(old(connection.replies))
      ensures var lines := Then(Reply(BuildCommand(cardAddress), NextReply(old(connection.replies))), LinesOf);
        lines.Err? ==> r == Err(lines.error)
      ensures var lines := Then(Reply(BuildCommand(cardAddress), NextReply(old(connection.replies))), LinesOf);
        lines.Ok? ==> r == AxesOfLines(lines.value)
    {
      var lines := Build(cardAddress);
      match lines {
        case Err(e) => r := Err(e);
        case Ok(l) => r := GetAxesFromBuild(l);
      }
    }

    /** `here`: `H` with the coordinates. */
    method Here(coordinates: seq<(string, Cmd.Value)>) returns (r: Result<string, Failure>)
      modifies connection
      ensures connection.sent == old(connection.sent) + [Cmd.Format(Cmd.HERE, coordinates, [], None)]
      ensures connection.replies == Rest(old(connection.replies))
      ensures r == Reply(Cmd.Format(Cmd.HERE, coordinates, [], None), NextReply(old(connection.replies)))
    {
      r := SendCommand(Cmd.Format(Cmd.HERE, coordinates, [], None));
    }

    /** `home`: `!` with the axes. */
    method Home(axes: seq<string>) returns (r: Result<string, Failure>)
      modifies connection
      ensures connection.sent == old(connection.sent) + [AxesCommand(Cmd.HOME, axes)]
      ensures connection.replies == Rest(old(connection.replies))
      ensures r == Reply(AxesCommand(Cmd.HOME, axes), NextReply(old(connection.replies)))
    {
      r := SendCommand(AxesCommand(Cmd.HOME, axes));
    }

    /** `led`: `LED` with the brightnesses, at a card address; the reply is dropped. */
    method Led(brightnesses: seq<(string, Cmd.Value)>, cardAddress: Option<int>) returns (r: Result<(), Failure>)
      modifies connection
      ensures connection.sent == old(connection.sent) + [Cmd.Format(Cmd.LED, brightnesses, [], cardAddress)]
      ensures connection.replies == Rest(old(connection.replies))
      ensures r.Ok? <==> Reply(Cmd.Format(Cmd.LED, brightnesses, [], cardAddress), NextReply(old(connection.replies))).Ok?
      ensures r.Err? ==> r.error == Reply(Cmd.Format(Cmd.LED, brightnesses, [], cardAddress), NextReply(old(connection.replies))).error
    {
      var reply := SendCommand(Cmd.Format(Cmd.LED, brightnesses, [], cardAddress));
      match reply {
        case Err(e) => r := Err(e);
        case Ok(_) => r := Ok(());
      }
    }

    /** `move`: `M` with the coordinates. */
    method Move(coordinates: seq<(string, Cmd.Value)>) returns (r: Result<string, Failure>)
      modifies connection
      ensures connection.sent == old(connection.sent) + [Cmd.Format(Cmd.MOVE, coordinates, [], None)]
      ensures connection.replies == Rest(old(connection.replies))
      ensures r == Reply(Cmd.Format(Cmd.MOVE, coordinates, [], None), NextReply(old(connection.replies)))
    {
      r := SendCommand(Cmd.Format(Cmd.MOVE, coordinates, [], None));
    }

    /** `rdstat`: `RS` with the axes, and the statuses of the reply. */
    method Rdstat(axes: seq<string>) returns (r: Result<seq<St.RdstatEntry>, Failure>)
      modifies connection
      ensures connection.sent == old(connection.sent) + [AxesCommand(Cmd.RDSTAT, axes)]
      ensures connection.replies == Rest(old(connection.replies))
      ensures r == Then(Reply(AxesCommand(Cmd.RDSTAT, axes), NextReply(old(connection.replies))), St.StatusesForRdstat)
    {
      var reply := SendCommand(AxesCommand(Cmd.RDSTAT, axes));
      match reply {
        case Err(e) => r := Err(e);
        case Ok(response) => r := St.StatusesForRdstat(response);
      }
    }

    /** `set_home`: `HM` with the axes, where a `+` value stands as a bare flag. */
    method SetHome(axes: seq<(string, Cmd.Value)>) returns (r: Result<string, Failure>)
      modifies connection
      ensures connection.sent == old(connection.sent) + [Cmd.Format(Cmd.SETHOME, axes, ["+"], None)]
      ensures connection.replies == Rest(old(connection.replies))
      ensures r == Reply(Cmd.Format(Cmd.SETHOME, axes, ["+"], None), NextReply(old(connection.replies)))
    {
      r := SendCommand(Cmd.Format(Cmd.SETHOME, axes, ["+"], None));
    }

    /** `where`: `W` with the axes, and the reply's coordinates by axis. */
    method Where(axes: seq<string>) returns (r: Result<map<string, Number>, Failure>)
      modifies connection
      ensures connection.sent == old(connection.sent) + [AxesCommand(Cmd.WHERE, axes)]
      ensures connection.replies == Rest(old(connection.replies))
      ensures r == WhereOfResult(axes, Reply(AxesCommand(Cmd.WHERE, axes), NextReply(old(connection.replies))))
    {
      var reply := SendCommand(AxesCommand(Cmd.WHERE, axes));
      match reply {
        case Err(e) => r := Err(e);
        case Ok(response) => r := Ok(WhereOfReply(axes, response));
      }
    }

    /** `who`: `WHO`, and the reply's lines. */
    method Who() returns (r: Result<seq<string>, Failure>)
      modifies connection
      ensures connection.sent == old(connection.sent) + [Cmd.WHO]
      ensures connection.replies == Rest(old(connection.replies))
      ensures r == Then(Reply(Cmd.WHO, NextReply(old(connection.replies))), LinesOf)
    {
      var reply := SendCommand(Cmd.WHO);
      match reply {
        case Err(e) => r := Err(e);
        case Ok(response) => r := Ok(SplitOn(response, '\r'));
      }
    }
  }
}
