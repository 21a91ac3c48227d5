# asitiger protocol codec and session layer, in Dafny

This project models the host-side core of `asitiger`, a driver for ASI Tiger
motion controllers. The controller speaks a line-oriented ASCII protocol. The
model covers:

- the command encoder (`Command.format` and its helpers);
- the status decoder: the coarse `N`/`B` marker, the eight-bit per-axis
  status byte, and the re-segmentation of irregularly spaced `RS` replies;
- the error classifier, which maps the `:N-<code>` sentinel to an error kind;
- the build-report decoder, which yields axis records;
- the plate-lock position normaliser;
- the `TigerController` session and the older `TigerHub` session, each over
  a scripted connection.

Modules, one per source file or shared concern:

| module | file | models |
|---|---|---|
| `Wrappers` | wrappers.dfy | `Option` and `Result`; raised exceptions become `Err` values |
| `Text` | text.dfy | Python's `str.split()`, `str.split(c)`, `sep.join`, `str.strip()`, `re.split(r"\s+", ...)`, `str(int)` and `int(str)`, with their round trips |
| `Errors` | errors.dfy | `asitiger/errors.py` |
| `Command` | command.dfy | `asitiger/command.py` |
| `Status` | status.dfy | `asitiger/status.py` |
| `Axis` | axis.dfy | `asitiger/axis.py` |
| `Secure` | secure.dfy | `asitiger/secure.py` |
| `Connection` | connection.dfy | the serial link, as a log of sent commands plus a queue of scripted replies |
| `Controller` | controller.dfy | `asitiger/tigercontroller.py` |
| `Hub` | hub.dfy | `asitiger/tigerhub.py` |

Modelling choices:

- Python exceptions become `Err(Failure)`. A `Failure` is a device error with its kind and message, the hub's
  `CommandFailedError`, `ValueError`, or `KeyError`.
- A coordinate value is a string or an int (`Command.Value`). An int is never equal to a flag string, so it
  never counts as a flag.
- Python dicts are Dafny maps. Ordered coordinate dicts are sequences of pairs, so the caller's order is kept.
- A `flag_overrides` of `None` behaves like `[]`, and `coordinates=None` like an empty dict. A card address is an
  `Option<int>`; it is truthy when it is `Some(n)` with `n != 0`.
- Python's whitespace class (`str.isspace`, `\s`) is written out as a character predicate.
- `int(str)` skips less around its literal than `str.strip()` does. Non-ASCII whitespace counts, but of the
  ASCII characters only space and `\t`..`\r` do, and the separators `\x1c`..`\x1f` do not
  (`Text.ParseIntRejectsSeparator`).
- The regex split at `asitiger/status.py:98` is an explicit tokenizer (`Status.Tokenize`). It yields maximal digit
  runs, each single `B` or `N`, and maximal runs of other non-space characters (`Status.TokenizeWordIsMaximal`,
  `Status.TokenizeOfMaximal`). Whitespace only separates tokens (`Status.TokenizeByWords`).
- `Axis.Type` has 16 distinct members. `UNKNOWN = "u"` repeats `MICRO_MIRROR`'s value, and Python's `Enum` makes
  a later duplicate an alias of the earlier member. So the letter `u` resolves to `MicroMirror`, and
  `Axis.UNKNOWN` is a constant equal to it.
- A read from an exhausted reply script gives the empty reply, which is what a timed-out `readline` returns. The
  controller's wait then fails with `ValueError`; the hub's wait counts the empty reply as idle.
- `time.sleep` is modelled by the `naps` out-parameter of the wait loops. It lists each nap's interval, so the
  fallback from a falsy override (`None` or `0.0`) to the stored field can be observed.
- `test/test_command.py:22-25` expects rendered values truncated to 16 characters, but `asitiger/command.py:48-57`
  does not truncate. The model follows the code, and `Command.FormatCoordinateTruncationTest` shows the value
  written out whole.

## Model

| member | source | states |
|---|---|---|
| Command.FormatCoordinate | asitiger/command.py:48-57 | the token starts with the axis; what follows is the bare value exactly when the value is in a non-empty override list, and `=` plus the rendered value otherwise |
| Command.CoordinateTokens | asitiger/command.py:35-46 | one token per pair, in the caller's order, each formatted with the same overrides |
| Command.FormatCoordinatesSplits | asitiger/command.py:35-46 | with no space in any axis or value, splitting the joined text at spaces gives back every token in order, so tokens are separated by exactly one space |
| Command.FormatWithoutFlags | asitiger/command.py:52-57 | with an empty override list, every token is `axis=value` |
| Command.FormatShape | asitiger/command.py:16-33 | no pairs give the verb unchanged; pairs give the verb, one space and the formatted pairs; a card address of None or 0 adds nothing, with or without pairs; a non-zero address is put in front in decimal with no separator, and that prefix parses back to the address |
| Command.FormatCoordinateExamples | asitiger/command.py:48-57 | `Y=1`, `Z=1` with `["+"]`, `Z+`; an int 1 is not the flag `"1"`; flag membership is exact |
| Command.FormatCoordinatesExample | asitiger/command.py:35-46 | `{X:+, Y:?, Z:!}` with `["+","?"]` gives `X+ Y? Z=!` |
| Command.FormatCardAddressExample | asitiger/command.py:30-31 | card address 123 with no pairs gives `123CMD` |
| Command.FormatExample | asitiger/command.py:24-28 | `CMD` with `X=1` and `Y=-2.0` gives `CMD X=1 Y=-2.0` |
| Command.FormatCoordinateTruncationTest | asitiger/command.py:48-57 | a 20-character value is written out whole, not cut to the 16 characters a repository test expects |
| Status.StatusOfValue | asitiger/status.py:7-9 | `Status(value)` succeeds exactly on `N` and `B`, giving the member whose value it is; anything else is ValueError |
| Status.FromFlag | asitiger/status.py:11-15 | an int gives IDLE exactly when it is 0 and BUSY otherwise; a string is looked up by enum value |
| Status.FromFlagRoundTrip | asitiger/status.py:11-15 | both encodings of a coarse status, the letter and the int flag, decode back to it |
| Status.StatusFromDecimal | asitiger/status.py:74-82 | a non-negative int, given as an int or as text `int()` accepts, decodes through the bitmap; a negative value or text `int()` rejects is ValueError |
| Status.PackOfDecode | asitiger/status.py:48-57 | packing the eight decoded fields back into bits gives `n mod 256`: field i is bit i, and `zip` ignores bits above 7 |
| Status.DecodeOfPack | asitiger/status.py:74-82 | every combination of the eight fields is the decode of the byte that packs it |
| Status.DecodeInjective | asitiger/status.py:74-82 | two numbers decode alike exactly when they agree in their low eight bits, so the decode is one-to-one on 0..255 |
| Status.DecodeExample | asitiger/status.py:74-82 | 210 decodes to IDLE, ENABLED, INACTIVE, joystick DISABLED, RAMPING, DOWN, upper CLOSED, lower CLOSED |
| Status.Tokenize | asitiger/status.py:92-98 | every token is a digit run, a single `B` or `N`, or a run of other non-space characters |
| Status.TokenizeOfJoin | asitiger/status.py:98-99 | re-tokenizing tokens joined by single spaces gives them back, so the joined form is canonical |
| Status.TokenizeKeepsCharacters | asitiger/status.py:98-99 | the tokens, concatenated, are the reply with its whitespace removed: nothing is lost or invented |
| Status.TokenizeWordIsMaximal | asitiger/status.py:98-99 | within a whitespace-free stretch of the reply no two neighbouring tokens are both digit runs or both other runs: `\d+` and the text between matches are taken whole |
| Status.TokenizeByWords | asitiger/status.py:98-99 | the reply's tokens are the tokens of its whitespace-separated words in turn, so only whitespace can separate two runs of the same kind |
| Status.TokenizeOfMaximal | asitiger/status.py:98-99 | any sequence of tokens with no mergeable neighbours is exactly what the re-segmentation makes of their concatenation, so together with the two rows above the token list is determined |
| Text.ParseIntRejectsSeparator | asitiger/status.py:75 | `int()` raises on text that starts with a separator `\x1c`..`\x1f`, although `str.strip()` removes such a character; this is the `int()` that `status_from_decimal` and `_cast_number` call |
| Status.StatusForRdstat | asitiger/status.py:85-89 | `N` and `B` give coarse statuses; a digit run gives the decode of its value; a run of other characters is ValueError; any other text goes to `int()` and decodes, or fails, as `StatusFromDecimal` does on it |
| Status.StatusesOfTokens | asitiger/status.py:101 | one result per token, in order, and it fails exactly when some token fails |
| Status.StatusesForRdstat | asitiger/status.py:92-101 | one result per token after the first; coarse exactly where the token is `N` or `B`; the reply fails exactly when some token after the first is not a digit run or flag |
| Status.TokenizeExample | asitiger/status.py:98-99 | `:A  10N 138` tokenizes to `:A`, `10`, `N`, `138` |
| Status.RdstatExample | asitiger/status.py:92-101 | `:A  10N 138` gives exactly a fine status for 10, coarse IDLE, and a fine status for 138 |
| Errors.CodeTableIsOneToOne | asitiger/errors.py:41-50 | codes `1`-`7` and `21` map one-to-one to their eight kinds by exact string equality; every other code maps to the catch-all |
| Errors.FindSentinel | asitiger/errors.py:39 | returns the leftmost position at or after the start where `:N-` begins, or none when there is none |
| Errors.RestOfLine | asitiger/errors.py:39 | the captured code is the text after the sentinel up to the first newline or the end, with no newline in it |
| Errors.Classify | asitiger/errors.py:52-58 | there is no error exactly when the reply holds no `:N-` anywhere |
| Errors.RaiseErrorIfPresent | asitiger/errors.py:52-60 | raises exactly when the reply holds `:N-`; the raised error is the kind `Classify` finds for the first `:N-` code, and its message holds the command and ends with the full reply |
| Errors.FailureMessage | asitiger/errors.py:60 | the message contains the command text and ends with the full reply |
| Errors.ClassifyFirstSentinel | asitiger/errors.py:53-58 | after a sentinel-free prefix, the kind is the table entry of the whole rest of the line |
| Errors.ClassifyTestReplies | asitiger/errors.py:52-58 | `:A` raises nothing, `:N-2` is UnrecognizedAxisParameter, and `:N-123` is UnknownError |
| Errors.ClassifyEdgeCases | asitiger/errors.py:39-58 | `:N-21` is SerialCommandHalted, not code `2`; a bare `:N-` is UnknownError |
| Errors.ClassifySearchesWholeReply | asitiger/errors.py:54 | a sentinel after a success marker still counts, and the code stops at the newline |
| Axis.TypeOf | asitiger/axis.py:11-28 | a lookup that succeeds gives the member whose letter is the value; every other value is ValueError |
| Axis.TypeOfLetterRoundTrip | asitiger/axis.py:11-28 | every member is found by its own letter |
| Axis.TypeOfSucceedsOnLetters | asitiger/axis.py:11-28 | the lookup succeeds exactly on the members' letters |
| Axis.TypeExamples | asitiger/axis.py:11-28 | `u` is MICRO_MIRROR, and UNKNOWN is the same member; `x`, `z`, `f`, `o`, `i` give XY_MOTOR, Z_MOTOR, SLIDER, TURRET, MULTI_LED; `U` and the empty string are errors |
| Axis.MakeBuildInfoDict | asitiger/axis.py:46-59 | the loop computes the table of its lines, line by line, skipping lines with no colon |
| Axis.ColonCount | asitiger/axis.py:51-54 | a line sets an entry exactly when it holds one colon, and fails to unpack exactly when it holds two or more |
| Axis.BuildInfoFails | asitiger/axis.py:50-57 | the table fails, with ValueError, exactly when some line holds two or more colons |
| Axis.BuildInfoKeys | asitiger/axis.py:50-57 | the table's keys are exactly the keys of lines with one colon |
| Axis.BuildInfoLastWins | asitiger/axis.py:57 | a key holds the trimmed, whitespace-split values of the last line that sets it |
| Axis.ZipAxes | asitiger/axis.py:34-42 | the number of axes is the minimum of the four lengths; the k-th axis takes the k-th entry of each list and the type of the k-th letter; an unlisted letter among those looked up is ValueError |
| Axis.FirstMissingKey | asitiger/axis.py:37-40 | names a missing key, the first of the four in the order `zip`'s arguments are read |
| Axis.GetAxesFromBuild | asitiger/axis.py:30-44 | a colon error comes first, then KeyError for the first missing key of the four, then the zip of the four lists |
| Axis.BuildExampleInfo | asitiger/axis.py:46-59 | the repository's fixture decodes to a table whose four axis keys hold the words of their lines; the other lines are ignored |
| Axis.BuildExampleAxes | asitiger/axis.py:30-44 | the fixture gives exactly five axes: X Z S O L, XY_MOTOR Z_MOTOR SLIDER TURRET MULTI_LED, addresses 1 2 2 3 7, hex 31 32 32 33 37 |
| Secure.PositionValue | asitiger/secure.py:5-7 | LOCKED is 0 and UNLOCKED is 1, and only they have those values |
| Secure.ResolveValue | asitiger/secure.py:9-14 | an enum member becomes its value; a number is returned unchanged |
| Secure.ResolveIdempotent | asitiger/secure.py:9-14 | resolving a resolved value gives the same value |
| Secure.ResolveDistinguishesMembers | asitiger/secure.py:5-12 | the two members resolve to different numbers |
| Secure.ResolveExamples | asitiger/secure.py:9-14 | LOCKED gives 0, UNLOCKED gives 1, 123 gives 123 |
| Connection.ScriptedConnection.SendCommand | asitiger/tigercontroller.py:32 | the command is appended to the sent log unchanged, and no reply is consumed |
| Connection.ScriptedConnection.ReadResponse | asitiger/tigercontroller.py:33 | returns the next scripted reply and consumes it, or gives the empty reply once the script is exhausted |
| Controller.Reply | asitiger/tigercontroller.py:31-37 | the reply comes back unchanged exactly when it holds no `:N-`; otherwise the device error of its code, with the command and reply in the message |
| Controller.ReplyExamples | asitiger/tigercontroller.py:31-37 | `response` comes back unchanged, and `:N-2` raises UnrecognizedAxisParameter |
| Controller.StatusOfReply | asitiger/tigercontroller.py:139-140 | `status` succeeds exactly on the replies `N` and `B`, giving the status whose letter it is |
| Controller.BusyOfReply | asitiger/tigercontroller.py:62-63 | `is_busy` is true exactly on `B` and false exactly on `N` |
| Controller.BusyOfReplyFails | asitiger/tigercontroller.py:62-63 | any other reply fails: with its device error when it holds `:N-`, with ValueError otherwise |
| Controller.BusyRunIsLeadingBusy | asitiger/tigercontroller.py:65-69 | the busy run counts exactly the leading `B` replies |
| Controller.WaitOutcomeIsIdle | asitiger/tigercontroller.py:65-69 | the wait returns normally exactly when the first reply after the leading `B`s is `N`; otherwise it raises what that poll raised |
| Controller.WaitEndsOnExhaustedScript | asitiger/tigercontroller.py:65-69 | a script of only `B`s ends the wait with ValueError at the empty reply |
| Controller.EffectiveInterval | asitiger/tigercontroller.py:66 | a None or zero override falls back to the stored interval; any other override is used |
| Controller.BuildCommandShape | asitiger/tigercontroller.py:86-88 | `build` sends `BU X`, with a truthy card address in front |
| Controller.AxesCommand | asitiger/tigercontroller.py:98-99 | the verb, one space, then the axes joined by single spaces |
| Controller.AxesCommandSplits | asitiger/tigercontroller.py:119-120 | with no space in the verb or any axis, splitting the command at spaces gives the verb and the axes back |
| Controller.CastNumber | asitiger/tigercontroller.py:39-44 | an int exactly when `int()` accepts the text, with that value; otherwise the text is left to the float fallback |
| Controller.CastNumberOfInt | asitiger/tigercontroller.py:39-42 | the decimal text of an int casts back to it |
| Controller.Zip | asitiger/tigercontroller.py:146-147 | pairs up to the end of the shorter list, position by position |
| Controller.WhereRoundTrip | asitiger/tigercontroller.py:142-148 | `where` inverts the device's reply: each of the distinct axes maps to the int at its position, and there are no other keys |
| Controller.PairOf | asitiger/tigercontroller.py:51-54 | a token unpacks exactly when it holds one `=`, into the text before and after it; otherwise ValueError |
| Controller.PairsOf | asitiger/tigercontroller.py:51-54 | one pair per token, in order, and it fails exactly when some token is not a pair |
| Controller.DictOfPairsKeys | asitiger/tigercontroller.py:54 | the dict's keys are exactly the pairs' keys |
| Controller.DictOfPairsLastWins | asitiger/tigercontroller.py:54 | a key holds the cast value of its last pair: a later duplicate overwrites |
| Controller.DictRoundTrip | asitiger/tigercontroller.py:46-54 | after the dropped first token, distinct `key=value` tokens give a dict mapping each key to its cast value and holding nothing else |
| Controller.DictFromResponseFails | asitiger/tigercontroller.py:46-54 | the parse fails, with ValueError, exactly when some token after the first has zero or several `=` |
| Controller.DictExample | asitiger/tigercontroller.py:46-54 | `:A X=a Y= Z=3` gives `{X: a, Y: "", Z: 3}` |
| Controller.WhereOfResult | asitiger/tigercontroller.py:142-148 | a device error passes through; a reply gives the axis-to-number table |
| Controller.TigerController.SendCommand | asitiger/tigercontroller.py:31-37 | sends the command unchanged, consumes exactly one reply, and returns it unless it reports a device error |
| Controller.TigerController.Status | asitiger/tigercontroller.py:139-140 | sends `/` once and reads the reply as a status |
| Controller.TigerController.IsBusy | asitiger/tigercontroller.py:62-63 | sends `/` once; true exactly on a `B` reply |
| Controller.TigerController.WaitUntilIdle | asitiger/tigercontroller.py:65-69 | sends `/` once per leading `B` reply plus once more, consumes that many replies, naps once per `B` at the effective interval, and ends with the outcome of the first other reply |
| Controller.TigerController.Build | asitiger/tigercontroller.py:86-90 | sends the build command and returns the reply split at carriage returns |
| Controller.TigerController.Axes | asitiger/tigercontroller.py:59-60 | sends the build command and decodes the reply's lines into axis records |
| Controller.TigerController.Here | asitiger/tigercontroller.py:95-96 | sends `H` with the formatted coordinates and returns the reply |
| Controller.TigerController.Home | asitiger/tigercontroller.py:98-99 | sends `!`, a space and the axes joined by spaces, and returns the reply |
| Controller.TigerController.Led | asitiger/tigercontroller.py:101-106 | sends `LED` with the brightnesses at the card address, and raises what the reply reports |
| Controller.TigerController.Move | asitiger/tigercontroller.py:113-114 | sends `M` with the formatted coordinates and returns the reply |
| Controller.TigerController.Rdstat | asitiger/tigercontroller.py:119-121 | sends `RS` and the axes, then decodes the reply with the `RS` tokenizer |
| Controller.TigerController.SetHome | asitiger/tigercontroller.py:130-133 | sends `HM` with the axes, where `+` is a bare flag |
| Controller.TigerController.Where | asitiger/tigercontroller.py:142-148 | sends `W` and the axes, then pairs the axes with the reply's coordinates |
| Controller.TigerController.Who | asitiger/tigercontroller.py:150-151 | sends `WHO` and returns the reply split at carriage returns |
| Hub.FormatCoordinates | asitiger/tigerhub.py:31-35 | the hub's pairs text is the controller encoder's with no flag overrides: `axis=value` tokens joined by single spaces, in order |
| Hub.MoveCommandAgrees | asitiger/tigerhub.py:68-71 | with pairs, the hub's move line is the controller's; with none, the hub keeps a trailing space the controller leaves out |
| Hub.MoveCommandSplits | asitiger/tigerhub.py:68-71 | splitting the move line at spaces gives `M` and the tokens back |
| Hub.Reply | asitiger/tigerhub.py:45-54 | raises CommandFailedError exactly when the reply starts with `:N`; otherwise returns the reply unchanged |
| Hub.ReplyRulesCompared | asitiger/tigerhub.py:11 | both sessions fail on a leading `:N-`; only the hub fails on a bare `:N`; only the controller fails on a later `:N-` |
| Hub.BusyOfReply | asitiger/tigerhub.py:56-57 | busy exactly on the reply `B`; fails exactly on a `:N` reply |
| Hub.IdleOnAnyOtherReply | asitiger/tigerhub.py:56-57 | any other reply that is not a failure counts as idle, the empty reply included |
| Hub.WaitOutcomeIsIdle | asitiger/tigerhub.py:59-63 | the wait raises exactly when the first reply that is not `B` starts with `:N` |
| Hub.WaitEndsOnExhaustedScript | asitiger/tigerhub.py:59-63 | a script of only `B`s ends the hub's wait normally |
| Hub.TigerHub.SendCommand | asitiger/tigerhub.py:45-54 | sends the command unchanged, consumes one reply, and raises on a `:N` reply |
| Hub.TigerHub.IsBusy | asitiger/tigerhub.py:56-57 | sends `/` once; true exactly on a `B` reply |
| Hub.TigerHub.WaitUntilIdle | asitiger/tigerhub.py:59-63 | sends `/` until the first reply that is not `B`, once per leading `B` plus once, napping once per `B` |
| Hub.TigerHub.EnterPollInterval | asitiger/tigerhub.py:37-41 | saves the current interval and sets the new one |
| Hub.TigerHub.ExitPollInterval | asitiger/tigerhub.py:43 | puts the saved interval back |
| Hub.TigerHub.WaitWithPollInterval | asitiger/tigerhub.py:37-43 | the wait runs at the given interval; the old interval is restored on normal exit and not after a raise, as there is no finally |
| Hub.TigerHub.Home | asitiger/tigerhub.py:65-66 | sends `!` and returns the reply |
| Hub.TigerHub.Move | asitiger/tigerhub.py:68-71 | sends `M`, a space and the formatted pairs, and returns the reply |

## Left out

- `asitiger/serialconnection.py`: port opening, buffer resets, ASCII encoding and `readline`. These are I/O. The
  scripted connection keeps the sent-command log and the reply queue in their place.
- `from_serial_port` in both sessions opens a port, which is I/O.
- `time.sleep` does not pause; the wait loops record the interval of each nap instead. Poll intervals are stored
  as opaque reals.
- Floating point: Python's float rendering (`3.0`, `12345.67`), the `float()` fallback of `_cast_number`, and
  `cast_values_to=float`. Values are strings or ints. `Controller.CastNumber` leaves text that `int()` rejects
  as text, and the cast of `_dict_from_response` is a function parameter.
- `Secure.ResolveValue`: does not model float arguments such as `0.5`, because floats are left out. Numbers are
  ints.
- `Status.StatusFromDecimal`: does not model `int()` of a float argument, because floats are left out.
- `Controller.CastNumber`: the float branch is not modelled, because floats are left out. A text that `int()`
  rejects is returned as `FloatText`, so the model never raises here, while Python's `float()` raises ValueError
  on text such as `abc`, and `Controller.TigerController.Where` then fails where the model succeeds.
- Controller methods whose verbs `asitiger/command.py` does not define: `halt`, `motor_control`, `enable_axes`,
  `disable_axes`, `move_relative`, `secure`, `set_plate_lock` and `speed`. As written they fail with
  AttributeError, and their wire strings are unknown.
- `asitiger/commands.py` holds only verb constants. The hub uses its `/`, `!` and `M`, which the `Command`
  module also declares.
- Dict insertion order of the parsed replies. Maps are unordered; only key-to-value contents are modelled.
- Unicode decimal digits beyond ASCII in `int()` and `\d`. The replies are ASCII.
- Exceptions other than those the modelled code raises itself, such as a transport timeout.
- `Hub.TigerHub.WaitWithPollInterval`: models `with_poll_interval` around a wait only. Any other body would leave
  the interval the same way on a normal exit, through `Hub.TigerHub.EnterPollInterval` and
  `Hub.TigerHub.ExitPollInterval`.
