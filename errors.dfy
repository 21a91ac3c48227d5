/**
 * The device's failure replies and the exceptions the driver raises.
 *
 * A reply is a failure when it contains `:N-`; what follows on that line is
 * the error code, looked up by exact string equality in a fixed table.
 */
module Errors {
  import opened Wrappers
  import opened Text

  /** The subclasses of `Errors.AsiError`. */
  datatype ErrorKind =
    | UnknownCommand
    | UnrecognizedAxisParameter
    | MissingParameters
    | ParameterOutOfRange
    | OperationFailed
    | Undefined
    | InvalidCardAddress
    | SerialCommandHalted
    | UnknownError

  /** Everything a call into the driver can raise. */
  datatype Failure =
    | Device(kind: ErrorKind, message: string)  // an AsiError subclass
    | CommandFailed(message: string)            // TigerHub.CommandFailedError
    | ValueError                                // a malformed number, enum value or unpacking
    | KeyError(key: string)                     // a missing dictionary key

  /** `CODE_TO_ERROR_CLASS` with `UnknownError` as the fallback of `.get`. */
  function KindOfCode(code: string): ErrorKind
  {
    if code == "1" then UnknownCommand
    else if code == "2" then UnrecognizedAxisParameter
    else if code == "3" then MissingParameters
    else if code == "4" then ParameterOutOfRange
    else if code == "5" then OperationFailed
    else if code == "6" then Undefined
    else if code == "7" then InvalidCardAddress
    else if code == "21" then SerialCommandHalted
    else UnknownError
  }

  /** The code the table lists for a kind; the catch-all kind has none. */
  function CodeOfKind(k: ErrorKind): Option<string>
  {
    match k
    case UnknownCommand => Some("1")
    case UnrecognizedAxisParameter => Some("2")
    case MissingParameters => Some("3")
    case ParameterOutOfRange => Some("4")
    case OperationFailed => Some("5")
    case Undefined => Some("6")
    case InvalidCardAddress => Some("7")
    case SerialCommandHalted => Some("21")
    case UnknownError => None
  }

  /**
   * The table is one-to-one: every named kind has exactly one code, and a code
   * maps to a named kind exactly when it is that kind's code.
   */
  lemma CodeTableIsOneToOne(code: string, k: ErrorKind)
    ensures k != UnknownError ==> CodeOfKind(k).Some? && KindOfCode(CodeOfKind(k).value) == k
    ensures KindOfCode(code) != UnknownError <==> CodeOfKind(KindOfCode(code)) == Some(code)
    ensures KindOfCode(code) == k && k != UnknownError ==> CodeOfKind(k) == Some(code)
  {
  }

  /** `:N-` starts at index `i` of `s`. */
  predicate SentinelAt(s: string, i: nat) {
    i + 3 <= |s| && s[i] == ':' && s[i + 1] == 'N' && s[i + 2] == '-'
  }

  predicate HasSentinel(s: string) {
    exists i: nat :: i < |s| && SentinelAt(s, i)
  }

  /** The leftmost match of `ERROR_RESPONSE_REGEX.search` at or after `from`. */
  function FindSentinel(s: string, from: nat): (r: Option<nat>)
    requires from <= |s|
    ensures r.Some? ==> from <= r.value && SentinelAt(s, r.value)
    ensures r.Some? ==> forall j: nat :: from <= j < r.value ==> !SentinelAt(s, j)
    ensures r.None? ==> forall j: nat :: from <= j ==> !SentinelAt(s, j)
    decreases |s| - from
  {
    if from + 3 > |s| then None
    else if SentinelAt(s, from) then Some(from)
    else FindSentinel(s, from + 1)
  }

  /** What `(.*)` captures: the text from `start` up to the first newline or the end. */
  function RestOfLine(s: string, start: nat): (code: string)
    requires start <= |s|
    ensures '\n' !in code
    ensures start + |code| <= |s|
    ensures start + |code| == |s| || s[start + |code|] == '\n'
    ensures code == s[start..start + |code|]
  {
    var t := s[start..];
    t[..IndexOf(t, '\n')]
  }

  /** A reply without a colon holds no sentinel. */
  lemma NoColonNoSentinel(s: string)
    requires ':' !in s
    ensures !HasSentinel(s)
  {
    forall i: nat | i < |s|
      ensures !SentinelAt(s, i)
    {
      assert s[i] in s;
    }
  }

  /** The error kind a reply reports, or None when it is not a failure reply. */
  function Classify(response: string): (r: Option<ErrorKind>)
    ensures r.None? <==> !HasSentinel(response)
  {
    match FindSentinel(response, 0)
    case None => None
    case Some(i) => Some(KindOfCode(RestOfLine(response, i + 3)))
  }

  /** The message every raised AsiError carries. */
  function FailureMessage(command: string, response: string): (m: string)
    ensures |m| >= 9 + |command| && m[9..9 + |command|] == command
    ensures |m| >= |response| && m[|m| - |response|..] == response
  {
    "Command \"" + command + "\" failed with response: " + response
  }

  /**
   * `Errors.raise_error_if_present`: the exception it raises, or None when it
   * returns normally.
   */
  function RaiseErrorIfPresent(command: string, response: string): (r: Option<Failure>)
    ensures r.None? <==> !HasSentinel(response)
    ensures r.Some? ==> r.value.Device? && r.value.message == FailureMessage(command, response)
    ensures r.Some? ==> Classify(response).Some? && r.value == Device(Classify(response).value, FailureMessage(command, response))
  {
    match Classify(response)
    case None => None
    case Some(kind) => Some(Device(kind, FailureMessage(command, response)))
  }

  /**
   * A failure reply anywhere after a sentinel-free prefix is classified by the
   * whole rest of its line: the code is `code`, not a prefix of it.
   */
  lemma ClassifyFirstSentinel(prefix: string, code: string, rest: string)
    requires !HasSentinel(prefix)
    requires '\n' !in code
    requires rest == [] || rest[0] == '\n'
    ensures Classify(prefix + ":N-" + code + rest) == Some(KindOfCode(code))
  {
    var s := prefix + ":N-" + code + rest;
    var n := |prefix|;
    assert SentinelAt(s, n);
    forall j: nat | j < n
      ensures !SentinelAt(s, j)
    {
      if j + 3 <= n {
        assert !SentinelAt(prefix, j);
        assert s[j] == prefix[j] && s[j + 1] == prefix[j + 1] && s[j + 2] == prefix[j + 2];
      } else if j + 2 == n {
        assert s[j + 2] == ':';
      } else {
        assert s[j + 1] == ':';
      }
    }
    assert FindSentinel(s, 0) == Some(n);
    var t := s[n + 3..];
    assert t[..|code|] == code;
    assert |code| == |t| || t[|code|] == '\n';
    IndexOfIs(t, '\n', |code|);
  }

  /** The replies pinned by the repository's tests. */
  lemma ClassifyTestReplies()
    ensures Classify(":A") == None
    ensures Classify(":N-2") == Some(UnrecognizedAxisParameter)
    ensures Classify(":N-123") == Some(UnknownError)
  {
    assert !SentinelAt(":A", 0);
    assert ":N-2" == [] + ":N-" + "2" + [];
    ClassifyFirstSentinel([], "2", []);
    assert ":N-123" == [] + ":N-" + "123" + [];
    ClassifyFirstSentinel([], "123", []);
  }

  /** The code is the whole rest of the line, possibly empty, and the sentinel may stand anywhere. */
  lemma ClassifyEdgeCases()
    ensures Classify(":N-21") == Some(SerialCommandHalted)
    ensures Classify(":N-") == Some(UnknownError)
  {
    assert ":N-21" == [] + ":N-" + "21" + [];
    ClassifyFirstSentinel([], "21", []);
    assert ":N-" == [] + ":N-" + [] + [];
    ClassifyFirstSentinel([], [], []);
  }

  /** A sentinel after a success marker still counts, and the code stops at the newline. */
  lemma ClassifySearchesWholeReply(reply: string)
    requires reply == ":A :N-4\nX"
    ensures Classify(reply) == Some(ParameterOutOfRange)
  {
    WholeReplyPieces();
    MarkerHasNoSentinel();
    ClassifyFirstSentinel(":A ", "4", "\nX");
  }

  /** The reply of `ClassifySearchesWholeReply`, cut at its sentinel. */
  lemma WholeReplyPieces()
    ensures ":A :N-4\nX" == ":A " + ":N-" + "4" + "\nX"
  {
  }

  /** A success marker holds no sentinel. */
  lemma MarkerHasNoSentinel()
    ensures !HasSentinel(":A ")
  {
    forall i: nat | i < 3
      ensures !SentinelAt(":A ", i)
    {
    }
  }
}
