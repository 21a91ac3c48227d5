/**
 * The older hub session. It has the controller's shape with simpler rules: a
 * reply is a failure exactly when it starts with `:N`, busy means the reply
 * is exactly `B`, and the poll interval can be swapped for the length of a
 * block and put back afterwards.
 */
module Hub {
  import opened Wrappers
  import opened Text
  import opened Errors
  import Cmd = Command
  import opened Connection
  import Controller

  /** `TigerHub.RESP_HEADER_FAILURE`. */
  const FAILURE_HEADER := ":N"

  /** `TigerHub.DEFAULT_POLL_INTERVAL_S`. */
  const DEFAULT_POLL_INTERVAL: real := 0.1

  predicate StartsWith(s: string, prefix: string) {
    |prefix| <= |s| && s[..|prefix|] == prefix
  }

  // ---------------------------------------------------------------------------
  // Commands

  /** `TigerHub.format_coordinates`: `axis=value` per pair, in order, joined with single spaces. */
  function FormatCoordinates(coordinates: seq<(string, Cmd.Value)>): (s: string)
    ensures s == Cmd.FormatCoordinates(coordinates, [])
  {
    var tokens := seq(|coordinates|, k requires 0 <= k < |coordinates| =>
      coordinates[k].0 + "=" + Cmd.Render(coordinates[k].1));
    forall k | 0 <= k < |coordinates|
      ensures tokens[k] == Cmd.CoordinateTokens(coordinates, [])[k]
    {
      Cmd.FormatWithoutFlags(coordinates, k);
    }
    assert tokens == Cmd.CoordinateTokens(coordinates, []);
    Join(" ", tokens)
  }

  /** What `move` sends: `M`, one space, and the formatted pairs. */
  function MoveCommand(coordinates: seq<(string, Cmd.Value)>): string
  {
    Cmd.MOVE + " " + FormatCoordinates(coordinates)
  }

  /**
   * The hub's move line is the controller's when there is at least one pair;
   * with none it keeps the separating space the controller leaves out.
   */
  lemma MoveCommandAgrees(coordinates: seq<(string, Cmd.Value)>)
    ensures |coordinates| > 0 ==> MoveCommand(coordinates) == Cmd.Format(Cmd.MOVE, coordinates, [], None)
    ensures MoveCommand([]) == "M " && Cmd.Format(Cmd.MOVE, [], [], None) == "M"
  {
  }

  /** With no space in any axis or value, splitting the move line at spaces gives the verb and the pairs back. */
  lemma MoveCommandSplits(coordinates: seq<(string, Cmd.Value)>)
    requires |coordinates| > 0 && Cmd.SpaceFree(coordinates)
    ensures SplitOn(MoveCommand(coordinates), ' ') == [Cmd.MOVE] + Cmd.CoordinateTokens(coordinates, [])
  {
    var tokens := Cmd.CoordinateTokens(coordinates, []);
    Cmd.FormatCoordinatesSplits(coordinates, []);
    SplitOnLength(FormatCoordinates(coordinates), ' ');
    JoinOfSplitOn(FormatCoordinates(coordinates), ' ');
    assert MoveCommand(coordinates) == Join(" ", [Cmd.MOVE] + tokens);
    forall k | 0 <= k < |[Cmd.MOVE] + tokens|
      ensures ' ' !in ([Cmd.MOVE] + tokens)[k]
    {
      if k > 0 {
        assert ([Cmd.MOVE] + tokens)[k] == SplitOn(FormatCoordinates(coordinates), ' ')[k - 1];
      }
    }
    SplitOnOfJoin([Cmd.MOVE] + tokens, ' ');
  }

  // ---------------------------------------------------------------------------
  // Replies

  /** What the hub's `send_command` makes of a reply: the reply, or CommandFailedError. */
  function Reply(command: string, response: string): (r: Result<string, Failure>)
    ensures r.Err? <==> StartsWith(response, FAILURE_HEADER)
    ensures r.Ok? ==> r.value == response
    ensures r.Err? ==> r.error == CommandFailed(FailureMessage(command, response))
  {
    if StartsWith(response, FAILURE_HEADER) then Err(CommandFailed(FailureMessage(command, response)))
    else Ok(response)
  }

  /**
   * The two sessions' failure rules differ: both fail on a reply starting
   * with `:N-`, only the hub fails on a bare `:N`, and only the controller
   * fails on a `:N-` later in the reply.
   */
  lemma ReplyRulesCompared(command: string, response: string)
    ensures StartsWith(response, ":N-") ==> Reply(command, response).Err? && Controller.Reply(command, response).Err?
    ensures Reply(command, ":N").Err? && Controller.Reply(command, ":N").Ok?
    ensures Reply(command, "X:N-1").Ok? && Controller.Reply(command, "X:N-1").Err?
  {
    if StartsWith(response, ":N-") {
      assert response[..2] == response[..3][..2];
      assert SentinelAt(response, 0);
    }
    assert SentinelAt("X:N-1", 1);
  }

  /** `is_busy` for one reply: the reply is exactly `B`. */
  function BusyOfReply(response: string): (r: Result<bool, Failure>)
    ensures r == Ok(true) <==> response == "B"
    ensures r.Err? <==> StartsWith(response, FAILURE_HEADER)
    ensures r.Err? ==> r.error == CommandFailed(FailureMessage(Cmd.STATUS, response))
  {
    match Reply(Cmd.STATUS, response)
    case Err(e) => Err(e)
    case Ok(s) => Ok(s == "B")
  }

  /** Any reply that is neither `B` nor a failure counts as idle, the empty line included. */
  lemma IdleOnAnyOtherReply(response: string)
    requires response != "B" && !StartsWith(response, FAILURE_HEADER)
    ensures BusyOfReply(response) == Ok(false)
  {
  }

  /** A busy poll reads a scripted line: the run goes on from the next one. */
  lemma PollWhileBusy(replies: seq<string>, k: nat)
    requires BusyOfReply(NextReply(Drop(replies, k))) == Ok(true)
    ensures k < |replies|
    ensures Controller.BusyRun(Drop(replies, k)) == 1 + Controller.BusyRun(Drop(replies, k + 1))
    ensures Drop(replies, k + 2) == Rest(Drop(replies, k + 1))
  {
    Controller.BusyRunStep(replies, k);
    DropNext(replies, k + 1);
  }

  /** A poll that is not busy after `k` busy ones ends the run, and the wait with it. */
  lemma PollWhenIdle(replies: seq<string>, k: nat)
    requires BusyOfReply(NextReply(Drop(replies, k))) != Ok(true)
    requires Controller.BusyRun(replies) == k + Controller.BusyRun(Drop(replies, k))
    ensures Controller.BusyRun(replies) == k
    ensures WaitOutcome(replies) == Controller.Settle(BusyOfReply(NextReply(Drop(replies, k))))
  {
    Controller.BusyRunStep(replies, k);
  }

  /** What the hub's `wait_until_idle` ends with. */
  function WaitOutcome(replies: seq<string>): Result<(), Failure>
  {
    Controller.Settle(BusyOfReply(NextReply(Drop(replies, Controller.BusyRun(replies)))))
  }

  /** The wait raises exactly when the first reply that is not `B` is a failure reply. */
  lemma WaitOutcomeIsIdle(replies: seq<string>)
    ensures WaitOutcome(replies).Err? <==> StartsWith(NextReply(Drop(replies, Controller.BusyRun(replies))), FAILURE_HEADER)
    ensures WaitOutcome(replies).Err? ==>
      WaitOutcome(replies).error == CommandFailed(FailureMessage(Cmd.STATUS, NextReply(Drop(replies, Controller.BusyRun(replies)))))
  {
  }

  /** An exhausted script ends the hub's wait normally: the empty reply counts as idle. */
  lemma WaitEndsOnExhaustedScript(replies: seq<string>)
    requires forall j :: 0 <= j < |replies| ==> replies[j] == "B"
    ensures Controller.BusyRun(replies) == |replies|
    ensures WaitOutcome(replies) == Ok(())
  {
    Controller.BusyRunIsLeadingBusy(replies);
  }

  // ---------------------------------------------------------------------------
  // The session

  /** `TigerHub`, over a scripted connection. */
  class TigerHub {
    const connection: ScriptedConnection
    /** `poll_interval_s`, the nap between two status polls. */
    var pollInterval: real

    constructor(connection: ScriptedConnection, pollInterval: real)
      ensures this.connection == connection && this.pollInterval == pollInterval
    {
      this.connection := connection;
      this.pollInterval := pollInterval;
    }

    /** `send_command`: the command goes out, one reply comes back, and a `:N` reply raises. */
    method SendCommand(command: string) returns (r: Result<string, Failure>)
      modifies connection
      ensures connection.sent == old(connection.sent) + [command]
      ensures connection.replies == Rest(old(connection.replies))
      ensures r == Reply(command, NextReply(old(connection.replies)))
    {
      connection.SendCommand(command);
      var response := connection.ReadResponse();
      if StartsWith(response, FAILURE_HEADER) {
        r := Err(CommandFailed(FailureMessage(command, response)));
      } else {
        r := Ok(response);
      }
    }

    /** `is_busy`: `/`, and whether the reply is `B`. */
    method IsBusy() returns (r: Result<bool, Failure>)
      modifies connection
      ensures connection.sent == old(connection.sent) + [Cmd.STATUS]
      ensures connection.replies == Rest(old(connection.replies))
      ensures r == BusyOfReply(NextReply(old(connection.replies)))
    {
      var reply := SendCommand(Cmd.STATUS);
      match reply {
        case Err(e) => r := Err(e);
        case Ok(response) => r := Ok(response == "B");
      }
    }

    /** The poll after a busy one. */
    method PollAgain(ghost script: seq<string>, ghost k: nat) returns (busy: Result<bool, Failure>)
      requires BusyOfReply(NextReply(Drop(script, k))) == Ok(true)
      requires connection.replies == Drop(script, k + 1)
      modifies connection
      ensures connection.sent == old(connection.sent) + [Cmd.STATUS]
      ensures connection.replies == Drop(script, k + 2)
      ensures busy == BusyOfReply(NextReply(Drop(script, k + 1)))
      ensures Controller.BusyRun(Drop(script, k)) == 1 + Controller.BusyRun(Drop(script, k + 1))
      ensures k < |script|
    {
      PollWhileBusy(script, k);
      busy := IsBusy();
    }

    /**
     * `wait_until_idle`: poll, and nap between polls, for as long as the
     * replies are `B`. It sends one poll per leading `B` reply and one more,
     * and raises only when the last reply is a failure. `naps` lists the
     * `time.sleep` calls in order: one per `B`, each of the effective interval.
     */
    method WaitUntilIdle(pollIntervalOverride: Option<real>) returns (r: Result<(), Failure>, naps: seq<real>)
      modifies connection
      ensures connection.sent == old(connection.sent) + Repeat(Cmd.STATUS, Controller.BusyRun(old(connection.replies)) + 1)
      ensures connection.replies == Drop(old(connection.replies), Controller.BusyRun(old(connection.replies)) + 1)
      ensures naps == Repeat(Controller.EffectiveInterval(pollIntervalOverride, pollInterval), Controller.BusyRun(old(connection.replies)))
      ensures r == WaitOutcome(old(connection.replies))
    {
      var interval := Controller.EffectiveInterval(pollIntervalOverride, pollInterval);
      ghost var script := connection.replies;
      ghost var k: nat := 0;
      naps := [];
      var busy := IsBusy();
      while busy == Ok(true)
        invariant connection.sent == old(connection.sent) + Repeat(Cmd.STATUS, k + 1)
        invariant connection.replies == Drop(script, k + 1)
        invariant naps == Repeat(interval, k)
        invariant busy == BusyOfReply(NextReply(Drop(script, k)))
        invariant Controller.BusyRun(script) == k + Controller.BusyRun(Drop(script, k))
        invariant k <= |script|
        decreases |script| - k
      {
        RepeatAppend(old(connection.sent), Cmd.STATUS, k + 1);
        naps := naps + [interval];
        busy := PollAgain(script, k);
        k := k + 1;
      }
      PollWhenIdle(script, k);
      r := Controller.Settle(busy);
    }

    /**
     * Entering `with_poll_interval(p)`: the current interval is saved in the
     * generator's frame and `p` takes its place for the block.
     */
    method EnterPollInterval(p: real) returns (saved: real)
      modifies this
      ensures saved == old(pollInterval) && pollInterval == p
    {
      saved := pollInterval;
      pollInterval := p;
    }

    /** Leaving `with_poll_interval` normally: the saved interval is put back. */
    method ExitPollInterval(saved: real)
      modifies this
      ensures pollInterval == saved
    {
      pollInterval := saved;
    }

    /**
     * `with poll_interval_s(p): wait_until_idle()`: the interval is `p` for
     * the wait and is put back only when the wait returns normally; a raised
     * failure leaves `p` in place, as there is no `finally`.
     */
    method WaitWithPollInterval(p: real) returns (r: Result<(), Failure>, naps: seq<real>)
      modifies this, connection
      ensures connection.sent == old(connection.sent) + Repeat(Cmd.STATUS, Controller.BusyRun(old(connection.replies)) + 1)
      ensures connection.replies == Drop(old(connection.replies), Controller.BusyRun(old(connection.replies)) + 1)
      ensures naps == Repeat(p, Controller.BusyRun(old(connection.replies)))
      ensures r == WaitOutcome(old(connection.replies))
      ensures r.Ok? ==> pollInterval == old(pollInterval)
      ensures r.Err? ==> pollInterval == p
    {
      var saved := EnterPollInterval(p);
      r, naps := WaitUntilIdle(None);
      if r.Ok? {
        ExitPollInterval(saved);
      }
    }

    /** `home`: `!`. */
    method Home() returns (r: Result<string, Failure>)
      modifies connection
      ensures connection.sent == old(connection.sent) + [Cmd.HOME]
      ensures connection.replies == Rest(old(connection.replies))
      ensures r == Reply(Cmd.HOME, NextReply(old(connection.replies)))
    {
      r := SendCommand(Cmd.HOME);
    }

    /** `move`: `M` and the formatted pairs. */
    method Move(coordinates: seq<(string, Cmd.Value)>) returns (r: Result<string, Failure>)
      modifies connection
      ensures connection.sent == old(connection.sent) + [MoveCommand(coordinates)]
      ensures connection.replies == Rest(old(connection.replies))
      ensures r == Reply(MoveCommand(coordinates), NextReply(old(connection.replies)))
    {
      r := SendCommand(MoveCommand(coordinates));
    }
  }
}
