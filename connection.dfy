/**
 * The serial link as the session layer sees it: commands go out one line at a
 * time and each read takes the next reply. The port itself is replaced by a
 * log of the commands sent and a queue of scripted replies, each one as
 * `read_response` hands it over (decoded and stripped); a read from an
 * exhausted script gives the empty reply a timed-out `readline` gives.
 */
module Connection {
  /** The reply a read yields: the next one, or the empty reply. */
  function NextReply(replies: seq<string>): string
  {
    if replies == [] then "" else replies[0]
  }

  /** The lines left after one read. */
  function Rest(replies: seq<string>): seq<string>
  {
    if replies == [] then [] else replies[1..]
  }

  /** The lines left after `k` reads. */
  function Drop(replies: seq<string>, k: nat): (rest: seq<string>)
    ensures |rest| == if k <= |replies| then |replies| - k else 0
  {
    if k <= |replies| then replies[k..] else []
  }

  /** One more read of what `k` reads left. */
  lemma DropNext(replies: seq<string>, k: nat)
    ensures Drop(replies, k + 1) == Rest(Drop(replies, k))
  {
    if k + 1 <= |replies| {
      assert replies[k..][1..] == replies[k + 1..];
    }
  }

  /** `n` copies of `x`. */
  function Repeat<T>(x: T, n: nat): (xs: seq<T>)
    ensures |xs| == n
  {
    if n == 0 then [] else Repeat(x, n - 1) + [x]
  }

  /** Every entry of `Repeat(x, n)` is `x`. */
  lemma {:induction false} RepeatIsConstant<T>(x: T, n: nat)
    ensures forall k :: 0 <= k < n ==> Repeat(x, n)[k] == x
  {
    if n > 0 {
      RepeatIsConstant(x, n - 1);
    }
  }

  /** One more copy at the end of a log of copies. */
  lemma RepeatAppend<T>(log: seq<T>, x: T, n: nat)
    ensures log + Repeat(x, n) + [x] == log + Repeat(x, n + 1)
  {
    assert Repeat(x, n + 1) == Repeat(x, n) + [x];
  }

  /** `SerialConnection` with its port replaced by a script. */
  class ScriptedConnection {
    /** Every command sent, in order. */
    var sent: seq<string>
    /** The reply lines not read yet. */
    var replies: seq<string>

    constructor(script: seq<string>)
      ensures sent == [] && replies == script
    {
      sent := [];
      replies := script;
    }

    /** `send_command`: the command goes out unchanged (the carriage return is the port's framing). */
    method SendCommand(command: string)
      modifies this
      ensures sent == old(sent) + [command]
      ensures replies == old(replies)
    {
      sent := sent + [command];
    }

    /** `read_response`: the next reply; the empty reply once the script is exhausted. */
    method ReadResponse() returns (response: string)
      modifies this
      ensures response == NextReply(old(replies))
      ensures replies == Rest(old(replies))
      ensures sent == old(sent)
    {
      if replies == [] {
        response := "";
      } else {
        response := replies[0];
        replies := replies[1..];
      }
    }
  }
}
