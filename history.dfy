/**
 * The chat history of server2.js, which is sent to the language model as
 * context: after a model reply the user's message and the reply are pushed,
 * and then, when the history is longer than twenty entries, only its last
 * twenty are kept (`chatHistory.slice(-20)`). The bound counts entries, one
 * per message, so it keeps the last ten exchanges.
 */
module History {

  /** How many entries `slice(-20)` keeps. */
  const Limit: nat := 20

  /** `if (h.length > 20) h = h.slice(-20)`: the most recent entries, at most `Limit` of them. */
  function KeepRecent<T>(h: seq<T>): (r: seq<T>)
    ensures |r| <= |h| && |r| <= Limit
    ensures |r| == |h| || |r| == Limit
    ensures r == h[|h| - |r|..]
  {
    if |h| > Limit then h[|h| - Limit..] else h
  }

  /**
   * One exchange recorded after a model reply: push the message and the reply,
   * then trim. The history then holds two to `Limit` entries, ends with the
   * message and its reply, and is what it was plus those two with only the
   * oldest entries dropped.
   */
  function PushExchange<T>(h: seq<T>, message: T, reply: T): (r: seq<T>)
    ensures 2 <= |r| <= Limit && |r| <= |h| + 2
    ensures |r| == if |h| + 2 > Limit then Limit else |h| + 2
    ensures r[|r| - 2] == message && r[|r| - 1] == reply
    ensures r == (h + [message, reply])[|h| + 2 - |r|..]
  {
    var all := h + [message, reply];
    assert all[|all| - 2] == message && all[|all| - 1] == reply;
    KeepRecent(all)
  }

  /** While there is room, nothing is dropped. */
  lemma ExchangeBelowLimit<T>(h: seq<T>, message: T, reply: T)
    requires |h| + 2 <= Limit
    ensures PushExchange(h, message, reply) == h + [message, reply]
  {
  }

  /**
   * A history already at or over the limit (a completed booking pushes without
   * trimming) keeps only its last `Limit - 2` entries before the new exchange.
   */
  lemma ExchangeOverLimit<T>(h: seq<T>, message: T, reply: T)
    requires |h| >= Limit
    ensures PushExchange(h, message, reply) == h[|h| + 2 - Limit..] + [message, reply]
  {
    assert (h + [message, reply])[|h| + 2 - Limit..] == h[|h| + 2 - Limit..] + [message, reply];
  }

  /** A full history loses exactly its two oldest entries. */
  lemma ExchangeAtLimit<T>(h: seq<T>, message: T, reply: T)
    requires |h| == Limit
    ensures PushExchange(h, message, reply) == h[2..] + [message, reply]
  {
    assert (h + [message, reply])[2..] == h[2..] + [message, reply];
  }
}
