/**
 * The rule `Player.send` applies before writing to its socket: write only
 * while the socket is open, and only when the rendered state differs from
 * the last one written. The JSON rendering is abstracted to a snapshot of
 * any type with equality; the socket to whether it is open and the list of
 * messages written.
 */
module Sync {

  datatype Channel<S> = Channel(open: bool, lastMessage: S, sent: seq<S>)

  /** `lastMessage` is the last message written, once anything was written. */
  predicate Consistent<S(==)>(c: Channel<S>)
  {
    |c.sent| > 0 ==> c.lastMessage == c.sent[|c.sent| - 1]
  }

  /** No message is written twice in a row. */
  predicate NoRepeats<S(==)>(s: seq<S>)
  {
    forall k :: 0 < k < |s| ==> s[k] != s[k - 1]
  }

  /**
   * The states of `messages` that differ from the state before them, the
   * first being compared with `initial`: what a receiver that only hears
   * about changes is told.
   */
  function Changes<S(==)>(initial: S, messages: seq<S>): seq<S>
  {
    if |messages| == 0 then []
    else
      var n := |messages| - 1;
      var before := if n == 0 then initial else messages[n - 1];
      Changes(initial, messages[..n]) + (if messages[n] != before then [messages[n]] else [])
  }

  /** Extending the states by one adds that state exactly when it differs from the one before. */
  lemma ChangesStep<S>(initial: S, messages: seq<S>, i: nat)
    requires i < |messages|
    ensures var before := if i == 0 then initial else messages[i - 1];
            Changes(initial, messages[..i + 1])
              == Changes(initial, messages[..i]) + (if messages[i] != before then [messages[i]] else [])
  {
    assert messages[..i + 1][..i] == messages[..i];
  }

  /** `Player.send` with the rendered state `message`. */
  function Send<S(==)>(c: Channel<S>, message: S): (r: Channel<S>)
    ensures r.open == c.open
    ensures r.sent == c.sent + [message] <==> c.open && message != c.lastMessage
    ensures r.sent == c.sent <==> !(c.open && message != c.lastMessage)
    ensures Consistent(c) ==> Consistent(r) && r.lastMessage == (if c.open then message else c.lastMessage)
  {
    if c.open && message != c.lastMessage then
      c.(lastMessage := message, sent := c.sent + [message])
    else c
  }

  /** Sending the same state twice writes it at most once. */
  lemma SendIdempotent<S>(c: Channel<S>, message: S)
    ensures Send(Send(c, message), message) == Send(c, message)
  {
  }

  /** On a consistent channel, `send` never writes the same message twice in a row. */
  lemma SendNoRepeats<S>(c: Channel<S>, message: S)
    requires Consistent(c) && NoRepeats(c.sent)
    ensures NoRepeats(Send(c, message).sent)
  {
  }

  /**
   * What `r` has become after `c` was sent the first `i` of `messages`:
   * still consistent, repeating nothing, the old writes kept as a prefix
   * and, when open, exactly the changes among those states appended.
   */
  ghost predicate SentPrefix<S>(c: Channel<S>, r: Channel<S>, messages: seq<S>, i: nat)
    requires i <= |messages|
  {
    && Consistent(r) && NoRepeats(r.sent) && r.open == c.open
    && |r.sent| >= |c.sent| && r.sent[..|c.sent|] == c.sent
    && (forall k :: |c.sent| <= k < |r.sent| ==> r.sent[k] in messages[..i])
    && (!c.open ==> r == c)
    && (c.open && i > 0 ==> r.lastMessage == messages[i - 1])
    && (c.open && i == 0 ==> r.lastMessage == c.lastMessage)
    && (c.open ==> r.sent == c.sent + Changes(c.lastMessage, messages[..i]))
  }

  /** One more `send` extends the prefix by one state. */
  lemma {:induction false} SendStep<S>(c: Channel<S>, r: Channel<S>, messages: seq<S>, i: nat)
    requires i < |messages| && SentPrefix(c, r, messages, i)
    ensures SentPrefix(c, Send(r, messages[i]), messages, i + 1)
  {
    ChangesStep(c.lastMessage, messages, i);
    SendNoRepeats(r, messages[i]);
    assert messages[..i] <= messages[..i + 1];
  }

  /**
   * A sequence of `send` calls, one per state change the game renders: an
   * open channel writes exactly the states that differ from the one before
   * (`Changes`), none twice in a row, and ends on the last state; a closed
   * channel writes nothing.
   */
  method SendAll<S(==)>(c: Channel<S>, messages: seq<S>) returns (r: Channel<S>)
    requires Consistent(c) && NoRepeats(c.sent)
    ensures Consistent(r) && NoRepeats(r.sent) && r.open == c.open
    ensures |r.sent| >= |c.sent| && r.sent[..|c.sent|] == c.sent
    ensures forall k :: |c.sent| <= k < |r.sent| ==> r.sent[k] in messages
    ensures !c.open ==> r == c
    ensures c.open && |messages| > 0 ==> r.lastMessage == messages[|messages| - 1]
    ensures c.open ==> r.sent == c.sent + Changes(c.lastMessage, messages)
  {
    r := c;
    var i := 0;
    while i < |messages|
      invariant 0 <= i <= |messages|
      invariant SentPrefix(c, r, messages, i)
    {
      SendStep(c, r, messages, i);
      r := Send(r, messages[i]);
      i := i + 1;
    }
    assert messages[..i] == messages;
  }
}
