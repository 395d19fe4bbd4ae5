/** What both chat screens (src/components/chat/Chat.tsx and
    src/components/organisms/chat/Chat.tsx) do with the answer to their
    `fetch`: an error text on a failed response, otherwise the streaming loop
    that grows an accumulator chunk by chunk and writes it into the
    assistant message after each chunk. The network is abstracted: a reply
    is a finite sequence of already-decoded chunks, possibly followed by a
    failing read. */
module ChatStream {
  import opened Wrappers
  import opened Text
  import opened ChatStore

  /** A response body: the chunks `reader.read()` yields before it reports
      `done`, or before it throws when `readFails` holds. */
  datatype Body = Body(chunks: seq<string>, readFails: bool)

  /** The outcome of `fetch`: it throws, or gives a response whose body may
      be missing. */
  datatype Reply = FetchThrows | Reply(ok: bool, body: Option<Body>)

  const ERROR_TEXT: string := "Error: Unable to get response."

  /** `!res.ok || !res.body` */
  predicate Failed(reply: Reply)
    requires reply.Reply?
  {
    !reply.ok || reply.body.None?
  }

  /** The assistant message's content once the request is over (or stuck). */
  function FinalContent(reply: Reply): string
  {
    match reply
    case FetchThrows => ""
    case Reply(ok, body) => if !ok || body.None? then ERROR_TEXT else Concat(body.value.chunks)
  }

  /** Whether `isSending` is still true afterwards: `send` has no
      `try`/`catch`, so a throwing `fetch` or a throwing read leaves it set. */
  predicate StillSending(reply: Reply)
  {
    reply.FetchThrows? || (!Failed(reply) && reply.body.value.readFails)
  }

  /** The log after the reply has been handled, given the log with the new
      assistant message in it. */
  function AfterReply(ms: seq<Message>, assistantId: string, reply: Reply): seq<Message>
  {
    match reply
    case FetchThrows => ms
    case Reply(ok, body) =>
      if !ok || body.None? then UpdateById(ms, assistantId, ContentPatch(ERROR_TEXT))
      else if body.value.chunks == [] then ms
      else UpdateById(ms, assistantId, ContentPatch(Concat(body.value.chunks)))
  }

  /** The streaming loop: after chunk `k` the log holds the assistant
      message with the concatenation of chunks `0..k` as its content, so
      every value shown is a prefix of the final text. `shown` records the
      log after each chunk. */
  method Consume(log: ChatLog, assistantId: string, chunks: seq<string>)
    returns (accumulator: string, ghost shown: seq<seq<Message>>)
    modifies log`messages
    ensures accumulator == Concat(chunks)
    ensures log.messages == if chunks == [] then old(log.messages)
                            else UpdateById(old(log.messages), assistantId, ContentPatch(accumulator))
    ensures |shown| == |chunks|
    ensures forall k :: 0 <= k < |chunks| ==>
      shown[k] == UpdateById(old(log.messages), assistantId, ContentPatch(Concat(chunks[..k + 1])))
    ensures forall k :: 0 < k <= |chunks| ==> Concat(chunks[..k]) <= accumulator
  {
    accumulator := "";
    shown := [];
    for i := 0 to |chunks|
      invariant accumulator == Concat(chunks[..i])
      invariant log.messages == if i == 0 then old(log.messages)
                                else UpdateById(old(log.messages), assistantId, ContentPatch(accumulator))
      invariant |shown| == i
      invariant forall k :: 0 <= k < i ==>
        shown[k] == UpdateById(old(log.messages), assistantId, ContentPatch(Concat(chunks[..k + 1])))
    {
      assert chunks[..i + 1][..i] == chunks[..i];
      ghost var before := accumulator;
      accumulator := accumulator + chunks[i];
      if i > 0 {
        LastContentWins(old(log.messages), assistantId, before, accumulator);
      }
      log.UpdateMessage(assistantId, ContentPatch(accumulator));
      shown := shown + [log.messages];
    }
    assert chunks[..|chunks|] == chunks;
    forall k | 0 < k <= |chunks| ensures Concat(chunks[..k]) <= accumulator {
      ConcatPrefix(chunks, k, |chunks|);
    }
  }

  /** Everything after `await fetch(...)`: the error overwrite, or the
      streaming loop; returns the new value of `isSending`. */
  method HandleReply(log: ChatLog, assistantId: string, reply: Reply) returns (isSending: bool)
    modifies log`messages
    ensures log.messages == AfterReply(old(log.messages), assistantId, reply)
    ensures isSending == StillSending(reply)
  {
    if reply.FetchThrows? {
      return true;
    }
    if !reply.ok || reply.body.None? {
      log.UpdateMessage(assistantId, ContentPatch(ERROR_TEXT));
      return false;
    }
    var body := reply.body.value;
    var accumulator, shown := Consume(log, assistantId, body.chunks);
    isSending := body.readFails;
  }

  /** The common course of both chat screens' `send` once the prompt is
      accepted: append the user message and an empty assistant message,
      then handle the reply to the request. */
  method PostExchange(log: ChatLog, user: Message, assistantId: string, reply: Reply) returns (isSending: bool)
    requires user.id != assistantId && assistantId !in Ids(log.messages)
    modifies log`messages
    ensures log.messages == Exchange(old(log.messages), user, assistantId, reply)
    ensures isSending == StillSending(reply)
  {
    ReplyAfterPair(log.messages, user, assistantId, reply);
    log.AddMessage(user);
    log.AddMessage(Message(assistantId, Assistant, ""));
    isSending := HandleReply(log, assistantId, reply);
  }

  /** When the assistant message was just appended under a fresh id, the
      reply touches that message alone and leaves it holding
      `FinalContent`. */
  lemma {:induction false} ReplyTouchesOnlyAssistant(prefix: seq<Message>, assistantId: string, reply: Reply)
    requires assistantId !in Ids(prefix)
    ensures AfterReply(prefix + [Message(assistantId, Assistant, "")], assistantId, reply) ==
            prefix + [Message(assistantId, Assistant, FinalContent(reply))]
  {
    var m := Message(assistantId, Assistant, "");
    match reply
    case FetchThrows =>
    case Reply(ok, body) =>
      if !ok || body.None? {
        UpdateLast(prefix, m, ContentPatch(ERROR_TEXT));
      } else if body.value.chunks == [] {
      } else {
        UpdateLast(prefix, m, ContentPatch(Concat(body.value.chunks)));
      }
  }

  /** The log after a send: the user message, then the assistant message
      holding what the reply left in it. */
  function Exchange(ms: seq<Message>, user: Message, assistantId: string, reply: Reply): seq<Message>
  {
    ms + [user, Message(assistantId, Assistant, FinalContent(reply))]
  }

  /** Handling the reply after appending the pair gives the exchange, when
      the assistant id is fresh. */
  lemma {:induction false} ReplyAfterPair(ms: seq<Message>, user: Message, assistantId: string, reply: Reply)
    requires user.id != assistantId && assistantId !in Ids(ms)
    ensures AfterReply(ms + [user] + [Message(assistantId, Assistant, "")], assistantId, reply) ==
            Exchange(ms, user, assistantId, reply)
  {
    IdsAppend(ms, user);
    ReplyTouchesOnlyAssistant(ms + [user], assistantId, reply);
    assert ms + [user] + [Message(assistantId, Assistant, FinalContent(reply))] ==
           Exchange(ms, user, assistantId, reply);
  }

  /** The user message of an exchange is kept as appended, whatever the
      reply; the assistant message is last. */
  lemma ExchangeShape(ms: seq<Message>, user: Message, assistantId: string, reply: Reply)
    ensures var r := Exchange(ms, user, assistantId, reply);
      |r| == |ms| + 2 && r[..|ms|] == ms && r[|ms|] == user &&
      r[|ms| + 1] == Message(assistantId, Assistant, FinalContent(reply))
  {
    var r := Exchange(ms, user, assistantId, reply);
    assert r[..|ms|] == ms;
  }

  /** A failed response leaves the fixed error text and clears the flag;
      a complete stream leaves the whole text and clears the flag. */
  lemma ReplyOutcomes(chunks: seq<string>, status: bool)
    ensures FinalContent(Reply(false, Some(Body(chunks, status)))) == ERROR_TEXT
    ensures FinalContent(Reply(true, None)) == ERROR_TEXT
    ensures !StillSending(Reply(false, None)) && !StillSending(Reply(true, None))
    ensures FinalContent(Reply(true, Some(Body(chunks, false)))) == Concat(chunks)
    ensures !StillSending(Reply(true, Some(Body(chunks, false))))
    ensures StillSending(FetchThrows) && StillSending(Reply(true, Some(Body(chunks, true))))
  {
  }
}
