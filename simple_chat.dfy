/** The text-only chat screen of src/components/chat/Chat.tsx: the draft
    `input`, the `isSending` flag, and `send`/`onSubmit` over the shared
    message log. `crypto.randomUUID` is an oracle: the two ids it returns
    are parameters, fresh with respect to the log. */
module SimpleChat {
  import opened Wrappers
  import opened Text
  import opened ChatStore
  import opened ChatStream

  class ChatPanel {
    var input: string
    var isSending: bool
    const log: ChatLog

    constructor (log: ChatLog)
      ensures input == "" && !isSending && this.log == log
    {
      input := "";
      isSending := false;
      this.log := log;
    }

    /** `send`: a blank draft does nothing; otherwise the user message (the
        trimmed draft) and an empty assistant message are appended, the
        draft is cleared, `isSending` is set, and the reply decides the
        assistant's content. Returns the prompt posted, if any. */
    method Send(userId: string, assistantId: string, reply: Reply) returns (posted: Option<string>)
      requires userId != assistantId && assistantId !in Ids(log.messages)
      modifies this`input, this`isSending, log`messages
      ensures Trim(old(input)) == "" ==>
        posted == None && input == old(input) && isSending == old(isSending) &&
        log.messages == old(log.messages)
      ensures Trim(old(input)) != "" ==>
        posted == Some(Trim(old(input))) && input == "" && isSending == StillSending(reply) &&
        log.messages == Exchange(old(log.messages), Message(userId, User, Trim(old(input))), assistantId, reply)
    {
      var prompt := Trim(input);
      if prompt == "" {
        return None;
      }
      input := "";
      isSending := true;
      posted := Some(prompt);
      isSending := PostExchange(log, Message(userId, User, prompt), assistantId, reply);
    }

    /** `onSubmit`: ignored while a request is in flight. */
    method OnSubmit(userId: string, assistantId: string, reply: Reply) returns (posted: Option<string>)
      requires userId != assistantId && assistantId !in Ids(log.messages)
      modifies this`input, this`isSending, log`messages
      ensures old(isSending) ==>
        posted == None && input == old(input) && isSending && log.messages == old(log.messages)
      ensures !old(isSending) && Trim(old(input)) == "" ==>
        posted == None && input == old(input) && !isSending && log.messages == old(log.messages)
      ensures !old(isSending) && Trim(old(input)) != "" ==>
        posted == Some(Trim(old(input))) && input == "" && isSending == StillSending(reply) &&
        log.messages == Exchange(old(log.messages), Message(userId, User, Trim(old(input))), assistantId, reply)
    {
      if isSending {
        return None;
      }
      posted := Send(userId, assistantId, reply);
    }
  }
}
