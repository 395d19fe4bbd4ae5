/** The message log of src/store/chat.ts (`useChatStore`): append, update by
    id with a partial message, and reset. Persistence to session storage and
    the hydration flag are not modelled. */
module ChatStore {
  import opened Wrappers

  datatype Role = User | Assistant

  /** `Message` of src/types/chat.ts */
  datatype Message = Message(id: string, role: Role, content: string)

  /** `Partial<Message>`: each field may be absent. */
  datatype MessagePatch = MessagePatch(id: Option<string>, role: Option<Role>, content: Option<string>)

  /** `{ content }` */
  function ContentPatch(content: string): MessagePatch
  {
    MessagePatch(None, None, Some(content))
  }

  /** `{ ...m, ...partial }`: the fields present in the patch win. */
  function Overlay(m: Message, p: MessagePatch): (r: Message)
    ensures p.id.Some? ==> r.id == p.id.value
    ensures p.role.Some? ==> r.role == p.role.value
    ensures p.content.Some? ==> r.content == p.content.value
    ensures p.id.None? ==> r.id == m.id
    ensures p.role.None? ==> r.role == m.role
    ensures p.content.None? ==> r.content == m.content
  {
    Message(p.id.GetOr(m.id), p.role.GetOr(m.role), p.content.GetOr(m.content))
  }

  /** `messages.map((m) => (m.id === id ? { ...m, ...partial } : m))` */
  function UpdateById(ms: seq<Message>, id: string, p: MessagePatch): (r: seq<Message>)
    ensures |r| == |ms|
    ensures forall k :: 0 <= k < |ms| && ms[k].id != id ==> r[k] == ms[k]
    ensures forall k :: 0 <= k < |ms| && ms[k].id == id ==> r[k] == Overlay(ms[k], p)
  {
    seq(|ms|, k requires 0 <= k < |ms| => if ms[k].id == id then Overlay(ms[k], p) else ms[k])
  }

  function Ids(ms: seq<Message>): (ids: seq<string>)
    ensures |ids| == |ms|
    ensures forall k :: 0 <= k < |ms| ==> ids[k] == ms[k].id
  {
    seq(|ms|, k requires 0 <= k < |ms| => ms[k].id)
  }

  lemma IdsAppend(ms: seq<Message>, m: Message)
    ensures Ids(ms + [m]) == Ids(ms) + [m.id]
  {
    assert forall k :: 0 <= k < |ms| ==> (ms + [m])[k] == ms[k];
  }

  /** Overlaying an empty patch changes nothing. */
  lemma OverlayEmpty(m: Message)
    ensures Overlay(m, MessagePatch(None, None, None)) == m
  {
  }

  /** Overlaying the same patch twice is overlaying it once. */
  lemma OverlayIdempotent(m: Message, p: MessagePatch)
    ensures Overlay(Overlay(m, p), p) == Overlay(m, p)
  {
  }

  /** An id no message has leaves the log as it is. */
  lemma {:induction false} UpdateUnknownId(ms: seq<Message>, id: string, p: MessagePatch)
    requires id !in Ids(ms)
    ensures UpdateById(ms, id, p) == ms
  {
    forall k | 0 <= k < |ms| ensures ms[k].id != id {
      assert Ids(ms)[k] == ms[k].id;
    }
  }

  /** Updating twice with the same patch is updating once, when the patch
      does not move the message to another id. */
  lemma {:induction false} UpdateIdempotent(ms: seq<Message>, id: string, p: MessagePatch)
    requires p.id.None? || p.id == Some(id)
    ensures UpdateById(UpdateById(ms, id, p), id, p) == UpdateById(ms, id, p)
  {
    var once := UpdateById(ms, id, p);
    forall k | 0 <= k < |ms| ensures UpdateById(once, id, p)[k] == once[k] {
      if ms[k].id == id {
        OverlayIdempotent(ms[k], p);
      }
    }
  }

  /** Of two content updates of the same message, only the later one shows. */
  lemma {:induction false} LastContentWins(ms: seq<Message>, id: string, a: string, b: string)
    ensures UpdateById(UpdateById(ms, id, ContentPatch(a)), id, ContentPatch(b)) ==
            UpdateById(ms, id, ContentPatch(b))
  {
    var first := UpdateById(ms, id, ContentPatch(a));
    forall k | 0 <= k < |ms|
      ensures UpdateById(first, id, ContentPatch(b))[k] == UpdateById(ms, id, ContentPatch(b))[k]
    {
    }
  }

  /** An update that keeps ids (no `id` in the patch) keeps the list of ids,
      and so the order of the messages. */
  lemma {:induction false} UpdateKeepsIds(ms: seq<Message>, id: string, p: MessagePatch)
    requires p.id.None?
    ensures Ids(UpdateById(ms, id, p)) == Ids(ms)
  {
  }

  /** Updating the id of the message just appended, when no earlier message
      has that id, changes only that message. */
  lemma {:induction false} UpdateLast(ms: seq<Message>, m: Message, p: MessagePatch)
    requires m.id !in Ids(ms)
    ensures UpdateById(ms + [m], m.id, p) == ms + [Overlay(m, p)]
  {
    UpdateUnknownId(ms, m.id, p);
    var r := UpdateById(ms + [m], m.id, p);
    forall k | 0 <= k < |ms| ensures r[k] == ms[k] {
      assert (ms + [m])[k] == ms[k];
      assert Ids(ms)[k] == ms[k].id;
    }
  }

  /** The `messages` field of the store and its three updaters. */
  class ChatLog {
    var messages: seq<Message>

    constructor ()
      ensures messages == []
    {
      messages := [];
    }

    /** `addMessage`: appends; earlier messages are unchanged. */
    method AddMessage(m: Message)
      modifies this`messages
      ensures messages == old(messages) + [m]
    {
      messages := messages + [m];
    }

    /** `updateMessage`: every message with the id gets the patch overlaid. */
    method UpdateMessage(id: string, p: MessagePatch)
      modifies this`messages
      ensures messages == UpdateById(old(messages), id, p)
    {
      messages := UpdateById(messages, id, p);
    }

    /** `reset` */
    method Reset()
      modifies this`messages
      ensures messages == []
    {
      messages := [];
    }
  }
}
