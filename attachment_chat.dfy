/** The chat screen with attachments, src/components/organisms/chat/Chat.tsx:
    the pending `files`, `removeFile`, and `send`, which posts the prompt
    and the files as a multipart form and streams the answer into the
    shared log. Object URLs are opaque strings; revoking one is reported as
    the URL revoked. `crypto.randomUUID` is an oracle giving fresh ids. */
module AttachmentChat {
  import opened Wrappers
  import opened Files
  import opened ComposerFiles
  import opened Parts
  import opened ChatRoute
  import opened ChatStore
  import opened ChatStream

  const ATTACHMENT_PLACEHOLDER: string := "(attachment)"

  /** `prev.find((file) => file.id === id)` */
  function FindById(files: seq<SelectedFile>, id: string): (r: Option<SelectedFile>)
    ensures r.None? <==> forall k :: 0 <= k < |files| ==> files[k].id != id
    ensures r.Some? ==> exists k :: 0 <= k < |files| && files[k] == r.value && r.value.id == id &&
                                    forall j :: 0 <= j < k ==> files[j].id != id
  {
    if |files| == 0 then None
    else if files[0].id == id then Some(files[0])
    else
      var r := FindById(files[1..], id);
      assert forall k :: 1 <= k < |files| ==> files[k] == files[1..][k - 1];
      if r.Some? then
        var k :| 0 <= k < |files[1..]| && files[1..][k] == r.value && r.value.id == id &&
                 forall j :: 0 <= j < k ==> files[1..][j].id != id;
        assert files[k + 1] == r.value;
        r
      else r
  }

  /** `prev.filter((file) => file.id !== id)` */
  function Without(files: seq<SelectedFile>, id: string): (r: seq<SelectedFile>)
    ensures |r| <= |files|
  {
    if |files| == 0 then []
    else if files[0].id == id then Without(files[1..], id)
    else [files[0]] + Without(files[1..], id)
  }

  /** The URL `removeFile` revokes: the first match's, when it has a
      truthy one. */
  function RevokedUrl(files: seq<SelectedFile>, id: string): Option<string>
  {
    match FindById(files, id)
    case None => None
    case Some(target) =>
      if target.url.Some? && target.url.value != "" then target.url else None
  }

  /** The "files" entries of the form, one per pending file, in order. */
  function FileEntries(files: seq<SelectedFile>): (entries: seq<FormEntry>)
    ensures |entries| == |files|
    ensures forall k :: 0 <= k < |files| ==> entries[k] == FileEntry(files[k].file)
  {
    seq(|files|, k requires 0 <= k < |files| => FileEntry(files[k].file))
  }

  function Payloads(files: seq<SelectedFile>): (r: seq<File>)
    ensures |r| == |files|
    ensures forall k :: 0 <= k < |files| ==> r[k] == files[k].file
  {
    seq(|files|, k requires 0 <= k < |files| => files[k].file)
  }

  /** The request body of `send`. */
  datatype Form = Form(prompt: string, entries: seq<FormEntry>)

  /** `prompt || "(attachment)"` */
  function UserContent(prompt: string): (content: string)
    ensures content != ""
    ensures prompt != "" ==> content == prompt
  {
    if prompt != "" then prompt else ATTACHMENT_PLACEHOLDER
  }

  class AttachmentPanel {
    var isSending: bool
    var files: seq<SelectedFile>
    const log: ChatLog

    constructor (log: ChatLog)
      ensures !isSending && files == [] && this.log == log
    {
      isSending := false;
      files := [];
      this.log := log;
    }

    /** `removeFile` */
    method RemoveFile(id: string) returns (revoked: Option<string>)
      modifies this`files
      ensures files == Without(old(files), id)
      ensures revoked == RevokedUrl(old(files), id)
    {
      var target := FindById(files, id);
      revoked := None;
      if target.Some? && target.value.url.Some? && target.value.url.value != "" {
        revoked := target.value.url;
      }
      files := Without(files, id);
    }

    /** `send`: appends the user and assistant messages, sets `isSending`,
        builds the form (the prompt, then one "files" entry per pending
        file), clears the pending files, then handles the reply. */
    method Send(prompt: string, userId: string, assistantId: string, reply: Reply) returns (form: Form)
      requires userId != assistantId && assistantId !in Ids(log.messages)
      modifies this`isSending, this`files, log`messages
      ensures form == Form(prompt, FileEntries(old(files)))
      ensures files == []
      ensures isSending == StillSending(reply)
      ensures log.messages ==
        Exchange(old(log.messages), Message(userId, User, UserContent(prompt)), assistantId, reply)
    {
      ghost var before := log.messages;
      var userMessage := Message(userId, User, UserContent(prompt));
      log.AddMessage(userMessage);
      log.AddMessage(Message(assistantId, Assistant, ""));
      isSending := true;

      var entries: seq<FormEntry> := [];
      for i := 0 to |files|
        invariant entries == FileEntries(files[..i])
      {
        entries := entries + [FileEntry(files[i].file)];
      }
      assert files[..|files|] == files;
      form := Form(prompt, entries);
      files := [];

      ReplyAfterPair(before, userMessage, assistantId, reply);
      var stillSending := HandleReply(log, assistantId, reply);
      isSending := stillSending;
    }
  }

  /** Putting a file in front shifts every position by one. */
  lemma ConsShifts(f: SelectedFile, rest: seq<SelectedFile>, k: nat)
    requires k < |rest|
    ensures ([f] + rest)[k + 1] == rest[k]
  {
  }

  /** `removeFile` keeps the other files in their order: two kept files
      stay in the same relative order. */
  lemma {:induction false} WithoutKeepsOrder(files: seq<SelectedFile>, id: string, i: nat, j: nat)
    requires i < j < |files| && files[i].id != id && files[j].id != id
    ensures exists a, b ::
      0 <= a < b < |Without(files, id)| && Without(files, id)[a] == files[i] && Without(files, id)[b] == files[j]
    decreases |files|
  {
    var rest := Without(files[1..], id);
    if i == 0 {
      WithoutMembers(files[1..], id);
      assert files[j] == files[1..][j - 1];
      var b :| 0 <= b < |rest| && rest[b] == files[j];
      var r := [files[0]] + rest;
      assert Without(files, id) == r;
      assert r[0] == files[i] && r[b + 1] == files[j];
    } else {
      WithoutKeepsOrder(files[1..], id, i - 1, j - 1);
      var a, b :| 0 <= a < b < |rest| && rest[a] == files[1..][i - 1] && rest[b] == files[1..][j - 1];
      assert rest[a] == files[i] && rest[b] == files[j];
      if files[0].id == id {
        assert Without(files, id) == rest;
      } else {
        var r := [files[0]] + rest;
        assert Without(files, id) == r;
        ConsShifts(files[0], rest, a);
        ConsShifts(files[0], rest, b);
      }
    }
  }

  /** `removeFile` keeps exactly the files whose id differs. */
  lemma {:induction false} WithoutMembers(files: seq<SelectedFile>, id: string)
    ensures forall f :: f in Without(files, id) <==> f in files && f.id != id
  {
    if |files| > 0 {
      WithoutMembers(files[1..], id);
      assert files == [files[0]] + files[1..];
    }
  }

  /** Removing an id no file has changes nothing. */
  lemma {:induction false} WithoutAbsent(files: seq<SelectedFile>, id: string)
    requires forall k :: 0 <= k < |files| ==> files[k].id != id
    ensures Without(files, id) == files
  {
    if |files| > 0 {
      WithoutAbsent(files[1..], id);
      assert [files[0]] + files[1..] == files;
    }
  }

  /** Removing the same id twice is removing it once. */
  lemma {:induction false} WithoutIdempotent(files: seq<SelectedFile>, id: string)
    ensures Without(Without(files, id), id) == Without(files, id)
  {
    var r := Without(files, id);
    WithoutMembers(files, id);
    forall k | 0 <= k < |r| ensures r[k].id != id {
      assert r[k] in r;
    }
    WithoutAbsent(r, id);
  }

  /** A URL is revoked only when a file with the id exists and carries it. */
  lemma RevokedUrlBelongsToTarget(files: seq<SelectedFile>, id: string)
    ensures RevokedUrl(files, id).Some? ==>
      exists k :: 0 <= k < |files| && files[k].id == id && files[k].url == RevokedUrl(files, id)
    ensures (forall k :: 0 <= k < |files| ==> files[k].id != id) ==> RevokedUrl(files, id).None?
  {
  }

  /** The route reads back exactly the pending files, in order, and the
      prompt as typed. */
  lemma {:induction false} FormRoundTrip(prompt: string, files: seq<SelectedFile>)
    ensures FilesOf(FileEntries(files)) == Payloads(files)
    ensures PromptOf(Some(prompt)) == prompt
  {
    if |files| > 0 {
      var n := |files|;
      var init := files[..n - 1];
      FormRoundTrip(prompt, init);
      var entries := FileEntries(files);
      assert entries[..n - 1] == FileEntries(init);
      assert entries[n - 1] == FileEntry(files[n - 1].file);
      assert FilesOf(entries) == FilesOf(FileEntries(init)) + [files[n - 1].file];
      assert Payloads(files) == Payloads(init) + [files[n - 1].file];
    }
  }

  /** An attachment sent without a prompt shows as "(attachment)" in the
      log, but the route sees an empty prompt and leads with its default
      instruction. */
  lemma AttachmentOnlySend(files: seq<SelectedFile>, decode: seq<byte> -> string, pdfParse: seq<byte> -> PdfParse)
    requires CollectAll(Payloads(files), decode, pdfParse).Success?
    requires CollectAll(Payloads(files), decode, pdfParse).value.parts != []
    ensures UserContent("") == ATTACHMENT_PLACEHOLDER
    ensures var r := Respond(Some(""), FileEntries(files), decode, pdfParse);
      r.ModelStream? && r.messages[0].content[0] == TextPart(DEFAULT_INSTRUCTION)
  {
    FormRoundTrip("", files);
    ComposeLayout("", CollectAll(Payloads(files), decode, pdfParse).value);
  }
}
