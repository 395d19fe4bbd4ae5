/** The `POST` handler of src/app/api/chat/route.ts: it reads the prompt and
    the file entries of the multipart form, converts the files, rejects a
    request with nothing to send, and lays the user content out for the
    model. The model call itself (`streamText`) is outside the model: the
    handler's result is the message list it would pass on. */
module ChatRoute {
  import opened Wrappers
  import opened Text
  import opened Files
  import opened Parts

  /** A value of `formData.getAll("files")`: a file, or a plain string. */
  datatype FormEntry = FileEntry(file: File) | StringEntry(value: string)

  /** The one role the handler sends. */
  datatype ModelMessage = UserMessage(content: seq<Part>)

  datatype Response =
    | JsonError(status: nat, error: string)   // `NextResponse.json({ ok: false, error }, { status })`
    | ModelStream(messages: seq<ModelMessage>) // the messages handed to `streamText`
    | Thrown(message: string)                  // an exception out of the PDF parser

  const DEFAULT_INSTRUCTION: string := "Analyze the attached content/images and be concise."
  const MISSING_INPUT: string := "Missing input"
  const WARNING_PREFIX: string :=
    "\U{26A0}\U{FE0F} Note: The following files were ignored because they are not supported: "
  const NOTE_PREFIX: string := "Note: "

  /** `(formData.get("prompt") as string) || ""` */
  function PromptOf(entry: Option<string>): (prompt: string)
    ensures entry.None? ==> prompt == ""
    ensures entry.Some? ==> prompt == entry.value
  {
    entry.GetOr("")
  }

  /** `.filter((file) => file instanceof File)` */
  function FilesOf(entries: seq<FormEntry>): (files: seq<File>)
    ensures |files| <= |entries|
  {
    if |entries| == 0 then []
    else
      var rest := FilesOf(entries[..|entries| - 1]);
      match entries[|entries| - 1]
      case FileEntry(f) => rest + [f]
      case StringEntry(_) => rest
  }

  /** The filter keeps exactly the file entries, and finds none exactly
      when every entry is a string. */
  lemma {:induction false} FilesOfKeepsFiles(entries: seq<FormEntry>)
    ensures forall f :: f in FilesOf(entries) <==> FileEntry(f) in entries
    ensures FilesOf(entries) == [] <==> forall e :: e in entries ==> e.StringEntry?
  {
    if |entries| > 0 {
      var init := entries[..|entries| - 1];
      FilesOfKeepsFiles(init);
      assert entries == init + [entries[|entries| - 1]];
    }
  }

  /** `${u.name} (${u.type || "unknown"})` */
  function UnsupportedLabel(u: UnsupportedFile): string
  {
    u.name + " (" + (if u.mimeType == "" then "unknown" else u.mimeType) + ")"
  }

  function Labels(us: seq<UnsupportedFile>): (labels: seq<string>)
    ensures |labels| == |us|
    ensures forall k :: 0 <= k < |us| ==> labels[k] == UnsupportedLabel(us[k])
  {
    seq(|us|, k requires 0 <= k < |us| => UnsupportedLabel(us[k]))
  }

  /** The single aggregated warning about unsupported files. */
  function Warning(us: seq<UnsupportedFile>): string
  {
    WARNING_PREFIX + Join(Labels(us), ", ") + "."
  }

  /** One `Note: ` part per note, in order. */
  function NoteParts(notes: seq<string>): (ps: seq<Part>)
    ensures |ps| == |notes|
    ensures forall k :: 0 <= k < |notes| ==> ps[k] == TextPart(NOTE_PREFIX + notes[k])
  {
    if |notes| == 0 then []
    else NoteParts(notes[..|notes| - 1]) + [TextPart(NOTE_PREFIX + notes[|notes| - 1])]
  }

  /** The parts up to the "Missing input" check: the prompt, if any, then
      the file parts. */
  function Leading(prompt: string, fileParts: seq<Part>): seq<Part>
  {
    (if prompt != "" then [TextPart(prompt)] else []) + fileParts
  }

  /** The parts before the note loop: the leading parts, the default
      instruction at the front when there is no prompt, then the warning. */
  function BeforeNotes(prompt: string, c: Collected): seq<Part>
  {
    var ps := Leading(prompt, c.parts);
    var withInstruction := if prompt == "" then [TextPart(DEFAULT_INSTRUCTION)] + ps else ps;
    withInstruction + WarningParts(c.unsupported)
  }

  /** The warning part: one when a file was unsupported, none otherwise. */
  function WarningParts(us: seq<UnsupportedFile>): (ws: seq<Part>)
    ensures |ws| == if |us| > 0 then 1 else 0
    ensures |us| > 0 ==> ws[0] == TextPart(Warning(us))
  {
    if |us| > 0 then [TextPart(Warning(us))] else []
  }

  /** The user content the handler builds from the prompt and the converted
      files, or `None` when it answers "Missing input". */
  function Compose(prompt: string, c: Collected): Option<seq<Part>>
  {
    if |Leading(prompt, c.parts)| == 0 then None
    else Some(BeforeNotes(prompt, c) + NoteParts(c.notes))
  }

  /** The handler's response to a form. */
  function Respond(promptEntry: Option<string>, entries: seq<FormEntry>,
                   decode: seq<byte> -> string, pdfParse: seq<byte> -> PdfParse): (r: Response)
    ensures r.ModelStream? ==> |r.messages| == 1
  {
    var prompt := PromptOf(promptEntry);
    match CollectAll(FilesOf(entries), decode, pdfParse)
    case Failure(m) => Thrown(m)
    case Success(c) =>
      match Compose(prompt, c)
      case None => JsonError(400, MISSING_INPUT)
      case Some(ps) => ModelStream([UserMessage(ps)])
  }

  /** `POST`: reads the form, converts the files, then lays out the parts. */
  method Post(promptEntry: Option<string>, entries: seq<FormEntry>,
              decode: seq<byte> -> string, pdfParse: seq<byte> -> PdfParse)
    returns (response: Response)
    ensures response == Respond(promptEntry, entries, decode, pdfParse)
  {
    var prompt := PromptOf(promptEntry);
    var files := FilesOf(entries);
    var converted := FilesToParts(files, decode, pdfParse);
    if converted.Failure? {
      return Thrown(converted.error);
    }
    var content := ComposeParts(prompt, converted.value);
    if content.None? {
      return JsonError(400, MISSING_INPUT);
    }
    response := ModelStream([UserMessage(content.value)]);
  }

  /** The body of `POST` after the conversion: `push`, the early return,
      `unshift`, the warning `push` and the loop over the notes. */
  method ComposeParts(prompt: string, c: Collected) returns (content: Option<seq<Part>>)
    ensures content == Compose(prompt, c)
  {
    var parts: seq<Part> := [];
    if prompt != "" {
      parts := parts + [TextPart(prompt)];
    }
    parts := parts + c.parts;
    assert parts == Leading(prompt, c.parts);

    if |parts| == 0 {
      return None;
    }

    if prompt == "" {
      parts := [TextPart(DEFAULT_INSTRUCTION)] + parts;
    }

    if |c.unsupported| > 0 {
      parts := parts + [TextPart(Warning(c.unsupported))];
    }

    ghost var base := parts;
    assert base == BeforeNotes(prompt, c);
    for i := 0 to |c.notes|
      invariant parts == base + NoteParts(c.notes[..i])
    {
      assert c.notes[..i + 1][..i] == c.notes[..i];
      parts := parts + [TextPart(NOTE_PREFIX + c.notes[i])];
    }
    assert c.notes[..|c.notes|] == c.notes;
    content := Some(parts);
  }

  /** "Missing input" is answered exactly when the prompt is empty and no
      file produced a part; notes and unsupported files do not count. */
  lemma ComposeMissingIff(prompt: string, c: Collected)
    ensures Compose(prompt, c).None? <==> prompt == "" && c.parts == []
  {
  }

  /** The layout of the content: a text part first (the prompt, or the
      default instruction when there is none), the file parts in order,
      the warning exactly when a file was unsupported, then the note parts,
      one per note, last. */
  lemma {:induction false} ComposeLayout(prompt: string, c: Collected)
    requires Compose(prompt, c).Some?
    ensures var ps := Compose(prompt, c).value;
      var p := |c.parts|;
      var w := |WarningParts(c.unsupported)|;
      && |ps| == 1 + p + w + |c.notes|
      && ps[0] == TextPart(if prompt != "" then prompt else DEFAULT_INSTRUCTION)
      && ps[1..1 + p] == c.parts
      && ps[1 + p..1 + p + w] == WarningParts(c.unsupported)
      && ps[1 + p + w..] == NoteParts(c.notes)
  {
    var head := TextPart(if prompt != "" then prompt else DEFAULT_INSTRUCTION);
    var w := WarningParts(c.unsupported);
    var notes := NoteParts(c.notes);
    assert BeforeNotes(prompt, c) == [head] + c.parts + w;
    assert Compose(prompt, c).value == [head] + c.parts + w + notes;
    Layout(head, c.parts, w, notes);
  }

  /** Where the pieces of `[h] + mid + w + tail` sit. */
  lemma Layout(h: Part, mid: seq<Part>, w: seq<Part>, tail: seq<Part>)
    ensures var ps := [h] + mid + w + tail;
      && |ps| == 1 + |mid| + |w| + |tail|
      && ps[0] == h
      && ps[1..1 + |mid|] == mid
      && ps[1 + |mid|..1 + |mid| + |w|] == w
      && ps[1 + |mid| + |w|..] == tail
  {
    var ps := [h] + mid + w + tail;
    assert ps[1..1 + |mid|] == mid;
    assert ps[1 + |mid|..1 + |mid| + |w|] == w;
    assert ps[1 + |mid| + |w|..] == tail;
  }

  /** The warning lists every unsupported file by name and type, in order;
      one file gives exactly one label and no separator. */
  lemma {:induction false} WarningOfOne(u: UnsupportedFile)
    ensures u.mimeType != "" ==> Warning([u]) == WARNING_PREFIX + u.name + " (" + u.mimeType + ")."
    ensures u.mimeType == "" ==> Warning([u]) == WARNING_PREFIX + u.name + " (unknown)."
  {
    assert Labels([u]) == [UnsupportedLabel(u)];
  }

  /** The converted files never carry an empty type, so the "unknown"
      fallback of the warning label is never used. */
  lemma WarningNeverSaysUnknown(files: seq<File>, decode: seq<byte> -> string, pdfParse: seq<byte> -> PdfParse)
    requires CollectAll(files, decode, pdfParse).Success?
    ensures var us := CollectAll(files, decode, pdfParse).value.unsupported;
      forall k :: 0 <= k < |us| ==> Labels(us)[k] == us[k].name + " (" + us[k].mimeType + ")"
  {
    CollectAllBounds(files, decode, pdfParse);
    var us := CollectAll(files, decode, pdfParse).value.unsupported;
    forall k | 0 <= k < |us|
      ensures Labels(us)[k] == us[k].name + " (" + us[k].mimeType + ")"
    {
      assert us[k] in us;
    }
  }

  /** A request with no prompt whose files are all of types the
      converter does not accept (a DOCX file among them) is rejected with
      400 "Missing input": DOCX content never reaches the model. */
  lemma DocxOnlyRequestRejected(entries: seq<FormEntry>, decode: seq<byte> -> string, pdfParse: seq<byte> -> PdfParse)
    requires forall f :: FileEntry(f) in entries ==> Classify(EffectiveType(f)) == Other
    ensures Respond(None, entries, decode, pdfParse) == JsonError(400, MISSING_INPUT)
    ensures Respond(Some(""), entries, decode, pdfParse) == JsonError(400, MISSING_INPUT)
  {
    var files := FilesOf(entries);
    FilesOfKeepsFiles(entries);
    forall j | 0 <= j < |files| ensures Classify(EffectiveType(files[j])) == Other {
      assert files[j] in files;
    }
    UnclassifiedGiveNoParts(files, decode, pdfParse);
  }

  /** A prompt alone, with no files, is sent as a single text part. */
  lemma PromptOnly(prompt: string, entries: seq<FormEntry>, decode: seq<byte> -> string, pdfParse: seq<byte> -> PdfParse)
    requires prompt != ""
    requires forall e :: e in entries ==> e.StringEntry?
    ensures Respond(Some(prompt), entries, decode, pdfParse) == ModelStream([UserMessage([TextPart(prompt)])])
  {
    var files := FilesOf(entries);
    FilesOfKeepsFiles(entries);
    assert CollectAll(files, decode, pdfParse) == Success(Collected([], [], []));
    assert Leading(prompt, []) == [TextPart(prompt)];
  }

  /** A prompt that is only whitespace is not blank to the handler: it is
      sent as it is, and no default instruction is added. */
  lemma WhitespacePromptIsSent(entries: seq<FormEntry>, decode: seq<byte> -> string, pdfParse: seq<byte> -> PdfParse)
    requires CollectAll(FilesOf(entries), decode, pdfParse).Success?
    ensures var r := Respond(Some(" "), entries, decode, pdfParse);
      r.ModelStream? && r.messages[0].content[0] == TextPart(" ")
  {
    var c := CollectAll(FilesOf(entries), decode, pdfParse).value;
    ComposeLayout(" ", c);
  }
}
