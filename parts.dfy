/** Classification and conversion of uploaded files into model content, from
    src/lib/server/parts.ts. Decoding a file as UTF-8 text (`file.text()`)
    and parsing a PDF (`pdfParse`) are outside the model: they are passed in
    as functions of the file's bytes. */
module Parts {
  import opened Wrappers
  import opened Text
  import opened Files
  import opened Uploads
  import opened Pdf

  /** `TextPart | FilePart` */
  datatype Part = TextPart(text: string) | FilePart(data: seq<byte>, mediaType: string)

  datatype UnsupportedFile = UnsupportedFile(name: string, mimeType: string)

  /** The three lists `filesToParts` returns. */
  datatype Collected = Collected(parts: seq<Part>, unsupported: seq<UnsupportedFile>, notes: seq<string>)

  /** What the PDF parser does with a file's bytes: return a result whose
      `text` may be missing, or throw. */
  datatype PdfParse = Parsed(text: Option<string>) | ParseThrows(message: string)

  predicate IsImage(t: string) { t in IMAGE_MIME }
  predicate IsTextlike(t: string) { t in TEXTLIKE_MIME }
  predicate IsPdf(t: string) { t in DOC_MIME }

  datatype Kind = Image | Textlike | PdfDocument | Other

  /** The branch `filesToParts` takes for a type: at most one classifier
      holds, so the first that holds is the only one. */
  function Classify(t: string): (k: Kind)
    ensures k == Image <==> IsImage(t)
    ensures k == Textlike <==> IsTextlike(t)
    ensures k == PdfDocument <==> IsPdf(t)
    ensures k == Other <==> !IsImage(t) && !IsTextlike(t) && !IsPdf(t)
  {
    ListsDisjoint(t);
    if IsImage(t) then Image
    else if IsTextlike(t) then Textlike
    else if IsPdf(t) then PdfDocument
    else Other
  }

  /** `file.type || "application/octet-stream"` */
  function EffectiveType(f: File): (t: string)
    ensures t != ""
    ensures f.mimeType != "" ==> t == f.mimeType
  {
    if f.mimeType == "" then "application/octet-stream" else f.mimeType
  }

  function TextHeader(name: string, t: string): string
  {
    "Attached file \"" + name + "\" (" + t + "):\n\n"
  }

  function PdfHeader(name: string, t: string): string
  {
    "Attached PDF \"" + name + "\" (" + t + ") extracted:\n\n"
  }

  function NoTextNote(name: string): string
  {
    "PDF \"" + name + "\" contained no extractable text."
  }

  function TruncatedNote(name: string): string
  {
    "PDF \"" + name + "\" was truncated to keep the prompt compact."
  }

  /** What one file adds to the three lists, or the parser's exception. */
  function Convert(f: File, decode: seq<byte> -> string, pdfParse: seq<byte> -> PdfParse): Result<Collected, string>
  {
    var t := EffectiveType(f);
    if IsImage(t) then Success(Collected([FilePart(f.data, t)], [], []))
    else if IsTextlike(t) then Success(Collected([TextPart(TextHeader(f.name, t) + decode(f.data))], [], []))
    else if IsPdf(t) then
      match pdfParse(f.data)
      case ParseThrows(m) => Failure(m)
      case Parsed(raw) =>
        var x := ExtractPdfText(raw);
        if x.text == "" then Success(Collected([], [], [NoTextNote(f.name)]))
        else Success(Collected([TextPart(PdfHeader(f.name, t) + x.text)], [],
                               if x.truncated then [TruncatedNote(f.name)] else []))
    else Success(Collected([], [UnsupportedFile(f.name, t)], []))
  }

  function Join3(a: Collected, b: Collected): Collected
  {
    Collected(a.parts + b.parts, a.unsupported + b.unsupported, a.notes + b.notes)
  }

  /** The whole loop: files in order, the first parser exception aborting it. */
  function CollectAll(files: seq<File>, decode: seq<byte> -> string, pdfParse: seq<byte> -> PdfParse): Result<Collected, string>
  {
    if |files| == 0 then Success(Collected([], [], []))
    else
      match CollectAll(files[..|files| - 1], decode, pdfParse)
      case Failure(m) => Failure(m)
      case Success(c) =>
        match Convert(files[|files| - 1], decode, pdfParse)
        case Failure(m) => Failure(m)
        case Success(d) => Success(Join3(c, d))
  }

  /** `filesToParts`: pushes into `parts`, `unsupported` and `notes` with a
      `continue` per branch; an exception from the PDF parser propagates. */
  method FilesToParts(files: seq<File>, decode: seq<byte> -> string, pdfParse: seq<byte> -> PdfParse)
    returns (result: Result<Collected, string>)
    ensures result == CollectAll(files, decode, pdfParse)
  {
    var parts: seq<Part> := [];
    var unsupported: seq<UnsupportedFile> := [];
    var notes: seq<string> := [];
    for i := 0 to |files|
      invariant CollectAll(files[..i], decode, pdfParse) == Success(Collected(parts, unsupported, notes))
    {
      assert files[..i + 1][..i] == files[..i];
      var file := files[i];
      var t := if file.mimeType == "" then "application/octet-stream" else file.mimeType;
      assert t == EffectiveType(file);
      ListsDisjoint(t);
      ghost var step := Convert(file, decode, pdfParse);
      assert CollectAll(files[..i + 1], decode, pdfParse) ==
        if step.Failure? then Failure(step.error)
        else Success(Join3(Collected(parts, unsupported, notes), step.value));
      if IsImage(t) {
        assert step == Success(Collected([FilePart(file.data, t)], [], []));
        assert unsupported + [] == unsupported && notes + [] == notes;
        parts := parts + [FilePart(file.data, t)];
        continue;
      }
      if IsTextlike(t) {
        var text := decode(file.data);
        assert step == Success(Collected([TextPart(TextHeader(file.name, t) + text)], [], []));
        assert unsupported + [] == unsupported && notes + [] == notes;
        parts := parts + [TextPart(TextHeader(file.name, t) + text)];
        continue;
      }
      if IsPdf(t) {
        var parsed := pdfParse(file.data);
        if parsed.ParseThrows? {
          assert step == Failure(parsed.message);
          FailureSticks(files, i + 1, decode, pdfParse);
          assert files[..|files|] == files;
          return Failure(parsed.message);
        }
        var extracted := ExtractPdfText(parsed.text);
        if extracted.text == "" {
          assert step == Success(Collected([], [], [NoTextNote(file.name)]));
          assert parts + [] == parts && unsupported + [] == unsupported;
          notes := notes + [NoTextNote(file.name)];
          continue;
        }
        ghost var added := if extracted.truncated then [TruncatedNote(file.name)] else [];
        assert step == Success(Collected([TextPart(PdfHeader(file.name, t) + extracted.text)], [], added));
        assert unsupported + [] == unsupported && notes + [] == notes;
        parts := parts + [TextPart(PdfHeader(file.name, t) + extracted.text)];
        if extracted.truncated {
          notes := notes + [TruncatedNote(file.name)];
        }
        continue;
      }
      assert step == Success(Collected([], [UnsupportedFile(file.name, t)], []));
      assert parts + [] == parts && notes + [] == notes;
      unsupported := unsupported + [UnsupportedFile(file.name, t)];
    }
    assert files[..|files|] == files;
    result := Success(Collected(parts, unsupported, notes));
  }

  /** Once the parser has thrown, later files change nothing. */
  lemma {:induction false} FailureSticks(files: seq<File>, i: nat, decode: seq<byte> -> string, pdfParse: seq<byte> -> PdfParse)
    requires i <= |files|
    requires CollectAll(files[..i], decode, pdfParse).Failure?
    ensures CollectAll(files, decode, pdfParse) == CollectAll(files[..i], decode, pdfParse)
    decreases |files| - i
  {
    if i < |files| {
      assert files[..i + 1][..i] == files[..i];
      FailureSticks(files, i + 1, decode, pdfParse);
    } else {
      assert files[..i] == files;
    }
  }

  /** An image becomes one file part carrying its full bytes and its type. */
  lemma ImageBecomesFilePart(f: File, decode: seq<byte> -> string, pdfParse: seq<byte> -> PdfParse)
    requires IsImage(f.mimeType)
    ensures Convert(f, decode, pdfParse) == Success(Collected([FilePart(f.data, f.mimeType)], [], []))
  {
  }

  /** A text-like file becomes one text part: a header naming the file and
      its type, then the decoded content. */
  lemma TextlikeBecomesTextPart(f: File, decode: seq<byte> -> string, pdfParse: seq<byte> -> PdfParse)
    requires IsTextlike(f.mimeType)
    ensures Convert(f, decode, pdfParse) ==
      Success(Collected([TextPart("Attached file \"" + f.name + "\" (" + f.mimeType + "):\n\n" + decode(f.data))], [], []))
  {
    ListsDisjoint(f.mimeType);
  }

  /** A PDF with no extractable text gives no part and exactly one note, which
      names the file. */
  lemma BlankPdfGivesOnlyNote(f: File, decode: seq<byte> -> string, pdfParse: seq<byte> -> PdfParse)
    requires IsPdf(f.mimeType) && pdfParse(f.data).Parsed?
    requires AllWhitespace(pdfParse(f.data).text.GetOr(""))
    ensures Convert(f, decode, pdfParse) == Success(Collected([], [], [NoTextNote(f.name)]))
  {
    ListsDisjoint(f.mimeType);
    ExtractedEmptyIffBlank(pdfParse(f.data).text, DEFAULT_CHAR_LIMIT);
  }

  /** A PDF whose trimmed text is non-blank and within 20000 characters gives
      one text part holding the whole trimmed text, and no note. */
  lemma ShortPdfIsWhole(f: File, decode: seq<byte> -> string, pdfParse: seq<byte> -> PdfParse)
    requires IsPdf(f.mimeType) && pdfParse(f.data).Parsed?
    requires Trim(pdfParse(f.data).text.GetOr("")) != ""
    requires |Trim(pdfParse(f.data).text.GetOr(""))| <= DEFAULT_CHAR_LIMIT
    ensures Convert(f, decode, pdfParse) ==
      Success(Collected([TextPart(PdfHeader(f.name, f.mimeType) + Trim(pdfParse(f.data).text.GetOr("")))], [], []))
  {
    ListsDisjoint(f.mimeType);
  }

  /** A PDF longer than the limit gives one text part with its first 20000
      characters and one truncation note. */
  lemma LongPdfIsTruncated(f: File, decode: seq<byte> -> string, pdfParse: seq<byte> -> PdfParse)
    requires IsPdf(f.mimeType) && pdfParse(f.data).Parsed?
    requires |Trim(pdfParse(f.data).text.GetOr(""))| > DEFAULT_CHAR_LIMIT
    ensures var trimmed := Trim(pdfParse(f.data).text.GetOr(""));
      Convert(f, decode, pdfParse) ==
        Success(Collected([TextPart(PdfHeader(f.name, f.mimeType) + trimmed[..DEFAULT_CHAR_LIMIT])], [],
                          [TruncatedNote(f.name)]))
  {
    ListsDisjoint(f.mimeType);
  }

  /** Every other type, DOCX included, and a missing type (read as
      "application/octet-stream") lands in `unsupported`. */
  lemma OtherTypesUnsupported(f: File, decode: seq<byte> -> string, pdfParse: seq<byte> -> PdfParse)
    requires f.mimeType in DOCX_MIME || f.mimeType == "" || !IsSupported(f.mimeType)
    ensures Convert(f, decode, pdfParse) == Success(Collected([], [UnsupportedFile(f.name, EffectiveType(f))], []))
    ensures f.mimeType == "" ==> EffectiveType(f) == "application/octet-stream"
  {
    ListsDisjoint(f.mimeType);
    SupportedIsUnion(f.mimeType);
    UnknownTypesUnsupported();
  }

  /** Each file adds at most one part or one unsupported entry, never both,
      and at most one note; unsupported entries never have an empty type. */
  lemma ConvertBounds(f: File, decode: seq<byte> -> string, pdfParse: seq<byte> -> PdfParse)
    requires Convert(f, decode, pdfParse).Success?
    ensures var c := Convert(f, decode, pdfParse).value;
      |c.parts| + |c.unsupported| <= 1 && |c.notes| <= 1 &&
      (forall u :: u in c.unsupported ==> u.mimeType != "")
  {
  }

  /** Over a batch: no more parts and unsupported entries together than files,
      no more notes than files, and no unsupported entry with an empty type
      (so the route's "unknown" fallback never shows). */
  lemma {:induction false} CollectAllBounds(files: seq<File>, decode: seq<byte> -> string, pdfParse: seq<byte> -> PdfParse)
    requires CollectAll(files, decode, pdfParse).Success?
    ensures var c := CollectAll(files, decode, pdfParse).value;
      |c.parts| + |c.unsupported| <= |files| && |c.notes| <= |files| &&
      (forall u :: u in c.unsupported ==> u.mimeType != "")
  {
    if |files| > 0 {
      CollectAllBounds(files[..|files| - 1], decode, pdfParse);
      ConvertBounds(files[|files| - 1], decode, pdfParse);
    }
  }

  /** The batch fails exactly when the parser throws on some PDF in it. */
  lemma {:induction false} CollectAllFailsIff(files: seq<File>, decode: seq<byte> -> string, pdfParse: seq<byte> -> PdfParse)
    ensures CollectAll(files, decode, pdfParse).Failure? <==>
      exists j :: 0 <= j < |files| && IsPdf(EffectiveType(files[j])) && pdfParse(files[j].data).ParseThrows?
  {
    if |files| > 0 {
      var n := |files|;
      CollectAllFailsIff(files[..n - 1], decode, pdfParse);
      var f := files[n - 1];
      ListsDisjoint(EffectiveType(f));
      if CollectAll(files[..n - 1], decode, pdfParse).Failure? {
        var j :| 0 <= j < n - 1 && IsPdf(EffectiveType(files[..n - 1][j])) && pdfParse(files[..n - 1][j].data).ParseThrows?;
        assert files[j] == files[..n - 1][j];
      } else if IsPdf(EffectiveType(f)) && pdfParse(f.data).ParseThrows? {
      } else {
        forall j | 0 <= j < n && IsPdf(EffectiveType(files[j]))
          ensures !pdfParse(files[j].data).ParseThrows?
        {
          if j < n - 1 {
            assert files[j] == files[..n - 1][j];
          }
        }
      }
    }
  }

  /** Parts keep input order: a batch of images gives one file part per
      image, position by position. */
  lemma {:induction false} ImagesInOrder(files: seq<File>, decode: seq<byte> -> string, pdfParse: seq<byte> -> PdfParse)
    requires forall j :: 0 <= j < |files| ==> IsImage(files[j].mimeType)
    ensures CollectAll(files, decode, pdfParse).Success?
    ensures var c := CollectAll(files, decode, pdfParse).value;
      |c.parts| == |files| && c.unsupported == [] && c.notes == [] &&
      forall j :: 0 <= j < |files| ==> c.parts[j] == FilePart(files[j].data, files[j].mimeType)
  {
    if |files| > 0 {
      var n := |files|;
      var prefix := files[..n - 1];
      ImagesInOrder(prefix, decode, pdfParse);
      ImageBecomesFilePart(files[n - 1], decode, pdfParse);
      var c := CollectAll(prefix, decode, pdfParse).value;
      var d := Collected([FilePart(files[n - 1].data, files[n - 1].mimeType)], [], []);
      assert CollectAll(files, decode, pdfParse) == Success(Join3(c, d));
      forall j | 0 <= j < n
        ensures (c.parts + d.parts)[j] == FilePart(files[j].data, files[j].mimeType)
      {
        if j < n - 1 {
          assert files[j] == prefix[j];
        }
      }
    }
  }

  /** A batch where every file is of a type none of the classifiers accepts
      (DOCX, unknown, empty) yields no part and no note, only unsupported
      entries, one per file in order. */
  lemma {:induction false} UnclassifiedGiveNoParts(files: seq<File>, decode: seq<byte> -> string, pdfParse: seq<byte> -> PdfParse)
    requires forall j :: 0 <= j < |files| ==> Classify(EffectiveType(files[j])) == Other
    ensures CollectAll(files, decode, pdfParse).Success?
    ensures var c := CollectAll(files, decode, pdfParse).value;
      c.parts == [] && c.notes == [] && |c.unsupported| == |files| &&
      forall j :: 0 <= j < |files| ==> c.unsupported[j] == UnsupportedFile(files[j].name, EffectiveType(files[j]))
  {
    if |files| > 0 {
      var n := |files|;
      var prefix := files[..n - 1];
      assert forall j :: 0 <= j < n - 1 ==> prefix[j] == files[j];
      UnclassifiedGiveNoParts(prefix, decode, pdfParse);
      var f := files[n - 1];
      var u := UnsupportedFile(f.name, EffectiveType(f));
      OtherIsUnsupported(f, decode, pdfParse);
      var c := CollectAll(prefix, decode, pdfParse).value;
      var c2 := Join3(c, Collected([], [u], []));
      assert CollectAll(files, decode, pdfParse) == Success(c2);
      assert c2.unsupported == c.unsupported + [u];
      forall j | 0 <= j < n
        ensures c2.unsupported[j] == UnsupportedFile(files[j].name, EffectiveType(files[j]))
      {
        if j < n - 1 {
          assert c2.unsupported[j] == c.unsupported[j];
        }
      }
    }
  }

  /** A file no classifier accepts is converted to one unsupported entry. */
  lemma OtherIsUnsupported(f: File, decode: seq<byte> -> string, pdfParse: seq<byte> -> PdfParse)
    requires Classify(EffectiveType(f)) == Other
    ensures Convert(f, decode, pdfParse) == Success(Collected([], [UnsupportedFile(f.name, EffectiveType(f))], []))
  {
  }

}
