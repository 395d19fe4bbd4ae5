/** The output formatting of `docxToText` in src/lib/server/docx.ts. The
    extractor (`mammoth.extractRawText`) is outside the model and appears
    only as its outcome: the raw text, or the message of the error it threw. */
module Docx {
  import opened Wrappers
  import opened Text

  datatype Extraction = RawText(value: string) | ExtractionError(message: string)

  /** The header both paths write; an absent file name reads "unknown". */
  function Header(filename: Option<string>): string
  {
    "FILE: " + filename.GetOr("unknown") + "\nTYPE: docx\n\n"
  }

  /** `docxToText`: never fails; the header, then the trimmed text, the
      "(Empty document)" marker, or the error message. */
  function DocxToText(extraction: Extraction, filename: Option<string>): (r: string)
    ensures Header(filename) <= r
    ensures extraction.RawText? && !AllWhitespace(extraction.value) ==>
      r[|Header(filename)|..] == Trim(extraction.value)
    ensures extraction.RawText? && AllWhitespace(extraction.value) ==>
      r[|Header(filename)|..] == "(Empty document)"
    ensures extraction.ExtractionError? ==>
      r[|Header(filename)|..] == "(Error extracting text): " + extraction.message
  {
    match extraction
    case RawText(value) =>
      var text := Trim(value);
      Header(filename) + (if |text| > 0 then text else "(Empty document)")
    case ExtractionError(message) =>
      Header(filename) + "(Error extracting text): " + message
  }

  /** Whatever the extractor does, success or failure, the output begins with
      the same header naming the file. */
  lemma DocxHeaderShared(a: Extraction, b: Extraction, filename: Option<string>)
    ensures var n := |Header(filename)|;
      |DocxToText(a, filename)| >= n && |DocxToText(b, filename)| >= n &&
      DocxToText(a, filename)[..n] == DocxToText(b, filename)[..n]
  {
    PrefixShared(Header(filename), DocxToText(a, filename), DocxToText(b, filename));
  }

  lemma PrefixShared(h: string, x: string, y: string)
    requires h <= x && h <= y
    ensures |x| >= |h| && |y| >= |h| && x[..|h|] == y[..|h|]
  {
  }
}
