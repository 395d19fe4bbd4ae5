/** The text post-processing of `extractPdfText` in src/lib/server/pdf.ts; the
    parser itself (`pdfParse`) is outside the model and appears only as the
    text it returned. */
module Pdf {
  import opened Wrappers
  import opened Text

  /** The default of the `charLimit` option. */
  const DEFAULT_CHAR_LIMIT: nat := 20000

  datatype PdfText = PdfText(text: string, truncated: bool)

  /** `extractPdfText` once the parser returned `parsed` (None when it gave no
      text): the trimmed text, cut to `charLimit` characters when longer. */
  function ExtractPdfText(parsed: Option<string>, charLimit: nat := DEFAULT_CHAR_LIMIT): (r: PdfText)
    ensures var trimmed := Trim(parsed.GetOr(""));
      && (r.truncated <==> |trimmed| > charLimit)
      && |r.text| <= charLimit
      && r.text <= trimmed
      && (!r.truncated ==> r.text == trimmed)
      && (r.truncated ==> |r.text| == charLimit)
  {
    var text := Trim(parsed.GetOr(""));
    var truncated := |text| > charLimit;
    PdfText(if truncated then text[..charLimit] else text, truncated)
  }

  /** With a positive limit, the extracted text is empty exactly when the
      parser found nothing but whitespace (or no text at all). */
  lemma ExtractedEmptyIffBlank(parsed: Option<string>, charLimit: nat)
    requires charLimit > 0
    ensures ExtractPdfText(parsed, charLimit).text == "" <==> AllWhitespace(parsed.GetOr(""))
  {
    var r := ExtractPdfText(parsed, charLimit);
    if r.truncated {
      assert |r.text| == charLimit;
    }
  }

  /** A limit of zero reports any non-blank document as truncated to nothing,
      which a caller testing `!text` cannot tell apart from a blank one. */
  lemma ZeroLimitEmptiesText(parsed: Option<string>)
    requires !AllWhitespace(parsed.GetOr(""))
    ensures ExtractPdfText(parsed, 0) == PdfText("", true)
  {
  }
}
