/** The upload policy of src/config/uploads.ts: the MIME allow-lists, in their
    declared order, and the byte limits. */
module Uploads {

  const IMAGE_MIME: seq<string> :=
    ["image/png", "image/jpeg", "image/webp", "image/gif", "image/svg+xml"]

  const TEXTLIKE_MIME: seq<string> :=
    ["text/plain", "text/markdown", "text/csv", "application/json"]

  /** Holds a file extension, ".docx", beside the DOCX MIME type. */
  const DOCX_MIME: seq<string> :=
    [".docx", "application/vnd.openxmlformats-officedocument.wordprocessingml.document"]

  const DOC_MIME: seq<string> := ["application/pdf"]

  const SUPPORTED_MIME: seq<string> := IMAGE_MIME + TEXTLIKE_MIME + DOC_MIME + DOCX_MIME

  const MIB: nat := 1024 * 1024
  const MAX_FILE_SIZE_BYTES: nat := 5 * MIB
  const MAX_TOTAL_SIZE_BYTES: nat := 15 * MIB

  /** `SUPPORTED_MIME.includes(t)` */
  predicate IsSupported(t: string)
  {
    t in SUPPORTED_MIME
  }

  /** The allow-list is the four lists, spread in this order. */
  lemma SupportedLayout()
    ensures |SUPPORTED_MIME| == 12
    ensures SUPPORTED_MIME[..5] == IMAGE_MIME
    ensures SUPPORTED_MIME[5..9] == TEXTLIKE_MIME
    ensures SUPPORTED_MIME[9..10] == DOC_MIME
    ensures SUPPORTED_MIME[10..] == DOCX_MIME
  {
  }

  /** A type is supported exactly when it is in one of the four lists. */
  lemma SupportedIsUnion(t: string)
    ensures IsSupported(t) <==>
      t in IMAGE_MIME || t in TEXTLIKE_MIME || t in DOC_MIME || t in DOCX_MIME
  {
  }

  /** The image, text-like and PDF lists are pairwise disjoint (and none shares
      a type with the DOCX list), so at most one classifier holds for a type. */
  lemma {:induction false} ListsDisjoint(t: string)
    ensures !(t in IMAGE_MIME && t in TEXTLIKE_MIME)
    ensures !(t in IMAGE_MIME && t in DOC_MIME)
    ensures !(t in TEXTLIKE_MIME && t in DOC_MIME)
    ensures !(t in DOCX_MIME && (t in IMAGE_MIME || t in TEXTLIKE_MIME || t in DOC_MIME))
  {
    if t in IMAGE_MIME {
      assert t[..6] == "image/";
    } else if t in TEXTLIKE_MIME {
      assert t[..5] == "text/" || t == "application/json";
    }
  }

  /** Three maximum-size files exactly fill the per-request budget. */
  lemma LimitValues()
    ensures MAX_FILE_SIZE_BYTES == 5242880
    ensures MAX_TOTAL_SIZE_BYTES == 15728640
    ensures 3 * MAX_FILE_SIZE_BYTES == MAX_TOTAL_SIZE_BYTES
  {
  }

  /** The generic binary type and the empty (unknown) type are rejected. */
  lemma UnknownTypesUnsupported()
    ensures !IsSupported("application/octet-stream")
    ensures !IsSupported("")
  {
  }

  /** ".docx" is allowed although it is an extension: it has no "/", which
      every MIME type has. */
  lemma DocxListHoldsExtension()
    ensures ".docx" in DOCX_MIME && IsSupported(".docx")
    ensures '/' !in ".docx"
    ensures forall t :: t in IMAGE_MIME + TEXTLIKE_MIME + DOC_MIME ==> '/' in t
  {
  }
}
