/** The browser `File` the core handles (name, declared MIME type, bytes), and
    `getFileExtension` of src/lib/files.ts. */
module Files {
  import opened Text

  type byte = x: int | 0 <= x < 256

  /** A user-selected file. `mimeType` is `File.type`: the empty string when the
      browser does not know the type. */
  datatype File = File(name: string, mimeType: string, data: seq<byte>) {
    /** `File.size`, in bytes. */
    function Size(): nat { |data| }
  }

  /** `getFileExtension`: the lower-cased last piece of `name.split(".")` when
      there is more than one piece, else "". */
  function GetFileExtension(name: string): (ext: string)
    ensures '.' !in name ==> ext == ""
    ensures '.' !in ext
    ensures forall i :: 0 <= i < |ext| ==> !('A' <= ext[i] <= 'Z')
  {
    var parts := SplitOn(name, '.');
    if |parts| > 1 then ToLower(parts[|parts| - 1]) else ""
  }

  /** Otherwise the extension is the lower-cased text after the last ".". */
  lemma {:induction false} ExtensionAfterLastDot(name: string, k: nat)
    requires k < |name| && name[k] == '.'
    requires forall i :: k < i < |name| ==> name[i] != '.'
    ensures GetFileExtension(name) == ToLower(name[k + 1..])
  {
    SplitOnLast(name, '.', k);
  }

  /** The corner cases: a trailing dot gives "", a leading dot is not special. */
  lemma ExtensionOfTrailingDot()
    ensures GetFileExtension("notes.") == ""
  {
    ExtensionAfterLastDot("notes.", 5);
  }

  lemma ExtensionOfDotFile(rest: string)
    requires '.' !in rest
    ensures GetFileExtension(['.'] + rest) == ToLower(rest)
  {
    var name := ['.'] + rest;
    forall i | 0 < i < |name| ensures name[i] != '.' {
      assert name[i] == rest[i - 1];
    }
    ExtensionAfterLastDot(name, 0);
    assert name[1..] == rest;
  }

}
