/** The composer form of src/components/chat/Composer.tsx: its own copy of the
    intake loop, the submit guard of `handleSubmit`, the Enter shortcut and
    the rule that disables the send button. */
module Composer {
  import opened Wrappers
  import opened Text
  import opened Files
  import opened ComposerFiles

  /** What `handleSubmit` passes to `onSubmit`: the trimmed draft, unless the
      draft is blank and no file is pending, in which case it returns early. */
  function SubmitOutcome(value: string, fileCount: nat): (sent: Option<string>)
    ensures sent.None? <==> AllWhitespace(value) && fileCount == 0
    ensures sent.Some? ==> sent.value == Trim(value)
  {
    var message := Trim(value);
    if message == "" && fileCount == 0 then None else Some(message)
  }

  /** The `disabled` rule of the send button. */
  function SubmitDisabled(isSending: bool, value: string, fileCount: nat): (disabled: bool)
    ensures disabled <==> isSending || (AllWhitespace(value) && fileCount == 0)
  {
    isSending || (|Trim(value)| == 0 && fileCount == 0)
  }

  /** While nothing is in flight, the button is enabled exactly when pressing
      it would submit something. */
  lemma ButtonMatchesGuard(value: string, fileCount: nat)
    ensures !SubmitDisabled(false, value, fileCount) <==> SubmitOutcome(value, fileCount).Some?
  {
  }

  /** `handleSubmit` does not look at `isSending`: Enter in the textarea
      submits a non-blank draft even while the send button is disabled. */
  lemma EnterIgnoresSending(value: string, fileCount: nat)
    requires !AllWhitespace(value)
    ensures SubmitDisabled(true, value, fileCount)
    ensures SubmitOutcome(value, fileCount) == Some(Trim(value)) && Trim(value) != ""
  {
  }

  class ComposerForm {
    /** The draft text. */
    var value: string
    /** The parent's pending attachments, as passed in and set through `setFiles`. */
    var files: seq<SelectedFile>

    constructor (files: seq<SelectedFile>)
      ensures value == "" && this.files == files
    {
      value := "";
      this.files := files;
    }

    /** `processFiles` (lines 44-106): the intake loop, then `setFiles`
        appends the accepted files. */
    method ProcessFiles(incoming: seq<File>, ids: seq<string>, urls: seq<string>) returns (alert: Option<string>)
      requires |ids| == |incoming| && |urls| == |incoming|
      modifies this`files
      ensures |incoming| == 0 ==> files == old(files) && alert == None
      ensures |incoming| > 0 ==>
        var st := Run(Start(old(files)), incoming, ids, urls);
        files == old(files) + st.accepted && alert == SkipAlert(st.skipped, st.reasons)
    {
      files, alert := ComposerFiles.ProcessFiles(files, incoming, ids, urls);
    }

    /** `handleSubmit`: the message handed to `onSubmit`, after which the
        draft is cleared; a blank draft with no files changes nothing. */
    method HandleSubmit() returns (submitted: Option<string>)
      modifies this`value
      ensures submitted == SubmitOutcome(old(value), |files|)
      ensures value == if submitted.Some? then "" else old(value)
    {
      var message := Trim(value);
      if message == "" && |files| == 0 {
        return None;
      }
      submitted := Some(message);
      value := "";
    }

    /** `onKeyDown`: Enter without Shift submits; any other key leaves the
        form alone (the textarea's own editing is not modelled). */
    method OnKeyDown(key: string, shiftKey: bool) returns (submitted: Option<string>)
      modifies this`value
      ensures key == "Enter" && !shiftKey ==>
        submitted == SubmitOutcome(old(value), |files|) &&
        value == if submitted.Some? then "" else old(value)
      ensures !(key == "Enter" && !shiftKey) ==> submitted == None && value == old(value)
    {
      submitted := None;
      if key == "Enter" && !shiftKey {
        submitted := HandleSubmit();
      }
    }
  }
}
