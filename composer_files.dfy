/** Attachment intake: `processFiles` of src/hooks/useComposerFiles.ts (the same
    loop is copied into src/components/chat/Composer.tsx). Each incoming file
    is accepted or skipped; the first failing rule (type, per-file size,
    cumulative size) gives the reason, and the running total is seeded from
    the files already pending. */
module ComposerFiles {
  import opened Wrappers
  import opened Text
  import opened Files
  import opened Uploads

  /** A pending attachment (`SelectedFile` of src/types/chat.ts): an id from
      `crypto.randomUUID`, the file, and an object URL for image previews. */
  datatype SelectedFile = SelectedFile(id: string, file: File, url: Option<string>)

  datatype SkipReason = UnsupportedType(shownType: string) | TooLarge | TotalExceeded

  /** The reason strings; the MB figures are the constants 5 and 15. */
  function ReasonText(r: SkipReason): string
  {
    match r
    case UnsupportedType(t) => "Unsupported type: " + t
    case TooLarge => "Too large (> 5MB)"
    case TotalExceeded => "Total size would exceed 15MB"
  }

  datatype Verdict = Accept | Skip(reason: SkipReason)

  /** The three rules in source order, given the running total before `f`. */
  function Check(total: nat, f: File): (v: Verdict)
    ensures v.Skip? && v.reason.UnsupportedType? <==> !IsSupported(f.mimeType)
    ensures v.Skip? && v.reason.UnsupportedType? ==>
      v.reason.shownType == (if f.mimeType == "" then "unknown" else f.mimeType)
    ensures v == Skip(TooLarge) <==> IsSupported(f.mimeType) && f.Size() > MAX_FILE_SIZE_BYTES
    ensures v == Skip(TotalExceeded) <==>
      IsSupported(f.mimeType) && f.Size() <= MAX_FILE_SIZE_BYTES &&
      total + f.Size() > MAX_TOTAL_SIZE_BYTES
    ensures v == Accept <==>
      IsSupported(f.mimeType) && f.Size() <= MAX_FILE_SIZE_BYTES &&
      total + f.Size() <= MAX_TOTAL_SIZE_BYTES
  {
    if !IsSupported(f.mimeType) then
      Skip(UnsupportedType(if f.mimeType == "" then "unknown" else f.mimeType))
    else if f.Size() > MAX_FILE_SIZE_BYTES then Skip(TooLarge)
    else if total + f.Size() > MAX_TOTAL_SIZE_BYTES then Skip(TotalExceeded)
    else Accept
  }

  /** The reason a skipped file gets, which does not depend on the running
      total: a supported file of allowed size is only ever skipped for the
      cumulative limit. */
  function SkipReasonOf(f: File): SkipReason
  {
    if !IsSupported(f.mimeType) then UnsupportedType(if f.mimeType == "" then "unknown" else f.mimeType)
    else if f.Size() > MAX_FILE_SIZE_BYTES then TooLarge
    else TotalExceeded
  }

  /** `files.reduce((sum, { file }) => sum + file.size, 0)` */
  function PendingTotal(files: seq<SelectedFile>): nat
  {
    if |files| == 0 then 0 else PendingTotal(files[..|files| - 1]) + files[|files| - 1].file.Size()
  }

  lemma {:induction false} PendingTotalAppend(a: seq<SelectedFile>, b: seq<SelectedFile>)
    ensures PendingTotal(a + b) == PendingTotal(a) + PendingTotal(b)
    decreases |b|
  {
    if |b| > 0 {
      assert (a + b)[..|a + b| - 1] == a + b[..|b| - 1];
      PendingTotalAppend(a, b[..|b| - 1]);
    } else {
      assert a + b == a;
    }
  }

  /** The loop's state after a prefix of the batch. `acceptedAt` and
      `skippedAt` record, for the specification only, the batch position of
      each accepted and skipped file. */
  datatype Intake = Intake(
    total: nat,
    accepted: seq<SelectedFile>,
    skipped: seq<string>,
    reasons: seq<string>,
    acceptedAt: seq<nat>,
    skippedAt: seq<nat>)

  function Start(pending: seq<SelectedFile>): Intake
  {
    Intake(PendingTotal(pending), [], [], [], [], [])
  }

  /** One iteration for the file at batch position `i`, with the id and the
      object URL the oracles hand out for it. */
  function Step(st: Intake, i: nat, f: File, id: string, url: string): Intake
  {
    match Check(st.total, f)
    case Accept =>
      st.(total := st.total + f.Size(),
          accepted := st.accepted + [SelectedFile(id, f, if f.mimeType in IMAGE_MIME then Some(url) else None)],
          acceptedAt := st.acceptedAt + [i])
    case Skip(r) =>
      st.(skipped := st.skipped + [f.name],
          reasons := st.reasons + [ReasonText(r)],
          skippedAt := st.skippedAt + [i])
  }

  /** The whole loop over `incoming`: `ids[i]` and `urls[i]` are what
      `crypto.randomUUID` and `URL.createObjectURL` return for `incoming[i]`
      should it be accepted. */
  function Run(start: Intake, incoming: seq<File>, ids: seq<string>, urls: seq<string>): Intake
    requires |ids| == |incoming| && |urls| == |incoming|
  {
    var n := |incoming|;
    if n == 0 then start
    else Step(Run(start, incoming[..n - 1], ids[..n - 1], urls[..n - 1]), n - 1, incoming[n - 1], ids[n - 1], urls[n - 1])
  }

  /** The loop of lines 21-66: a running total and three lists grown by
      `push`, with `continue` after each rejection. */
  method Partition(pending: seq<SelectedFile>, incoming: seq<File>, ids: seq<string>, urls: seq<string>)
    returns (accepted: seq<SelectedFile>, skipped: seq<string>, reasons: seq<string>)
    requires |ids| == |incoming| && |urls| == |incoming|
    ensures var st := Run(Start(pending), incoming, ids, urls);
      accepted == st.accepted && skipped == st.skipped && reasons == st.reasons
  {
    accepted, skipped, reasons := [], [], [];
    var currentTotal: nat := PendingTotal(pending);
    ghost var acceptedAt: seq<nat> := [];
    ghost var skippedAt: seq<nat> := [];
    for i := 0 to |incoming|
      invariant Run(Start(pending), incoming[..i], ids[..i], urls[..i]) ==
        Intake(currentTotal, accepted, skipped, reasons, acceptedAt, skippedAt)
    {
      assert incoming[..i + 1][..i] == incoming[..i];
      assert ids[..i + 1][..i] == ids[..i];
      assert urls[..i + 1][..i] == urls[..i];
      var file := incoming[i];
      if !IsSupported(file.mimeType) {
        skipped := skipped + [file.name];
        reasons := reasons + ["Unsupported type: " + (if file.mimeType == "" then "unknown" else file.mimeType)];
        skippedAt := skippedAt + [i];
        continue;
      }
      if file.Size() > MAX_FILE_SIZE_BYTES {
        skipped := skipped + [file.name];
        reasons := reasons + ["Too large (> 5MB)"];
        skippedAt := skippedAt + [i];
        continue;
      }
      if currentTotal + file.Size() > MAX_TOTAL_SIZE_BYTES {
        skipped := skipped + [file.name];
        reasons := reasons + ["Total size would exceed 15MB"];
        skippedAt := skippedAt + [i];
        continue;
      }
      currentTotal := currentTotal + file.Size();
      var isImage := file.mimeType in IMAGE_MIME;
      accepted := accepted + [SelectedFile(ids[i], file, if isImage then Some(urls[i]) else None)];
      acceptedAt := acceptedAt + [i];
    }
    assert incoming[..|incoming|] == incoming;
    assert ids[..|incoming|] == ids;
    assert urls[..|incoming|] == urls;
  }

  /** Strictly increasing positions below `n`. */
  predicate Positions(at: seq<nat>, n: nat)
  {
    (forall k :: 0 <= k < |at| ==> at[k] < n) &&
    (forall k, l :: 0 <= k < l < |at| ==> at[k] < at[l])
  }

  /** After `n` files: every position below `n` is recorded in exactly one
      of `acceptedAt` and `skippedAt`, each in increasing order and aligned
      with its list, and the skipped names and reasons line up. */
  predicate Partitioned(st: Intake, n: nat)
  {
    && |st.acceptedAt| == |st.accepted|
    && |st.skippedAt| == |st.skipped| == |st.reasons|
    && |st.accepted| + |st.skipped| == n
    && Positions(st.acceptedAt, n) && Positions(st.skippedAt, n)
    && (forall j :: 0 <= j < n ==> (j in st.acceptedAt <==> j !in st.skippedAt))
  }

  /** Every file of the batch ends up in exactly one of accepted and
      skipped, each list in batch order, and skipped names and reasons line
      up. */
  lemma {:induction false} RunPartitions(pending: seq<SelectedFile>, incoming: seq<File>, ids: seq<string>, urls: seq<string>)
    requires |ids| == |incoming| && |urls| == |incoming|
    ensures Partitioned(Run(Start(pending), incoming, ids, urls), |incoming|)
  {
    var n := |incoming|;
    if n > 0 {
      var prev := Run(Start(pending), incoming[..n - 1], ids[..n - 1], urls[..n - 1]);
      RunPartitions(pending, incoming[..n - 1], ids[..n - 1], urls[..n - 1]);
      StepPartitions(prev, n - 1, incoming[n - 1], ids[n - 1], urls[n - 1]);
    }
  }

  /** One step records the new position in exactly one list. */
  lemma StepPartitions(st: Intake, i: nat, f: File, id: string, url: string)
    requires Partitioned(st, i)
    ensures Partitioned(Step(st, i, f, id, url), i + 1)
  {
    var next := Step(st, i, f, id, url);
    assert i !in st.acceptedAt && i !in st.skippedAt;
    forall j | 0 <= j < i + 1
      ensures j in next.acceptedAt <==> j !in next.skippedAt
    {
      if j < i {
        assert j in next.acceptedAt <==> j in st.acceptedAt;
        assert j in next.skippedAt <==> j in st.skippedAt;
      }
    }
  }


  /** Each accepted file is the batch file at its recorded position, with that
      position's id; it has a supported type and at most 5 MiB, and a preview
      URL exactly when it is an image. */
  lemma {:induction false} RunAcceptedValid(pending: seq<SelectedFile>, incoming: seq<File>, ids: seq<string>, urls: seq<string>)
    requires |ids| == |incoming| && |urls| == |incoming|
    ensures var st := Run(Start(pending), incoming, ids, urls);
      && |st.acceptedAt| == |st.accepted|
      && (forall k :: 0 <= k < |st.accepted| ==>
            var j := st.acceptedAt[k];
            && j < |incoming|
            && st.accepted[k].file == incoming[j]
            && st.accepted[k].id == ids[j]
            && IsSupported(incoming[j].mimeType)
            && incoming[j].Size() <= MAX_FILE_SIZE_BYTES
            && st.accepted[k].url == (if incoming[j].mimeType in IMAGE_MIME then Some(urls[j]) else None))
  {
    var n := |incoming|;
    if n > 0 {
      RunAcceptedValid(pending, incoming[..n - 1], ids[..n - 1], urls[..n - 1]);
    }
  }

  /** Each skipped name is the batch file at its recorded position, and its
      reason is the first rule that file failed. */
  lemma {:induction false} RunSkippedReasons(pending: seq<SelectedFile>, incoming: seq<File>, ids: seq<string>, urls: seq<string>)
    requires |ids| == |incoming| && |urls| == |incoming|
    ensures var st := Run(Start(pending), incoming, ids, urls);
      && |st.skippedAt| == |st.skipped| == |st.reasons|
      && (forall k :: 0 <= k < |st.skipped| ==>
            var j := st.skippedAt[k];
            j < |incoming| && st.skipped[k] == incoming[j].name &&
            st.reasons[k] == ReasonText(SkipReasonOf(incoming[j])))
  {
    var n := |incoming|;
    if n > 0 {
      RunSkippedReasons(pending, incoming[..n - 1], ids[..n - 1], urls[..n - 1]);
    }
  }

  /** The running total is the seed plus the sizes of the accepted files. */
  lemma {:induction false} RunTotal(pending: seq<SelectedFile>, incoming: seq<File>, ids: seq<string>, urls: seq<string>)
    requires |ids| == |incoming| && |urls| == |incoming|
    ensures var st := Run(Start(pending), incoming, ids, urls);
      st.total == PendingTotal(pending) + PendingTotal(st.accepted)
  {
    var n := |incoming|;
    if n > 0 {
      var prev := Run(Start(pending), incoming[..n - 1], ids[..n - 1], urls[..n - 1]);
      RunTotal(pending, incoming[..n - 1], ids[..n - 1], urls[..n - 1]);
      var st := Run(Start(pending), incoming, ids, urls);
      if Check(prev.total, incoming[n - 1]).Accept? {
        var a := st.accepted[|prev.accepted|];
        assert st.accepted == prev.accepted + [a];
        PendingTotalAppend(prev.accepted, [a]);
        assert [a][..0] == [];
      }
    }
  }

  /** The cumulative bound: a running total that starts within 15 MiB stays
      within it. */
  lemma {:induction false} RunKeepsTotalBound(start: Intake, incoming: seq<File>, ids: seq<string>, urls: seq<string>)
    requires |ids| == |incoming| && |urls| == |incoming|
    requires start.total <= MAX_TOTAL_SIZE_BYTES
    ensures start.total <= Run(start, incoming, ids, urls).total <= MAX_TOTAL_SIZE_BYTES
  {
    var n := |incoming|;
    if n > 0 {
      RunKeepsTotalBound(start, incoming[..n - 1], ids[..n - 1], urls[..n - 1]);
    }
  }

  /** First fit: when every file is supported and small enough and the whole
      batch fits beside the pending files, nothing is skipped. */
  lemma {:induction false} RunAcceptsAllThatFit(start: Intake, incoming: seq<File>, ids: seq<string>, urls: seq<string>)
    requires |ids| == |incoming| && |urls| == |incoming|
    requires forall j :: 0 <= j < |incoming| ==>
      IsSupported(incoming[j].mimeType) && incoming[j].Size() <= MAX_FILE_SIZE_BYTES
    requires start.total + BatchSize(incoming) <= MAX_TOTAL_SIZE_BYTES
    ensures var st := Run(start, incoming, ids, urls);
      st.skipped == start.skipped && st.total == start.total + BatchSize(incoming)
  {
    var n := |incoming|;
    if n > 0 {
      RunAcceptsAllThatFit(start, incoming[..n - 1], ids[..n - 1], urls[..n - 1]);
    }
  }

  function BatchSize(files: seq<File>): nat
  {
    if |files| == 0 then 0 else BatchSize(files[..|files| - 1]) + files[|files| - 1].Size()
  }

  /** `reasons.slice(0, 3)`: at most the first three reasons are shown. */
  function ShownReasons(reasons: seq<string>): (shown: seq<string>)
    ensures |shown| <= 3 && shown <= reasons
    ensures |reasons| <= 3 ==> shown == reasons
  {
    if |reasons| <= 3 then reasons else reasons[..3]
  }

  /** The `alert` text, raised only when something was skipped: every skipped
      name, then at most three reasons. */
  function SkipAlert(skipped: seq<string>, reasons: seq<string>): (alert: Option<string>)
    ensures alert.Some? <==> |skipped| > 0
  {
    if |skipped| == 0 then None
    else Some("Some files were skipped:\n- " + Join(skipped, "\n- ") +
              "\n\nReasons (first few):\n" + Join(ShownReasons(reasons), "\n"))
  }

  /** `processFiles(incoming)` with the pending list `files`: the new pending
      list that `setFiles` installs and the alert raised, if any. */
  method ProcessFiles(files: seq<SelectedFile>, incoming: seq<File>, ids: seq<string>, urls: seq<string>)
    returns (next: seq<SelectedFile>, alert: Option<string>)
    requires |ids| == |incoming| && |urls| == |incoming|
    ensures |incoming| == 0 ==> next == files && alert == None
    ensures |incoming| > 0 ==>
      var st := Run(Start(files), incoming, ids, urls);
      next == files + st.accepted && alert == SkipAlert(st.skipped, st.reasons)
  {
    if |incoming| == 0 {
      return files, None;
    }
    var accepted, skipped, reasons := Partition(files, incoming, ids, urls);
    alert := SkipAlert(skipped, reasons);
    next := files;
    if |accepted| > 0 {
      next := files + accepted;
    }
  }

  /** Intake keeps the pending list within the 15 MiB budget and leaves the
      files already pending untouched, ahead of the new ones. */
  lemma {:induction false} ProcessFilesKeepsBudget(files: seq<SelectedFile>, incoming: seq<File>, ids: seq<string>, urls: seq<string>)
    requires |ids| == |incoming| && |urls| == |incoming|
    requires PendingTotal(files) <= MAX_TOTAL_SIZE_BYTES
    ensures var next := files + Run(Start(files), incoming, ids, urls).accepted;
      next[..|files|] == files && PendingTotal(next) <= MAX_TOTAL_SIZE_BYTES
  {
    var st := Run(Start(files), incoming, ids, urls);
    RunTotal(files, incoming, ids, urls);
    RunKeepsTotalBound(Start(files), incoming, ids, urls);
    PendingTotalAppend(files, st.accepted);
    assert (files + st.accepted)[..|files|] == files;
  }
}
