/** The speech-to-text hook of src/hooks/useSpeechRecognition.ts: the fold
    of a recognition event's results into a final and an interim buffer,
    and the `listening`/`interimText` state driven by the recogniser's
    events and by `start` and `stop`. The browser's recogniser is outside
    the model: its events are method calls, and whether its `stop` throws
    is a parameter. */
module Speech {
  import opened Wrappers
  import opened Text

  /** `SpeechRecognitionAlternative`; its confidence is not used. */
  datatype Alternative = Alternative(transcript: string)

  datatype SpeechResult = SpeechResult(isFinal: bool, alternatives: seq<Alternative>)

  /** `res[0]?.transcript ?? ""` */
  function TranscriptOf(r: SpeechResult): (t: string)
    ensures |r.alternatives| == 0 ==> t == ""
    ensures |r.alternatives| > 0 ==> t == r.alternatives[0].transcript
  {
    if |r.alternatives| > 0 then r.alternatives[0].transcript else ""
  }

  /** The results the loop visits: from `resultIndex` to the end. */
  function FromIndex(results: seq<SpeechResult>, resultIndex: nat): seq<SpeechResult>
  {
    if resultIndex <= |results| then results[resultIndex..] else []
  }

  /** The transcripts of the results whose `isFinal` is `final`, in order. */
  function Gather(results: seq<SpeechResult>, final: bool): string
  {
    if |results| == 0 then ""
    else
      var last := results[|results| - 1];
      Gather(results[..|results| - 1], final) + (if last.isFinal == final then TranscriptOf(last) else "")
  }

  /** The loop of `onresult`. */
  method FoldResults(results: seq<SpeechResult>, resultIndex: nat) returns (interimBuf: string, finalBuf: string)
    ensures finalBuf == Gather(FromIndex(results, resultIndex), true)
    ensures interimBuf == Gather(FromIndex(results, resultIndex), false)
  {
    interimBuf, finalBuf := "", "";
    var i := resultIndex;
    if i > |results| {
      return;
    }
    while i < |results|
      invariant resultIndex <= i <= |results|
      invariant finalBuf == Gather(results[resultIndex..i], true)
      invariant interimBuf == Gather(results[resultIndex..i], false)
    {
      assert results[resultIndex..i + 1][..i - resultIndex] == results[resultIndex..i];
      var res := results[i];
      var transcript := TranscriptOf(res);
      if res.isFinal {
        finalBuf := finalBuf + transcript;
      } else {
        interimBuf := interimBuf + transcript;
      }
      i := i + 1;
    }
    assert results[resultIndex..i] == results[resultIndex..];
  }

  /** Gathering distributes over concatenation: the buffers of a batch are
      the buffers of its parts, joined. */
  lemma {:induction false} GatherAppend(xs: seq<SpeechResult>, ys: seq<SpeechResult>, final: bool)
    ensures Gather(xs + ys, final) == Gather(xs, final) + Gather(ys, final)
    decreases |ys|
  {
    if |ys| > 0 {
      var n := |ys|;
      assert (xs + ys)[..|xs + ys| - 1] == xs + ys[..n - 1];
      assert (xs + ys)[|xs + ys| - 1] == ys[n - 1];
      GatherAppend(xs, ys[..n - 1], final);
      var tail := if ys[n - 1].isFinal == final then TranscriptOf(ys[n - 1]) else "";
      assert Gather(xs + ys, final) == Gather(xs, final) + Gather(ys[..n - 1], final) + tail;
      assert Gather(ys, final) == Gather(ys[..n - 1], final) + tail;
      assert Gather(xs, final) + Gather(ys[..n - 1], final) + tail ==
             Gather(xs, final) + (Gather(ys[..n - 1], final) + tail);
    } else {
      assert xs + ys == xs;
    }
  }

  /** The results whose `isFinal` is `final`, in order. */
  function Select(results: seq<SpeechResult>, final: bool): (selected: seq<SpeechResult>)
    ensures forall r :: r in selected ==> r in results && r.isFinal == final
  {
    if |results| == 0 then []
    else
      var last := results[|results| - 1];
      var rest := Select(results[..|results| - 1], final);
      if last.isFinal == final then rest + [last] else rest
  }

  /** Every visited result lands in exactly one buffer: the buffer of each
      kind is the transcripts of exactly the results of that kind, in
      order, and the two kinds together are all the results, each once. */
  lemma BuffersPartition(results: seq<SpeechResult>)
    ensures Gather(results, true) == Concat(Transcripts(Select(results, true)))
    ensures Gather(results, false) == Concat(Transcripts(Select(results, false)))
    ensures multiset(Select(results, true)) + multiset(Select(results, false)) == multiset(results)
  {
    GatherIsSelected(results, true);
    GatherIsSelected(results, false);
    SelectSplits(results);
  }

  /** The buffer of one kind is the transcripts of the results of that kind. */
  lemma {:induction false} GatherIsSelected(results: seq<SpeechResult>, final: bool)
    ensures Gather(results, final) == Concat(Transcripts(Select(results, final)))
  {
    if |results| > 0 {
      var n := |results|;
      var init := results[..n - 1];
      var last := results[n - 1];
      GatherIsSelected(init, final);
      var sel := Select(init, final);
      if last.isFinal == final {
        assert Select(results, final) == sel + [last];
        TranscriptsSnoc(sel, last);
        assert Gather(results, final) == Gather(init, final) + TranscriptOf(last);
      } else {
        assert Select(results, final) == sel;
        assert Gather(results, final) == Gather(init, final) + "";
      }
    }
  }

  lemma TranscriptsSnoc(rs: seq<SpeechResult>, r: SpeechResult)
    ensures Concat(Transcripts(rs + [r])) == Concat(Transcripts(rs)) + TranscriptOf(r)
  {
    var ts := Transcripts(rs + [r]);
    assert ts[..|ts| - 1] == Transcripts(rs);
  }

  /** The two selections together hold every result exactly once. */
  lemma {:induction false} SelectSplits(results: seq<SpeechResult>)
    ensures multiset(Select(results, true)) + multiset(Select(results, false)) == multiset(results)
  {
    if |results| > 0 {
      var n := |results|;
      var init := results[..n - 1];
      var last := results[n - 1];
      SelectSplits(init);
      assert results == init + [last];
      if last.isFinal {
        assert Select(results, true) == Select(init, true) + [last];
        assert Select(results, false) == Select(init, false);
      } else {
        assert Select(results, true) == Select(init, true);
        assert Select(results, false) == Select(init, false) + [last];
      }
    }
  }

  function Transcripts(results: seq<SpeechResult>): (ts: seq<string>)
    ensures |ts| == |results|
    ensures forall k :: 0 <= k < |results| ==> ts[k] == TranscriptOf(results[k])
  {
    seq(|results|, k requires 0 <= k < |results| => TranscriptOf(results[k]))
  }

  /** A batch with no final result leaves the final buffer empty. */
  lemma {:induction false} NoFinalNoReport(results: seq<SpeechResult>)
    requires forall k :: 0 <= k < |results| ==> !results[k].isFinal
    ensures Gather(results, true) == ""
  {
    if |results| > 0 {
      NoFinalNoReport(results[..|results| - 1]);
    }
  }

  /** The recogniser's state in the hook. */
  class Recognizer {
    /** `recognitionRef.current !== null` */
    var available: bool
    var listening: bool
    var interimText: string
    /** The `interim` option. */
    const interim: bool

    /** The effect's setup: a recogniser exists when the browser has one. */
    constructor (hasRecognizer: bool, interim: bool)
      ensures available == hasRecognizer && !listening && interimText == "" && this.interim == interim
    {
      available := hasRecognizer;
      listening := false;
      interimText := "";
      this.interim := interim;
    }

    /** `onresult`: folds the results, publishes the interim buffer when
        interim results are on and it is non-empty, then reports a non-empty
        final buffer once and clears the interim text. */
    method OnResult(results: seq<SpeechResult>, resultIndex: nat)
      returns (interimReport: Option<string>, finalReport: Option<string>)
      modifies this`interimText
      ensures var visited := FromIndex(results, resultIndex);
        var i := Gather(visited, false);
        var f := Gather(visited, true);
        interimReport == (if interim && i != "" then Some(i) else None) &&
        finalReport == (if f != "" then Some(f) else None) &&
        interimText == (if f != "" then "" else if interim && i != "" then i else old(interimText))
    {
      var interimBuf, finalBuf := FoldResults(results, resultIndex);
      interimReport, finalReport := None, None;
      if interim && interimBuf != "" {
        interimText := interimBuf;
        interimReport := Some(interimBuf);
      }
      if finalBuf != "" {
        interimText := "";
        finalReport := Some(finalBuf);
      }
    }

    /** `onend` */
    method OnEnd()
      modifies this`listening
      ensures !listening
    {
      listening := false;
    }

    /** `onerror` */
    method OnError()
      modifies this`listening
      ensures !listening
    {
      listening := false;
    }

    /** `start`: only with a recogniser; an exception from it is swallowed. */
    method Start()
      modifies this`listening
      ensures listening == (available || old(listening))
    {
      if !available {
        return;
      }
      listening := true;
    }

    /** `stop`: with a recogniser, `listening` and `interimText` are reset
        whether or not the recogniser's `stop` throws (the `finally`); the
        exception then propagates. Without one, nothing happens. */
    method Stop(stopThrows: bool) returns (threw: bool)
      modifies this`listening, this`interimText
      ensures available ==> !listening && interimText == "" && threw == stopThrows
      ensures !available ==> listening == old(listening) && interimText == old(interimText) && !threw
    {
      if !available {
        return false;
      }
      threw := stopThrows;
      listening := false;
      interimText := "";
    }

    /** The effect's cleanup: stops the recogniser, swallowing any error,
        and drops it. */
    method Dispose()
      modifies this`available
      ensures !available
    {
      available := false;
    }
  }
}
