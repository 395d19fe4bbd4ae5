/** The tag-list editor `BadgesInput`, whose two copies
    (src/components/ui/molecules/BadgesInput.tsx and
    src/components/molecules/BadgesInput.tsx) share the same list logic:
    normalisation, the duplicate test against the current tags, the
    optional cap, removal by index, the key shortcuts and splitting a paste.
    The tag list is a prop the parent replaces through `onChange`; the model
    keeps it as a field and applies each `onChange` value to it. */
module Badges {
  import opened Wrappers
  import opened Text

  /** `norm`: trimmed, and lower-cased when `normalizeCase` is set. */
  function Norm(s: string, normalizeCase: bool): string
  {
    if normalizeCase then ToLower(Trim(s)) else Trim(s)
  }

  /** The normal form is empty exactly when the text is blank, in either
      mode, and is the same in both modes up to ASCII letter case. */
  lemma NormBlankIff(s: string)
    ensures Norm(s, true) == [] <==> AllWhitespace(s)
    ensures Norm(s, false) == [] <==> AllWhitespace(s)
    ensures Norm(s, true) == ToLower(Norm(s, false))
  {
  }

  /** `exists`: some current tag has the same normal form. */
  predicate Exists(value: seq<string>, s: string, normalizeCase: bool)
  {
    exists k :: 0 <= k < |value| && Norm(value[k], normalizeCase) == Norm(s, normalizeCase)
  }

  /** `items.map(trim).filter(Boolean).filter((t) => !exists(t))`: the
      trimmed, non-empty items that are not already tags, in order. Items
      are compared with the current tags only, not with each other. */
  function Cleaned(value: seq<string>, items: seq<string>, normalizeCase: bool): (cleaned: seq<string>)
    ensures |cleaned| <= |items|
    ensures forall k :: 0 <= k < |cleaned| ==> cleaned[k] != ""
  {
    if |items| == 0 then []
    else
      var rest := Cleaned(value, items[..|items| - 1], normalizeCase);
      var t := Trim(items[|items| - 1]);
      if t != "" && !Exists(value, t, normalizeCase) then rest + [t] else rest
  }

  /** No cleaned item is already a tag. */
  lemma {:induction false} CleanedAreNew(value: seq<string>, items: seq<string>, normalizeCase: bool)
    ensures forall t :: t in Cleaned(value, items, normalizeCase) ==> !Exists(value, t, normalizeCase)
  {
    if |items| > 0 {
      CleanedAreNew(value, items[..|items| - 1], normalizeCase);
    }
  }

  /** `xs.slice(0, end)` for an integer `end`: a negative end counts from
      the back. */
  function SliceTo<T>(xs: seq<T>, end: int): (r: seq<T>)
    ensures r <= xs
    ensures 0 <= end ==> |r| == if end < |xs| then end else |xs|
    ensures end < 0 ==> |r| == if |xs| + end > 0 then |xs| + end else 0
  {
    if end >= 0 then (if end < |xs| then xs[..end] else xs)
    else if |xs| + end > 0 then xs[..|xs| + end]
    else []
  }

  /** `maxBadges` is truthy: given and not 0. */
  predicate Capped(maxBadges: Option<int>)
  {
    maxBadges.Some? && maxBadges.value != 0
  }

  /** `addMany`: the list handed to `onChange`, or `None` when no item
      survives cleaning and `onChange` is not called. */
  function AddMany(value: seq<string>, items: seq<string>, normalizeCase: bool, maxBadges: Option<int>): Option<seq<string>>
  {
    var cleaned := Cleaned(value, items, normalizeCase);
    if |cleaned| == 0 then None
    else if Capped(maxBadges) then Some(SliceTo(value + cleaned, maxBadges.value))
    else Some(value + cleaned)
  }

  /** `value.filter((_, i) => i !== idx)` */
  function RemoveAt(value: seq<string>, idx: int): (r: seq<string>)
    ensures 0 <= idx < |value| ==> |r| == |value| - 1
    ensures !(0 <= idx < |value|) ==> r == value
  {
    if 0 <= idx < |value| then value[..idx] + value[idx + 1..] else value
  }

  predicate IsPasteSeparator(c: char)
  {
    c == '\n' || c == ',' || c == ';'
  }

  /** `Trim` of every piece, empties dropped. */
  function TrimmedNonEmpty(pieces: seq<string>): (r: seq<string>)
    ensures |r| <= |pieces|
    ensures forall k :: 0 <= k < |r| ==> r[k] != ""
  {
    if |pieces| == 0 then []
    else
      var rest := TrimmedNonEmpty(pieces[..|pieces| - 1]);
      var t := Trim(pieces[|pieces| - 1]);
      if t != "" then rest + [t] else rest
  }

  /** `text.split(/[\n,;]+/).map(trim).filter(Boolean)` */
  function PastePieces(text: string): (pieces: seq<string>)
  {
    TrimmedNonEmpty(SplitRuns(text, IsPasteSeparator))
  }

  /** `!!maxBadges && value.length >= maxBadges` */
  predicate ReachedMax(value: seq<string>, maxBadges: Option<int>)
  {
    Capped(maxBadges) && |value| >= maxBadges.value
  }

  predicate IsCommitKey(key: string)
  {
    key == "Enter" || key == "," || key == "Tab"
  }

  class TagInput {
    /** The tags, as last passed to `onChange`. */
    var value: seq<string>
    var draft: string
    const normalizeCase: bool
    const maxBadges: Option<int>

    constructor (value: seq<string>, normalizeCase: bool, maxBadges: Option<int>)
      ensures this.value == value && draft == ""
      ensures this.normalizeCase == normalizeCase && this.maxBadges == maxBadges
    {
      this.value := value;
      draft := "";
      this.normalizeCase := normalizeCase;
      this.maxBadges := maxBadges;
    }

    /** Applies `addMany` and reports what `onChange` received. */
    method Add(items: seq<string>) returns (emitted: Option<seq<string>>)
      modifies this`value
      ensures emitted == AddMany(old(value), items, normalizeCase, maxBadges)
      ensures value == if emitted.Some? then emitted.value else old(value)
    {
      emitted := AddMany(value, items, normalizeCase, maxBadges);
      if emitted.Some? {
        value := emitted.value;
      }
    }

    /** `removeAt` */
    method Remove(idx: int) returns (emitted: seq<string>)
      modifies this`value
      ensures emitted == RemoveAt(old(value), idx) && value == emitted
    {
      emitted := RemoveAt(value, idx);
      value := emitted;
    }

    /** `onKeyDown`: Enter, "," or Tab with a non-blank draft adds the
        draft and clears it (even when nothing was added); Backspace on an
        empty draft removes the last tag. */
    method OnKeyDown(key: string) returns (emitted: Option<seq<string>>)
      modifies this`value, this`draft
      ensures IsCommitKey(key) && !AllWhitespace(old(draft)) ==>
        emitted == AddMany(old(value), [old(draft)], normalizeCase, maxBadges) &&
        draft == "" && value == (if emitted.Some? then emitted.value else old(value))
      ensures !(IsCommitKey(key) && !AllWhitespace(old(draft))) && key == "Backspace" &&
              old(draft) == "" && |old(value)| > 0 ==>
        emitted == Some(old(value)[..|old(value)| - 1]) && value == emitted.value && draft == old(draft)
      ensures !(IsCommitKey(key) && !AllWhitespace(old(draft))) &&
              !(key == "Backspace" && old(draft) == "" && |old(value)| > 0) ==>
        emitted == None && value == old(value) && draft == old(draft)
    {
      if IsCommitKey(key) && Trim(draft) != "" {
        emitted := Add([draft]);
        draft := "";
        return;
      }
      emitted := None;
      if key == "Backspace" && |draft| == 0 && |value| > 0 {
        assert RemoveAt(value, |value| - 1) == value[..|value| - 1];
        var next := Remove(|value| - 1);
        emitted := Some(next);
      }
    }

    /** `onPaste`: a paste that splits into more than one piece is taken
        over and added; otherwise the browser's own paste goes ahead, which
        is outside the model. */
    method OnPaste(text: string) returns (intercepted: bool, emitted: Option<seq<string>>)
      modifies this`value
      ensures intercepted <==> text != "" && |PastePieces(text)| > 1
      ensures intercepted ==> emitted == AddMany(old(value), PastePieces(text), normalizeCase, maxBadges) &&
                              value == (if emitted.Some? then emitted.value else old(value))
      ensures !intercepted ==> emitted == None && value == old(value)
    {
      intercepted, emitted := false, None;
      if text == "" {
        return;
      }
      var parts := PastePieces(text);
      if |parts| > 1 {
        intercepted := true;
        emitted := Add(parts);
      }
    }
  }

  /** `onChange` is skipped exactly when no item survives cleaning. */
  lemma AddManyNoneIff(value: seq<string>, items: seq<string>, normalizeCase: bool, maxBadges: Option<int>)
    ensures AddMany(value, items, normalizeCase, maxBadges).None? <==> Cleaned(value, items, normalizeCase) == []
  {
  }

  /** The new list is a prefix of the old tags followed by the cleaned
      items; without a cap it is all of it, and with a positive cap it is
      the first `maxBadges` of it (all of it when shorter). */
  lemma AddManyShape(value: seq<string>, items: seq<string>, normalizeCase: bool, maxBadges: Option<int>)
    requires AddMany(value, items, normalizeCase, maxBadges).Some?
    ensures var next := AddMany(value, items, normalizeCase, maxBadges).value;
      var all := value + Cleaned(value, items, normalizeCase);
      next <= all &&
      (!Capped(maxBadges) ==> next == all) &&
      (Capped(maxBadges) && maxBadges.value > 0 ==>
         next == (if maxBadges.value < |all| then all[..maxBadges.value] else all)) &&
      (Capped(maxBadges) && |value| <= maxBadges.value ==> value <= next)
  {
    var all := value + Cleaned(value, items, normalizeCase);
    assert value <= all;
  }

  /** Every added tag is an item, trimmed. */
  lemma {:induction false} CleanedFromItems(value: seq<string>, items: seq<string>, normalizeCase: bool)
    ensures forall t :: t in Cleaned(value, items, normalizeCase) ==>
      exists k :: 0 <= k < |items| && t == Trim(items[k])
  {
    if |items| > 0 {
      var n := |items|;
      var init := items[..n - 1];
      CleanedFromItems(value, init, normalizeCase);
      CleanedGrowsByLast(value, items, normalizeCase);
      forall t | t in Cleaned(value, items, normalizeCase)
        ensures exists k :: 0 <= k < n && t == Trim(items[k])
      {
        if t in Cleaned(value, init, normalizeCase) {
          var k :| 0 <= k < n - 1 && t == Trim(init[k]);
          assert init[k] == items[k];
        } else {
          assert t == Trim(items[n - 1]);
        }
      }
    }
  }

  /** One step of `Cleaned`: at most the last item, trimmed, is new. */
  lemma CleanedGrowsByLast(value: seq<string>, items: seq<string>, normalizeCase: bool)
    requires |items| > 0
    ensures forall t :: t in Cleaned(value, items, normalizeCase) ==>
      t in Cleaned(value, items[..|items| - 1], normalizeCase) || t == Trim(items[|items| - 1])
  {
    var rest := Cleaned(value, items[..|items| - 1], normalizeCase);
    var last := Trim(items[|items| - 1]);
    assert Cleaned(value, items, normalizeCase) == rest + [last] ||
           Cleaned(value, items, normalizeCase) == rest;
  }

  /** A tag already present (in any case, when normalising) is not added
      again. */
  lemma ExistingNotAdded(value: seq<string>, items: seq<string>, normalizeCase: bool, k: nat)
    requires k < |value|
    ensures forall t :: t in Cleaned(value, items, normalizeCase) ==>
      Norm(t, normalizeCase) != Norm(value[k], normalizeCase)
  {
    CleanedAreNew(value, items, normalizeCase);
  }

  /** Cleaning a batch is cleaning its parts, joined: items are compared
      with the current tags only, never with each other. With
      `CleanedSingle` this determines `Cleaned` item by item. */
  lemma {:induction false} CleanedAppend(value: seq<string>, xs: seq<string>, ys: seq<string>, normalizeCase: bool)
    ensures Cleaned(value, xs + ys, normalizeCase) == Cleaned(value, xs, normalizeCase) + Cleaned(value, ys, normalizeCase)
    decreases |ys|
  {
    if |ys| == 0 {
      assert xs + ys == xs;
    } else {
      var m := |ys|;
      var init := ys[..m - 1];
      var y := ys[m - 1];
      assert ys == init + [y];
      assert xs + ys == (xs + init) + [y];
      CleanedAppend(value, xs, init, normalizeCase);
      CleanedSnoc(value, xs + init, y, normalizeCase);
      CleanedSnoc(value, init, y, normalizeCase);
      var a, b := Cleaned(value, xs, normalizeCase), Cleaned(value, init, normalizeCase);
      var t := Trim(y);
      var tail := if t != "" && !Exists(value, t, normalizeCase) then [t] else [];
      assert Cleaned(value, xs + ys, normalizeCase) == a + b + tail;
      assert Cleaned(value, ys, normalizeCase) == b + tail;
      ConcatAssoc(a, b, tail);
    }
  }

  /** One more item: its trimmed text is added when non-blank and new. */
  lemma CleanedSnoc(value: seq<string>, items: seq<string>, item: string, normalizeCase: bool)
    ensures var t := Trim(item);
      Cleaned(value, items + [item], normalizeCase) ==
      Cleaned(value, items, normalizeCase) + (if t != "" && !Exists(value, t, normalizeCase) then [t] else [])
  {
    var all := items + [item];
    assert all[..|all| - 1] == items;
    assert all[|all| - 1] == item;
  }

  /** Every non-blank item that is not already a tag is added, trimmed. */
  lemma {:induction false} CleanedKeepsNew(value: seq<string>, items: seq<string>, normalizeCase: bool)
    ensures forall k :: 0 <= k < |items| && Trim(items[k]) != "" && !Exists(value, Trim(items[k]), normalizeCase) ==>
      Trim(items[k]) in Cleaned(value, items, normalizeCase)
  {
    if |items| > 0 {
      var n := |items|;
      var init := items[..n - 1];
      assert items == init + [items[n - 1]];
      CleanedKeepsNew(value, init, normalizeCase);
      CleanedSnoc(value, init, items[n - 1], normalizeCase);
      forall k | 0 <= k < n - 1 && Trim(items[k]) != "" && !Exists(value, Trim(items[k]), normalizeCase)
        ensures Trim(items[k]) in Cleaned(value, items, normalizeCase)
      {
        assert init[k] == items[k];
      }
    }
  }

  /** Duplicates inside one batch are not removed: an item that is new and
      non-blank, given twice, is added twice. */
  lemma BatchDuplicatesSurvive(value: seq<string>, item: string, normalizeCase: bool)
    requires Trim(item) != "" && !Exists(value, Trim(item), normalizeCase)
    ensures Cleaned(value, [item, item], normalizeCase) == [Trim(item), Trim(item)]
    ensures AddMany(value, [item, item], normalizeCase, None) == Some(value + [Trim(item), Trim(item)])
  {
    var t := Trim(item);
    assert [item] + [item] == [item, item];
    CleanedAppend(value, [item], [item], normalizeCase);
    CleanedSingle(value, item, normalizeCase);
    assert Cleaned(value, [item, item], normalizeCase) == [t] + [t];
    assert !Capped(None);
  }

  /** Cleaning a single item. */
  lemma CleanedSingle(value: seq<string>, item: string, normalizeCase: bool)
    ensures Trim(item) != "" && !Exists(value, Trim(item), normalizeCase) ==>
      Cleaned(value, [item], normalizeCase) == [Trim(item)]
    ensures Trim(item) == "" || Exists(value, Trim(item), normalizeCase) ==>
      Cleaned(value, [item], normalizeCase) == []
  {
    var items := [item];
    assert items[..0] == [];
  }

  /** With `normalizeCase`, an item whose trimmed text differs from some
      tag's only in letter case is a duplicate and is not added. */
  lemma CaseFoldedDuplicate(value: seq<string>, item: string, k: nat)
    requires k < |value| && ToLower(Trim(value[k])) == ToLower(Trim(item))
    ensures Cleaned(value, [item], true) == []
  {
    var t := Trim(item);
    assert Exists(value, t, true) by {
      TrimIdempotent(item);
      assert Norm(value[k], true) == Norm(t, true);
    }
    CleanedSingle(value, item, true);
  }

  /** Without it, an item whose trimmed text differs from every tag's in any
      way, letter case included, is added, trimmed. */
  lemma CaseKeptDistinct(value: seq<string>, item: string)
    requires !AllWhitespace(item)
    requires forall k :: 0 <= k < |value| ==> Trim(value[k]) != Trim(item)
    ensures Cleaned(value, [item], false) == [Trim(item)]
  {
    var t := Trim(item);
    assert !Exists(value, t, false) by {
      TrimIdempotent(item);
    }
    CleanedSingle(value, item, false);
  }

  /** `removeAt` drops exactly the tag at the index and keeps the others in
      order. */
  lemma RemoveAtKeepsOthers(value: seq<string>, idx: nat)
    requires idx < |value|
    ensures var r := RemoveAt(value, idx);
      (forall k :: 0 <= k < idx ==> r[k] == value[k]) &&
      (forall k :: idx <= k < |r| ==> r[k] == value[k + 1])
  {
  }

  /** A negative cap cuts from the back: `slice(0, -1)` drops the last tag. */
  lemma NegativeCapDropsFromBack(value: seq<string>, items: seq<string>)
    requires Cleaned(value, items, true) != []
    ensures var all := value + Cleaned(value, items, true);
      AddMany(value, items, true, Some(-1)) == Some(all[..|all| - 1])
  {
    var all := value + Cleaned(value, items, true);
    assert Capped(Some(-1));
    assert AddMany(value, items, true, Some(-1)) == Some(SliceTo(all, -1));
    assert SliceTo(all, -1) == all[..|all| - 1];
  }

  /** `reachedMax` holds only with a truthy cap; with a cap of 0 or none the
      list is never full. */
  lemma ReachedMaxIff(value: seq<string>, maxBadges: Option<int>)
    ensures ReachedMax(value, maxBadges) <==> maxBadges.Some? && maxBadges.value != 0 && |value| >= maxBadges.value
    ensures !ReachedMax(value, None) && !ReachedMax(value, Some(0))
  {
  }

  /** A paste without a separator is one tag, the trimmed text, or none when
      the text is blank. */
  lemma PasteWithoutSeparator(text: string)
    requires NoSeparator(text)
    ensures PastePieces(text) == (if Trim(text) == "" then [] else [Trim(text)])
  {
    var k := FirstMatch(text, IsPasteSeparator);
    assert k == |text|;
    assert SplitRuns(text, IsPasteSeparator) == [text];
    assert [text][..0] == [];
  }

  /** A paste is taken over only when it holds a separator: more than one
      piece needs at least one run of separators. */
  lemma PasteTakeOverNeedsSeparator(text: string)
    ensures |PastePieces(text)| > 1 ==> RunCount(text, IsPasteSeparator, false) >= 1
  {
    SplitRunsContent(text, IsPasteSeparator);
  }

  /** "a, b" gives the two tags "a" and "b": the comma splits, and trimming
      removes the space. */
  lemma PasteTwoTags()
    ensures PastePieces("a, b") == ["a", "b"]
  {
    SplitOfTwoTags();
    TrimOfTwoTags();
    TrimmedTwo("a", " b");
  }

  /** Two non-blank pieces give their two trims. */
  lemma TrimmedTwo(a: string, b: string)
    requires Trim(a) != "" && Trim(b) != ""
    ensures TrimmedNonEmpty([a, b]) == [Trim(a), Trim(b)]
  {
    var pieces := [a, b];
    assert pieces[..1] == [a] && pieces[..1][..0] == [];
    assert TrimmedNonEmpty(pieces[..1]) == [Trim(a)];
  }

  lemma TrimOfTwoTags()
    ensures Trim("a") == "a" && Trim(" b") == "b"
  {
    TrimOfLetter('a');
    TrimOfLetter('b');
    assert " b"[1..] == "b";
    assert TrimStart(" b") == TrimStart("b");
  }

  /** A single letter is its own trim. */
  lemma TrimOfLetter(c: char)
    requires 'a' <= c <= 'z'
    ensures TrimStart([c]) == [c] && Trim([c]) == [c]
  {
    assert !IsWhitespace(c);
    assert TrimEnd([c]) == [c];
  }

  lemma SplitOfTwoTags()
    ensures SplitRuns("a, b", IsPasteSeparator) == ["a", " b"]
  {
    var text := "a, b";
    assert FirstMatch(text, IsPasteSeparator) == 1;
    assert RunEnd(text, IsPasteSeparator, 1) == 2;
    assert text[..1] == "a" && text[2..] == " b";
    assert FirstMatch(" b", IsPasteSeparator) == 2;
    assert SplitRuns(" b", IsPasteSeparator) == [" b"];
    assert SplitRuns(text, IsPasteSeparator) == [text[..1]] + SplitRuns(text[2..], IsPasteSeparator);
  }

  /** A pasted piece is non-empty, trimmed and holds no separator. */
  lemma {:induction false} PastePiecesClean(text: string)
    ensures forall k :: 0 <= k < |PastePieces(text)| ==>
      PastePieces(text)[k] != "" && CleanPiece(PastePieces(text)[k])
  {
    var split := SplitRuns(text, IsPasteSeparator);
    forall k | 0 <= k < |split| ensures NoSeparator(split[k]) {
    }
    TrimmedFromPieces(split);
    var ps := PastePieces(text);
    forall k | 0 <= k < |ps| ensures ps[k] != "" && CleanPiece(ps[k]) {
      assert ps[k] in ps;
    }
  }


  predicate NoSeparator(s: string) {
    forall i :: 0 <= i < |s| ==> !IsPasteSeparator(s[i])
  }

  /** A tag as a paste may produce it: trimmed, with no separator. */
  predicate CleanPiece(t: string)
  {
    Trim(t) == t && NoSeparator(t)
  }

  /** Trimming a separator-free piece gives a trimmed, separator-free tag. */
  lemma TrimKeepsNoSeparator(s: string)
    requires NoSeparator(s)
    ensures CleanPiece(Trim(s))
  {
    var t := Trim(s);
    TrimIdempotent(s);
    forall i | 0 <= i < |t| ensures !IsPasteSeparator(t[i]) {
      assert t[i] in t;
      assert t[i] in s;
    }
  }

  /** Every tag in `ts` is a clean piece. */
  predicate AllClean(ts: seq<string>)
  {
    forall t :: t in ts ==> CleanPiece(t)
  }

  lemma AllCleanAppend(a: seq<string>, b: seq<string>)
    requires AllClean(a) && AllClean(b)
    ensures AllClean(a + b)
  {
  }

  lemma {:induction false} TrimmedFromPieces(pieces: seq<string>)
    requires forall k :: 0 <= k < |pieces| ==> NoSeparator(pieces[k])
    ensures AllClean(TrimmedNonEmpty(pieces))
  {
    if |pieces| > 0 {
      var init := pieces[..|pieces| - 1];
      forall k | 0 <= k < |init| ensures NoSeparator(init[k]) {
        assert init[k] == pieces[k];
      }
      TrimmedFromPieces(init);
      TrimmedCleanStep(pieces);
    }
  }

  /** One more separator-free piece keeps a trimmed paste clean. */
  lemma TrimmedCleanStep(pieces: seq<string>)
    requires |pieces| > 0 && NoSeparator(pieces[|pieces| - 1])
    requires AllClean(TrimmedNonEmpty(pieces[..|pieces| - 1]))
    ensures AllClean(TrimmedNonEmpty(pieces))
  {
    var rest := TrimmedNonEmpty(pieces[..|pieces| - 1]);
    var last := pieces[|pieces| - 1];
    TrimKeepsNoSeparator(last);
    if Trim(last) != "" {
      assert AllClean([Trim(last)]);
      AllCleanAppend(rest, [Trim(last)]);
    }
  }

  /** Trimming a paste is trimming its parts, joined. */
  lemma {:induction false} TrimmedNonEmptyAppend(xs: seq<string>, ys: seq<string>)
    ensures TrimmedNonEmpty(xs + ys) == TrimmedNonEmpty(xs) + TrimmedNonEmpty(ys)
    decreases |ys|
  {
    if |ys| == 0 {
      assert xs + ys == xs;
    } else {
      var m := |ys|;
      var init := ys[..m - 1];
      var y := ys[m - 1];
      assert ys == init + [y];
      assert xs + ys == (xs + init) + [y];
      TrimmedNonEmptyAppend(xs, init);
      TrimmedNonEmptySnoc(xs + init, y);
      TrimmedNonEmptySnoc(init, y);
      var a, b := TrimmedNonEmpty(xs), TrimmedNonEmpty(init);
      var tail := if Trim(y) != "" then [Trim(y)] else [];
      assert TrimmedNonEmpty(xs + ys) == a + b + tail;
      assert TrimmedNonEmpty(ys) == b + tail;
      ConcatAssoc(a, b, tail);
    }
  }

  lemma ConcatAssoc(a: seq<string>, b: seq<string>, c: seq<string>)
    ensures a + b + c == a + (b + c)
  {
  }

  /** One more piece: kept, trimmed, when it is not blank. */
  lemma TrimmedNonEmptySnoc(pieces: seq<string>, piece: string)
    ensures TrimmedNonEmpty(pieces + [piece]) ==
      TrimmedNonEmpty(pieces) + (if Trim(piece) != "" then [Trim(piece)] else [])
  {
    var all := pieces + [piece];
    assert all[..|all| - 1] == pieces;
    assert all[|all| - 1] == piece;
  }

  /** Every piece that is not blank is kept, trimmed, duplicates included. */
  lemma {:induction false} TrimmedNonEmptyKeeps(pieces: seq<string>)
    ensures forall k :: 0 <= k < |pieces| && Trim(pieces[k]) != "" ==> Trim(pieces[k]) in TrimmedNonEmpty(pieces)
  {
    if |pieces| > 0 {
      var n := |pieces|;
      var init := pieces[..n - 1];
      assert pieces == init + [pieces[n - 1]];
      TrimmedNonEmptyKeeps(init);
      TrimmedNonEmptySnoc(init, pieces[n - 1]);
      forall k | 0 <= k < n - 1 && Trim(pieces[k]) != "" ensures Trim(pieces[k]) in TrimmedNonEmpty(pieces) {
        assert init[k] == pieces[k];
      }
    }
  }
}
