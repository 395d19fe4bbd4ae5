/** The JavaScript string operations the core relies on: `trim`, `toLowerCase`,
    `join`, `split` on one character, `split` on runs of separator characters,
    and concatenation of a list of strings. */
module Text {

  /** The characters `String.prototype.trim` removes: WhiteSpace and
      LineTerminator of ECMAScript. */
  predicate IsWhitespace(c: char)
  {
    c == '\t' || c == '\n' || c == '\U{000B}' || c == '\U{000C}' || c == '\r' ||
    c == ' ' || c == '\U{00A0}' || c == '\U{1680}' ||
    ('\U{2000}' <= c <= '\U{200A}') ||
    c == '\U{2028}' || c == '\U{2029}' || c == '\U{202F}' || c == '\U{205F}' ||
    c == '\U{3000}' || c == '\U{FEFF}'
  }

  predicate AllWhitespace(s: string)
  {
    forall i :: 0 <= i < |s| ==> IsWhitespace(s[i])
  }

  /** Drops leading whitespace: the result is a suffix of `s` that does not
      start with whitespace, and everything dropped was whitespace. */
  function TrimStart(s: string): (r: string)
    ensures |r| <= |s| && r == s[|s| - |r|..]
    ensures r == [] || !IsWhitespace(r[0])
    ensures forall i :: 0 <= i < |s| - |r| ==> IsWhitespace(s[i])
  {
    if |s| > 0 && IsWhitespace(s[0]) then TrimStart(s[1..]) else s
  }

  /** Drops trailing whitespace: the result is a prefix of `s` that does not
      end with whitespace, and everything dropped was whitespace. */
  function TrimEnd(s: string): (r: string)
    ensures r <= s
    ensures r == [] || !IsWhitespace(r[|r| - 1])
    ensures forall i :: |r| <= i < |s| ==> IsWhitespace(s[i])
  {
    if |s| > 0 && IsWhitespace(s[|s| - 1]) then TrimEnd(s[..|s| - 1]) else s
  }

  /** Neither end of `s` is whitespace. */
  predicate Trimmed(s: string)
  {
    s == [] || (!IsWhitespace(s[0]) && !IsWhitespace(s[|s| - 1]))
  }

  /** `s.trim()` */
  function Trim(s: string): (r: string)
    ensures r == [] <==> AllWhitespace(s)
    ensures Trimmed(r)
    ensures forall c :: c in r ==> c in s
  {
    TrimBothEndsEmpty(s);
    TrimBothEndsTrimmed(s);
    TrimBothEndsChars(s);
    TrimEnd(TrimStart(s))
  }

  /** Trimming both ends leaves nothing exactly when `s` is all whitespace. */
  lemma TrimBothEndsEmpty(s: string)
    ensures TrimEnd(TrimStart(s)) == [] <==> AllWhitespace(s)
  {
    var t := TrimStart(s);
    var r := TrimEnd(t);
    if r == [] {
      assert t == [];
    } else {
      assert r[0] == t[0] == s[|s| - |t|];
    }
  }

  lemma TrimBothEndsTrimmed(s: string)
    ensures Trimmed(TrimEnd(TrimStart(s)))
  {
    var t := TrimStart(s);
    var r := TrimEnd(t);
    if r != [] {
      assert r[0] == t[0];
    }
  }

  lemma TrimBothEndsChars(s: string)
    ensures forall c :: c in TrimEnd(TrimStart(s)) ==> c in s
  {
    var t := TrimStart(s);
    var r := TrimEnd(t);
    assert r == t[..|r|];
    assert t == s[|s| - |t|..];
    forall c | c in r ensures c in s {
      assert c in t;
    }
  }

  /** A string with no whitespace at either end is its own trim. */
  lemma TrimKeepsClean(s: string)
    requires Trimmed(s)
    ensures Trim(s) == s
  {
    if s != [] {
      assert TrimStart(s) == s;
      assert TrimEnd(s) == s;
    }
  }

  lemma {:induction false} TrimIdempotent(s: string)
    ensures Trim(Trim(s)) == Trim(s)
  {
    TrimKeepsClean(Trim(s));
  }

  /** ASCII case mapping of `toLowerCase`. */
  function LowerChar(c: char): char
  {
    if 'A' <= c <= 'Z' then ((c as int) + 32) as char else c
  }

  /** `s.toLowerCase()`, restricted to ASCII letters. */
  function ToLower(s: string): (r: string)
    ensures |r| == |s|
    ensures forall i :: 0 <= i < |s| ==> r[i] == LowerChar(s[i])
    ensures forall i :: 0 <= i < |r| ==> !('A' <= r[i] <= 'Z')
  {
    seq(|s|, i requires 0 <= i < |s| => LowerChar(s[i]))
  }

  /** The concatenation of all the strings, in order (`a.join("")`, or a
      string accumulated with `+=`). */
  function Concat(chunks: seq<string>): string
  {
    if |chunks| == 0 then "" else Concat(chunks[..|chunks| - 1]) + chunks[|chunks| - 1]
  }

  /** Growing the list of chunks only ever extends the concatenation: every
      partial concatenation is a prefix of every later one. */
  lemma {:induction false} ConcatPrefix(chunks: seq<string>, i: nat, j: nat)
    requires i <= j <= |chunks|
    ensures Concat(chunks[..i]) <= Concat(chunks[..j])
    decreases j - i
  {
    if i < j {
      ConcatPrefix(chunks, i, j - 1);
      assert chunks[..j][..j - 1] == chunks[..j - 1];
    }
  }

  /** `parts.join(sep)` */
  function Join(parts: seq<string>, sep: string): string
  {
    if |parts| == 0 then ""
    else if |parts| == 1 then parts[0]
    else Join(parts[..|parts| - 1], sep) + sep + parts[|parts| - 1]
  }

  /** The index of the last `c` in `s`, or -1 when there is none. */
  function LastIndexOf(s: string, c: char): (k: int)
    ensures -1 <= k < |s|
    ensures k >= 0 ==> s[k] == c
    ensures forall i :: k < i < |s| ==> s[i] != c
  {
    if |s| == 0 then -1 else if s[|s| - 1] == c then |s| - 1 else LastIndexOf(s[..|s| - 1], c)
  }

  /** `s.split(c)` for a one-character separator: the pieces between the
      occurrences of `c`, empty pieces included. */
  function SplitOn(s: string, c: char): (pieces: seq<string>)
    ensures |pieces| >= 1
    ensures forall k :: 0 <= k < |pieces| ==> c !in pieces[k]
    ensures |pieces| > 1 <==> c in s
    decreases |s|
  {
    var k := LastIndexOf(s, c);
    if k < 0 then
      assert forall i :: 0 <= i < |s| ==> s[i] != c;
      [s]
    else
      var last := s[k + 1..];
      assert forall i :: 0 <= i < |last| ==> last[i] == s[k + 1 + i];
      SplitOn(s[..k], c) + [last]
  }

  /** The last piece of `s.split(c)` is what follows the last `c`. */
  lemma SplitOnLast(s: string, c: char, k: nat)
    requires k < |s| && s[k] == c
    requires forall i :: k < i < |s| ==> s[i] != c
    ensures SplitOn(s, c)[|SplitOn(s, c)| - 1] == s[k + 1..]
  {
    assert LastIndexOf(s, c) == k;
  }

  /** The pieces of `s.split(re)` where `re` matches maximal runs of the
      characters `sep` accepts (`/[\n,;]+/`): a leading or trailing run gives
      an empty first or last piece, as in JavaScript. */
  function SplitRuns(s: string, sep: char -> bool): (pieces: seq<string>)
    ensures |pieces| >= 1
    ensures forall k, i :: 0 <= k < |pieces| && 0 <= i < |pieces[k]| ==> !sep(pieces[k][i])
    decreases |s|
  {
    var k := FirstMatch(s, sep);
    if k == |s| then [s]
    else
      var e := RunEnd(s, sep, k);
      [s[..k]] + SplitRuns(s[e..], sep)
  }

  /** The index of the first character `sep` accepts, or `|s|`. */
  function FirstMatch(s: string, sep: char -> bool): (k: nat)
    ensures k <= |s|
    ensures k < |s| ==> sep(s[k])
    ensures forall i :: 0 <= i < k ==> !sep(s[i])
  {
    if |s| == 0 then 0 else if sep(s[0]) then 0 else 1 + FirstMatch(s[1..], sep)
  }

  /** The end of the run of accepted characters that starts at `k`. */
  function RunEnd(s: string, sep: char -> bool, k: nat): (e: nat)
    requires k <= |s|
    ensures k <= e <= |s|
    ensures forall i :: k <= i < e ==> sep(s[i])
    ensures e == |s| || !sep(s[e])
    decreases |s| - k
  {
    if k < |s| && sep(s[k]) then RunEnd(s, sep, k + 1) else k
  }

  /** `s` with every character `sep` accepts removed. */
  function Strip(s: string, sep: char -> bool): (r: string)
    ensures |r| <= |s|
  {
    if |s| == 0 then "" else (if sep(s[0]) then "" else [s[0]]) + Strip(s[1..], sep)
  }

  /** The number of maximal runs of accepted characters in `s`; `inRun` says
      whether the character before `s` was accepted. A run is counted where
      it starts. */
  function RunCount(s: string, sep: char -> bool, inRun: bool): nat
  {
    if |s| == 0 then 0
    else (if sep(s[0]) && !inRun then 1 else 0) + RunCount(s[1..], sep, sep(s[0]))
  }

  /** Splitting on runs loses exactly the separators: the pieces joined are
      `s` without them, and there is one piece more than there are runs. */
  lemma SplitRunsContent(s: string, sep: char -> bool)
    ensures Concat(SplitRuns(s, sep)) == Strip(s, sep)
    ensures |SplitRuns(s, sep)| == RunCount(s, sep, false) + 1
  {
    SplitRunsJoin(s, sep);
    SplitRunsCount(s, sep);
  }

  /** Where `s` holds a separator, it is the text before the first run, the
      run, and the rest, which does not start with a separator. */
  lemma RunAt(s: string, sep: char -> bool, k: nat, e: nat)
    requires k == FirstMatch(s, sep) < |s| && e == RunEnd(s, sep, k)
    ensures k < e && s == s[..k] + (s[k..e] + s[e..])
    ensures forall i :: 0 <= i < k ==> !sep(s[..k][i])
    ensures forall i :: 0 <= i < e - k ==> sep(s[k..e][i])
    ensures e == |s| || !sep(s[e..][0])
    ensures SplitRuns(s, sep) == [s[..k]] + SplitRuns(s[e..], sep)
  {
    assert s[k..e] + s[e..] == s[k..];
    assert s == s[..k] + s[k..];
  }

  /** Where `s` holds no separator, it is its own single piece. */
  lemma NoRun(s: string, sep: char -> bool)
    requires FirstMatch(s, sep) == |s|
    ensures forall i :: 0 <= i < |s| ==> !sep(s[i])
    ensures SplitRuns(s, sep) == [s]
    ensures s + "" == s
  {
  }

  lemma {:induction false} SplitRunsJoin(s: string, sep: char -> bool)
    ensures Concat(SplitRuns(s, sep)) == Strip(s, sep)
    decreases |s|
  {
    if FirstMatch(s, sep) == |s| {
      NoRun(s, sep);
      StripKeepsPlain(s, "", sep);
      assert Concat([s]) == Concat([s][..0]) + s;
    } else {
      var k := FirstMatch(s, sep);
      var e := RunEnd(s, sep, k);
      RunAt(s, sep, k, e);
      var a, g, b := s[..k], s[k..e], s[e..];
      SplitRunsJoin(b, sep);
      StripKeepsPlain(a, g + b, sep);
      StripDropsRun(g, b, sep);
      ConcatCons(a, SplitRuns(b, sep));
    }
  }

  lemma {:induction false} SplitRunsCount(s: string, sep: char -> bool)
    ensures |SplitRuns(s, sep)| == RunCount(s, sep, false) + 1
    decreases |s|
  {
    if FirstMatch(s, sep) == |s| {
      NoRun(s, sep);
      RunCountAfterPlain(s, "", sep, false);
    } else {
      var k := FirstMatch(s, sep);
      var e := RunEnd(s, sep, k);
      RunAt(s, sep, k, e);
      var a, g, b := s[..k], s[k..e], s[e..];
      SplitRunsCount(b, sep);
      RunCountAfterPlain(a, g + b, sep, false);
      RunCountOfRun(g, b, sep, false);
      assert RunCount(b, sep, true) == RunCount(b, sep, false);
    }
  }

  /** Concatenation from the front. */
  lemma {:induction false} ConcatCons(x: string, rest: seq<string>)
    ensures Concat([x] + rest) == x + Concat(rest)
    decreases |rest|
  {
    if |rest| > 0 {
      var n := |rest|;
      assert ([x] + rest)[..n] == [x] + rest[..n - 1];
      ConcatCons(x, rest[..n - 1]);
    } else {
      assert [x] + rest == [x];
      assert Concat([x]) == Concat([x][..0]) + x;
    }
  }

  /** Characters `sep` rejects survive `Strip` unchanged. */
  lemma {:induction false} StripKeepsPlain(a: string, t: string, sep: char -> bool)
    requires forall i :: 0 <= i < |a| ==> !sep(a[i])
    ensures Strip(a + t, sep) == a + Strip(t, sep)
    decreases |a|
  {
    if |a| > 0 {
      assert (a + t)[1..] == a[1..] + t;
      StripKeepsPlain(a[1..], t, sep);
      assert a == [a[0]] + a[1..];
    } else {
      assert a + t == t;
    }
  }

  /** A run of separators vanishes under `Strip`. */
  lemma {:induction false} StripDropsRun(g: string, t: string, sep: char -> bool)
    requires forall i :: 0 <= i < |g| ==> sep(g[i])
    ensures Strip(g + t, sep) == Strip(t, sep)
    decreases |g|
  {
    if |g| > 0 {
      assert (g + t)[1..] == g[1..] + t;
      StripDropsRun(g[1..], t, sep);
    } else {
      assert g + t == t;
    }
  }

  /** Text without separators starts no run, and ends any run before it. */
  lemma {:induction false} RunCountAfterPlain(a: string, t: string, sep: char -> bool, inRun: bool)
    requires forall i :: 0 <= i < |a| ==> !sep(a[i])
    ensures RunCount(a + t, sep, inRun) == RunCount(t, sep, inRun && |a| == 0)
    decreases |a|
  {
    if |a| > 0 {
      assert (a + t)[1..] == a[1..] + t;
      RunCountAfterPlain(a[1..], t, sep, false);
    } else {
      assert a + t == t;
    }
  }

  /** A non-empty run of separators is one run, unless it continues one. */
  lemma {:induction false} RunCountOfRun(g: string, t: string, sep: char -> bool, inRun: bool)
    requires |g| > 0 && forall i :: 0 <= i < |g| ==> sep(g[i])
    ensures RunCount(g + t, sep, inRun) == (if inRun then 0 else 1) + RunCount(t, sep, true)
    decreases |g|
  {
    assert (g + t)[1..] == g[1..] + t;
    if |g| > 1 {
      RunCountOfRun(g[1..], t, sep, true);
    } else {
      assert g[1..] + t == t;
    }
  }
}
