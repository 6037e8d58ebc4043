/** Finding a query in recognized text without regard to case, and the snippet
    shown around it. */
module OcrSearch {
  import opened Wrappers
  import opened Text

  /** Case folding. A character may fold to several; whole strings have a fold
      of their own, which looks at context (a final sigma). */
  datatype Folding = Folding(ofChar: char -> string, ofText: string -> string)

  ghost predicate Lawful(f: Folding) { forall c :: |f.ofChar(c)| > 0 }

  // ------------------------------------------------------------ specification

  /** The fold of `h[i..j]`, character by character. */
  function FoldRun(f: Folding, h: string, i: nat, j: nat): string
    requires i <= j <= |h|
    decreases j
  {
    if i == j then "" else FoldRun(f, h, i, j - 1) + f.ofChar(h[j - 1])
  }

  /** A run of whole characters that folds to exactly the folded query. */
  predicate MatchesAt(f: Folding, h: string, i: nat, j: nat, folded: string) {
    i < j <= |h| && FoldRun(f, h, i, j) == folded
  }

  lemma {:induction false} FoldGrows(f: Folding, h: string, i: nat, j: nat, k: nat)
    requires Lawful(f) && i <= j <= k <= |h|
    ensures FoldRun(f, h, i, j) <= FoldRun(f, h, i, k)
    ensures j < k ==> |FoldRun(f, h, i, j)| < |FoldRun(f, h, i, k)|
    decreases k
  {
    if j < k {
      FoldGrows(f, h, i, j, k - 1);
      var (shorter, last) := (FoldRun(f, h, i, k - 1), f.ofChar(h[k - 1]));
      hide FoldRun;
      assert |last| > 0 && (shorter + last)[..|shorter|] == shorter;
      assert (shorter + last)[..|FoldRun(f, h, i, j)|] == shorter[..|FoldRun(f, h, i, j)|];
    }
  }

  /** A start has at most one matching end. */
  lemma {:induction false} OneEnd(f: Folding, h: string, i: nat, j: nat, k: nat, folded: string)
    requires Lawful(f) && MatchesAt(f, h, i, j, folded) && MatchesAt(f, h, i, k, folded)
    ensures j == k
  {
    hide FoldRun;
    if j < k {
      FoldGrows(f, h, i, j, k);
    } else if k < j {
      FoldGrows(f, h, i, k, j);
    }
  }

  lemma {:induction false} MismatchStays(f: Folding, h: string, i: nat, j: nat, folded: string)
    requires Lawful(f) && i <= j <= |h| && !(FoldRun(f, h, i, j) <= folded)
    ensures forall k | j <= k <= |h| :: !MatchesAt(f, h, i, k, folded)
  {
    hide FoldRun;
    forall k | j <= k <= |h|
      ensures !MatchesAt(f, h, i, k, folded)
    {
      FoldGrows(f, h, i, j, k);
    }
  }

  lemma {:induction false} NothingFoldsToNothing(f: Folding, h: string, i: nat, j: nat)
    requires Lawful(f) && i < j <= |h|
    ensures |FoldRun(f, h, i, j)| > 0
  {
    FoldGrows(f, h, i, i, j);
  }

  // --------------------------------------------------------------- the search

  /** The end of the match at `start`, if there is one. */
  method MatchEnd(f: Folding, h: string, start: nat, folded: string) returns (end: Option<nat>)
    requires Lawful(f) && start < |h| && |folded| > 0
    ensures end.Some? ==> MatchesAt(f, h, start, end.value, folded)
    ensures end.None? ==> forall j | start < j <= |h| :: !MatchesAt(f, h, start, j, folded)
  {
    var candidate := "";
    for j := start to |h|
      invariant candidate == FoldRun(f, h, start, j)
      invariant forall k | start < k <= j :: !MatchesAt(f, h, start, k, folded)
    {
      candidate := candidate + f.ofChar(h[j]);
      if !(candidate <= folded) {
        MismatchStays(f, h, start, j + 1, folded);
        return None;
      }
      if candidate == folded {
        return Some(j + 1);
      }
    }
    end := None;
  }

  /** The earliest start whose characters fold to exactly the folded query, and
      `None` only when there is none anywhere. */
  method FindCaseInsensitive(f: Folding, h: string, needle: string) returns (found: Option<(nat, nat)>)
    requires Lawful(f)
    ensures found.Some? ==> MatchesAt(f, h, found.value.0, found.value.1, f.ofText(needle))
    ensures found.Some? ==> forall i, j | 0 <= i < found.value.0 :: !MatchesAt(f, h, i, j, f.ofText(needle))
    ensures found.None? ==> forall i, j :: !MatchesAt(f, h, i, j, f.ofText(needle))
  {
    hide FoldRun;
    var folded := f.ofText(needle);
    if |folded| == 0 {
      NothingMatchesNothing(f, h, folded);
      return None;
    }
    for start := 0 to |h|
      invariant forall i, j | 0 <= i < start :: !MatchesAt(f, h, i, j, folded)
    {
      var end := MatchEnd(f, h, start, folded);
      if end.Some? {
        return Some((start, end.value));
      }
    }
    found := None;
  }

  lemma {:induction false} NothingMatchesNothing(f: Folding, h: string, folded: string)
    requires Lawful(f) && |folded| == 0
    ensures forall i, j :: !MatchesAt(f, h, i, j, folded)
  {
    hide FoldRun;
    forall i: nat, j: nat | i < j <= |h|
      ensures FoldRun(f, h, i, j) != folded
    {
      NothingFoldsToNothing(f, h, i, j);
    }
  }

  lemma {:induction false} FoldSplits(f: Folding, h: string, i: nat, j: nat, k: nat)
    requires i <= j <= k <= |h|
    ensures FoldRun(f, h, i, k) == FoldRun(f, h, i, j) + FoldRun(f, h, j, k)
    decreases k - j
  {
    if j < k {
      FoldSplits(f, h, i, j, k - 1);
    }
  }

  /** A run that folds to as much as the whole text does is the whole text. */
  lemma {:induction false} LongestRunIsWhole(f: Folding, h: string, i: nat, j: nat)
    requires Lawful(f) && i <= j <= |h| && |FoldRun(f, h, i, j)| == |FoldRun(f, h, 0, |h|)|
    ensures i == 0 || i == j
    ensures |h| > 0 ==> i == 0 && j == |h|
  {
    FoldSplits(f, h, 0, i, |h|);
    FoldSplits(f, h, i, j, |h|);
    FoldGrows(f, h, 0, 0, i);
    FoldGrows(f, h, j, j, |h|);
    FoldGrows(f, h, 0, 0, |h|);
  }

  /** Folding a string changes characters one for one where context matters, so
      it is as long as its characters' folds. */
  predicate FoldsInPlace(f: Folding, text: string) { |f.ofText(text)| == |FoldRun(f, text, 0, |text|)| }

  /** A text is found in itself, anywhere at all, exactly when folding it as a
      string is folding it character by character. */
  lemma {:induction false} FindsItselfIff(f: Folding, text: string)
    requires Lawful(f) && |text| > 0 && FoldsInPlace(f, text)
    ensures (exists i, j :: MatchesAt(f, text, i, j, f.ofText(text))) <==> f.ofText(text) == FoldRun(f, text, 0, |text|)
    ensures forall i, j | MatchesAt(f, text, i, j, f.ofText(text)) :: i == 0 && j == |text|
  {
    hide FoldRun;
    forall i, j | MatchesAt(f, text, i, j, f.ofText(text))
      ensures i == 0 && j == |text|
    {
      LongestRunIsWhole(f, text, i, j);
    }
    assert f.ofText(text) == FoldRun(f, text, 0, |text|) ==> MatchesAt(f, text, 0, |text|, f.ofText(text));
  }

  /** The same for the search as it runs: it answers with the whole text, or,
      where the two folds differ, with nothing. */
  method FindInItself(f: Folding, text: string) returns (found: Option<(nat, nat)>)
    requires Lawful(f) && |text| > 0 && FoldsInPlace(f, text)
    ensures found == if f.ofText(text) == FoldRun(f, text, 0, |text|) then Some((0, |text|)) else None
  {
    hide FoldRun, MatchesAt;
    found := FindCaseInsensitive(f, text, text);
    FindsItselfIff(f, text);
  }

  /** A query standing literally in the text matches there exactly when the
      query's two folds agree. */
  lemma {:induction false} OccurrenceMatchesIff(f: Folding, h: string, i: nat, needle: string)
    requires Lawful(f) && |needle| > 0 && i + |needle| <= |h| && h[i..i + |needle|] == needle
    ensures MatchesAt(f, h, i, i + |needle|, f.ofText(needle)) <==> f.ofText(needle) == FoldRun(f, needle, 0, |needle|)
  {
    FoldIsLocal(f, h, i, needle, |needle|);
  }

  lemma {:induction false} FoldIsLocal(f: Folding, h: string, i: nat, needle: string, n: nat)
    requires n <= |needle| && i + |needle| <= |h| && h[i..i + |needle|] == needle
    ensures FoldRun(f, h, i, i + n) == FoldRun(f, needle, 0, n)
  {
    if n > 0 {
      FoldIsLocal(f, h, i, needle, n - 1);
      assert h[i + n - 1] == needle[n - 1];
    }
  }

  const ALPHA: char := '\U{0391}'
  const SIGMA: char := '\U{03A3}'

  /** A word ending in a capital sigma does not find itself: as a string its
      last letter folds to the final form, alone it folds to the medial one. */
  lemma {:induction false} FinalSigmaFindsNothing(f: Folding, i: nat, j: nat)
    requires Lawful(f)
    requires f.ofChar(ALPHA) == "\U{03B1}" && f.ofChar(SIGMA) == "\U{03C3}"
    requires f.ofText([ALPHA, SIGMA]) == "\U{03B1}\U{03C2}"
    ensures !MatchesAt(f, [ALPHA, SIGMA], i, j, f.ofText([ALPHA, SIGMA]))
  {
    var word := [ALPHA, SIGMA];
    assert FoldRun(f, word, 0, 0) == "" && FoldRun(f, word, 1, 1) == "";
    assert FoldRun(f, word, 0, 1) == "\U{03B1}";
    assert FoldRun(f, word, 1, 2) == "\U{03C3}";
    assert FoldRun(f, word, 0, 2)[1] == '\U{03C3}';
  }

  // -------------------------------------------------------------- the snippet

  const OCR_SNIPPET_CHAR_LIMIT: nat := 96
  const ELLIPSIS: char := '\U{2026}'

  datatype OcrMatch = OcrMatch(before: string, matched: string, after: string) {
    function Length(): nat { |before| + |matched| + |after| }
  }

  predicate IsSuffix(a: string, b: string) { |a| <= |b| && b[|b| - |a|..] == a }

  /** A cropped piece starts, or ends, where a word does; only one long word can
      be cut itself. */
  predicate WordsKept(piece: string, limit: nat, cut: char) {
    |piece| == limit || IsWhitespace(cut)
  }

  method FirstWhitespace(s: string) returns (at: nat)
    ensures at <= |s| && (at < |s| ==> IsWhitespace(s[at])) && forall k | 0 <= k < at :: !IsWhitespace(s[k])
  {
    at := 0;
    while at < |s| && !IsWhitespace(s[at])
      invariant at <= |s| && forall k | 0 <= k < at :: !IsWhitespace(s[k])
    {
      at := at + 1;
    }
  }

  method TrimStart(s: string) returns (from: nat)
    ensures from <= |s| && (from < |s| ==> !IsWhitespace(s[from])) && forall k | 0 <= k < from :: IsWhitespace(s[k])
  {
    from := 0;
    while from < |s| && IsWhitespace(s[from])
      invariant from <= |s| && forall k | 0 <= k < from :: IsWhitespace(s[k])
    {
      from := from + 1;
    }
  }

  /** The end of the text: all of it when it fits, else from a word start. */
  method TailChars(value: string, limit: nat) returns (tail: string, cropped: bool)
    ensures IsSuffix(tail, value) && |tail| <= limit && cropped == (|value| > limit)
    ensures !cropped ==> tail == value
    ensures cropped && |tail| < |value| ==> WordsKept(tail, limit, value[|value| - |tail| - 1])
  {
    if |value| <= limit {
      return value, false;
    }
    var last := value[|value| - limit..];
    var space := FirstWhitespace(last);
    if space == |last| {
      return last, true;
    }
    var from := TrimStart(last[space..]);
    tail, cropped := last[space + from..], true;
    assert last[space..][from - 1] == last[space + from - 1] == value[|value| - limit + space + from - 1] by {
      assert from > 0;
    }
    assert tail == value[|value| - limit + space + from..];
  }

  /** The start of the text: all of it when it fits, else up to a word end. */
  method HeadChars(value: string, limit: nat) returns (head: string, cropped: bool)
    ensures head <= value && |head| <= limit && cropped == (|value| > limit)
    ensures !cropped ==> head == value
    ensures cropped && |head| < |value| ==> WordsKept(head, limit, value[|head|])
  {
    if |value| <= limit {
      return value, false;
    }
    var length := limit;
    while 0 < length && !IsWhitespace(value[length - 1])
      invariant 0 <= length <= limit
    {
      length := length - 1;
    }
    head, cropped := value[..if length == 0 then limit else length - 1], true;
  }

  /** Context as shown: nothing, or a piece with its separator, and an ellipsis
      on the far side exactly when something was left out. */
  ghost predicate ShowsTail(shown: string, value: string, limit: nat) {
    exists piece ::
      && IsSuffix(piece, value) && |piece| <= limit && (|value| <= limit ==> piece == value)
      && shown == Separated((if |value| > limit then [ELLIPSIS] else "") + piece)
  }

  function Separated(before: string): string { if |before| > 0 then before + " " else "" }

  ghost predicate ShowsHead(shown: string, value: string, limit: nat) {
    exists piece ::
      && piece <= value && |piece| <= limit && (|value| <= limit ==> piece == value)
      && shown == (if |piece| > 0 then " " + piece else "") + (if |value| > limit then [ELLIPSIS] else "")
  }

  /** The snippet around `text[start..end]`: at most 96 characters, with the
      match whole unless it alone is too long, and context only from the text. */
  ghost predicate SnippetOf(text: string, start: nat, end: nat, shown: OcrMatch)
    requires start <= end <= |text|
  {
    var (before, matched, after) := (Normalize(text[..start]), Normalize(text[start..end]), Normalize(text[end..]));
    && shown.Length() <= OCR_SNIPPET_CHAR_LIMIT
    && (if |matched| >= OCR_SNIPPET_CHAR_LIMIT then
          |shown.matched| > 0 && shown.matched[..|shown.matched| - 1] <= matched
          && shown.matched[|shown.matched| - 1] == ELLIPSIS && shown.before == "" && shown.after == ""
        else
          shown.matched == matched &&
          if |matched| + 4 >= OCR_SNIPPET_CHAR_LIMIT then shown.before == "" && shown.after == ""
          else
            var room := OCR_SNIPPET_CHAR_LIMIT - |matched| - 4;
            ShowsTail(shown.before, before, room / 2) && ShowsHead(shown.after, after, room - room / 2))
  }

  /** The context before a match, with its ellipsis and separator. */
  method ContextBefore(value: string, limit: nat) returns (shown: string)
    ensures ShowsTail(shown, value, limit) && |shown| <= limit + 2
  {
    hide WordsKept;
    var tail, cropped := TailChars(value, limit);
    shown := if cropped then [ELLIPSIS] + tail else "" + tail;
    shown := if |shown| > 0 then shown + " " else shown;
    hide IsSuffix;
    assert shown == Separated((if |value| > limit then [ELLIPSIS] else "") + tail);
  }

  method ContextAfter(value: string, limit: nat) returns (shown: string)
    ensures ShowsHead(shown, value, limit) && |shown| <= limit + 2
  {
    hide WordsKept;
    var head, cropped := HeadChars(value, limit);
    shown := if |head| > 0 then " " + head else head;
    shown := if cropped then shown + [ELLIPSIS] else shown;
    assert shown == (if |head| > 0 then " " + head else "") + (if |value| > limit then [ELLIPSIS] else "");
  }

  method Snippet(text: string, start: nat, end: nat) returns (shown: OcrMatch)
    requires start <= end <= |text|
    ensures SnippetOf(text, start, end, shown)
  {
    hide Normalize, ShowsTail, ShowsHead, WordsKept;
    var matched := Normalize(text[start..end]);
    var before := Normalize(text[..start]);
    var after := Normalize(text[end..]);
    if |matched| >= OCR_SNIPPET_CHAR_LIMIT {
      var head, cropped := HeadChars(matched, OCR_SNIPPET_CHAR_LIMIT - 1);
      assert (head + [ELLIPSIS])[..|head|] == head;
      return OcrMatch("", head + [ELLIPSIS], "");
    }
    if |matched| + 4 >= OCR_SNIPPET_CHAR_LIMIT {
      return OcrMatch("", matched, "");
    }
    var remaining := OCR_SNIPPET_CHAR_LIMIT - |matched| - 4;
    var shownBefore := ContextBefore(before, remaining / 2);
    var shownAfter := ContextAfter(after, remaining - remaining / 2);
    shown := OcrMatch(shownBefore, matched, shownAfter);
  }

  method BuildOcrMatch(f: Folding, text: string, query: string) returns (shown: Option<OcrMatch>)
    requires Lawful(f)
    ensures shown.None? ==> forall i, j :: !MatchesAt(f, text, i, j, f.ofText(Trim(query)))
    ensures shown.Some? ==> exists i: nat, j: nat ::
      MatchesAt(f, text, i, j, f.ofText(Trim(query))) && SnippetOf(text, i, j, shown.value)
      && forall k: nat, l: nat | k < i :: !MatchesAt(f, text, k, l, f.ofText(Trim(query)))
  {
    hide SnippetOf, FoldRun, Trim;
    var found := FindCaseInsensitive(f, text, Trim(query));
    if found.None? {
      return None;
    }
    var snippet := Snippet(text, found.value.0, found.value.1);
    shown := Some(snippet);
  }

  function Trim(s: string): string {
    if |s| > 0 && IsWhitespace(s[0]) then Trim(s[1..])
    else if |s| > 0 && IsWhitespace(s[|s| - 1]) then Trim(s[..|s| - 1])
    else s
  }
}
