/** The meaning of RTF as nested groups, and the proof that the byte loop reads
    printed documents with that meaning.

    The meaning is compositional: it knows nothing of depth counters or of the
    level at which a skip began. A group inherits whether it is skipped; a
    non-content destination or `\*` skips the rest of the group that holds it. */
module RtfMeaning {
  import opened Rtf
  import opened Strings
  import opened Wrappers
  import Text

  datatype Leaf =
    | Char(c: char)
    | LineBreak(c: char)
    | Escaped(c: char)
    | Hex(hi: char, lo: char)
    | Star
    | Symbol(c: char)
    | Control(word: string, param: string, spaced: bool)
    | UnicodeChar(param: string, spaced: bool, fallback: string)
    | Bin(digits: string, payload: string)

  datatype Doc = End | Then(leaf: Leaf, rest: Doc) | Group(body: Doc, rest: Doc)

  // ---------------------------------------------------------------- printing

  function Delimiter(spaced: bool): string { if spaced then " " else "" }

  function PrintWord(word: string, param: string): string { "\\" + (word + param) }

  function PrintLeaf(leaf: Leaf): string {
    match leaf
    case Char(c) => [c]
    case LineBreak(c) => [c]
    case Escaped(c) => ['\\', c]
    case Hex(hi, lo) => ['\\', '\'', hi, lo]
    case Star => ['\\', '*']
    case Symbol(c) => ['\\', c]
    case Control(word, param, spaced) => PrintWord(word, param) + Delimiter(spaced)
    case UnicodeChar(param, spaced, fallback) => PrintWord("u", param) + (Delimiter(spaced) + fallback)
    case Bin(digits, payload) => PrintWord("bin", digits) + payload
  }

  function Print(doc: Doc): string {
    match doc
    case End => ""
    case Then(leaf, rest) => PrintLeaf(leaf) + Print(rest)
    case Group(body, rest) => "{" + (Print(body) + ("}" + Print(rest)))
  }

  // ------------------------------------------------------------ well-formedness

  predicate AllAlpha(s: string) { forall k :: 0 <= k < |s| ==> IsAlpha(s[k]) }

  predicate IsParam(s: string) { AllDigits(s) || (s[0] == '-' && AllDigits(s[1..])) }

  function First(s: string, next: Option<char>): Option<char> {
    if s != [] then Some(s[0]) else next
  }

  /** A delimiter that is left out must not be missed. */
  predicate Delimited(param: string, spaced: bool, next: Option<char>) {
    spaced || next.None? ||
    (next.value != ' ' && !IsDigit(next.value) && (param == "" ==> !IsAlpha(next.value) && next.value != '-'))
  }

  /** `fallback` is the `\uc` length in force, `next` the byte after the leaf. */
  predicate WfLeaf(leaf: Leaf, fallback: nat, next: Option<char>) {
    match leaf
    case Char(c) => !IsEscaped(c) && c != '\n' && c != '\r'
    case LineBreak(c) => c == '\n' || c == '\r'
    case Escaped(c) => IsEscaped(c)
    case Hex(hi, lo) => IsHex(hi) && IsHex(lo) && !(next.Some? && 0x80 <= next.value as int <= 0xBF)
    case Star => true
    case Symbol(c) => !IsEscaped(c) && c != '\'' && c != '*' && !IsAlpha(c)
    case Control(word, param, spaced) =>
      word != "" && AllAlpha(word) && !Classify(word).Binary? && !Classify(word).Unicode? &&
      IsParam(param) && Delimited(param, spaced, next)
    case UnicodeChar(param, spaced, bytes) =>
      IsParam(param) && |bytes| == fallback && Delimited(param, spaced, First(bytes, next))
    case Bin(digits, payload) =>
      digits != "" && AllDigits(digits) && ParseI32(digits) == Some(|payload|) &&
      (First(payload, next).None? || !IsDigit(First(payload, next).value))
  }

  function FallbackAfter(leaf: Leaf, fallback: nat): nat {
    if leaf.Control? && Classify(leaf.word).FallbackLength? && ParseI32(leaf.param).Some?
    then Clamp(ParseI32(leaf.param)) else fallback
  }

  predicate Wf(doc: Doc, fallback: nat, next: Option<char>)
    decreases doc
  {
    match doc
    case End => true
    case Then(leaf, rest) =>
      WfLeaf(leaf, fallback, First(Print(rest), next)) && Wf(rest, FallbackAfter(leaf, fallback), next)
    case Group(body, rest) =>
      Wf(body, fallback, Some('}')) && Wf(rest, FallbackAfterDoc(body, fallback), next)
  }

  /** `\uc` is not scoped to its group: it holds until the next one. */
  function FallbackAfterDoc(doc: Doc, fallback: nat): nat
    decreases doc
  {
    match doc
    case End => fallback
    case Then(leaf, rest) => FallbackAfterDoc(rest, FallbackAfter(leaf, fallback))
    case Group(body, rest) => FallbackAfterDoc(rest, FallbackAfterDoc(body, fallback))
  }

  // ----------------------------------------------------------------- meaning

  /** Opens a destination whose group is not copied text. */
  predicate StartsSkip(leaf: Leaf) {
    leaf.Star? || (leaf.Control? && Classify(leaf.word).NonContent?)
  }

  function LeafText(leaf: Leaf): string {
    match leaf
    case Char(c) => [c]
    case Escaped(c) => [c]
    case Hex(hi, lo) => HexText(hi, lo)
    case Control(word, _, _) => if Classify(word).Break? then " " else ""
    case UnicodeChar(param, _, _) => UnicodeText(ParseI32(param))
    case _ => ""
  }

  function Meaning(doc: Doc, skipped: bool): string {
    match doc
    case End => ""
    case Then(leaf, rest) =>
      (if skipped then "" else LeafText(leaf)) + Meaning(rest, skipped || StartsSkip(leaf))
    case Group(body, rest) => Meaning(body, skipped) + Meaning(rest, skipped)
  }

  /** A destination opened directly in `doc`, not in one of its groups. */
  predicate OpensSkip(doc: Doc) {
    match doc
    case End => false
    case Then(leaf, rest) => StartsSkip(leaf) || OpensSkip(rest)
    case Group(_, rest) => OpensSkip(rest)
  }

  // -------------------------------------------------------- one printed token

  function At(s: string, i: nat): Option<char> {
    if i < |s| then Some(s[i]) else None
  }

  lemma {:induction false} AlphaEndIs(s: string, i: nat, j: nat)
    requires i <= j <= |s| && (j < |s| ==> !IsAlpha(s[j]))
    requires forall k :: i <= k < j ==> IsAlpha(s[k])
    ensures AlphaEnd(s, i) == j
    decreases |s| - i
  {
    if i < j { AlphaEndIs(s, i + 1, j); }
  }

  lemma {:induction false} DigitEndIs(s: string, i: nat, j: nat)
    requires i <= j <= |s| && (j < |s| ==> !IsDigit(s[j]))
    requires forall k :: i <= k < j ==> IsDigit(s[k])
    ensures DigitEnd(s, i) == j
    decreases |s| - i
  {
    if i < j { DigitEndIs(s, i + 1, j); }
  }

  lemma {:induction false} ParamEndIs(s: string, i: nat, p: string)
    requires IsParam(p) && Holds(s, i, p)
    requires At(s, i + |p|).Some? ==> !IsDigit(s[i + |p|]) && (p == "" ==> s[i + |p|] != '-')
    ensures ParamEnd(s, i) == i + |p|
  {
    var digits := if p != "" && p[0] == '-' then i + 1 else i;
    forall k | digits <= k < i + |p| ensures IsDigit(s[k]) {
      assert s[k] == p[k - i];
      assert p[0] == '-' ==> p[k - i] == p[1..][k - i - 1];
    }
    assert p != "" ==> s[i] == p[0];
    DigitEndIs(s, digits, i + |p|);
  }

  /** The byte after the parameter cannot be taken for part of it. */
  predicate Bounded(s: string, j: nat, param: string) {
    j < |s| ==> !IsDigit(s[j]) && (param == "" ==> !IsAlpha(s[j]) && s[j] != '-')
  }

  lemma {:induction false} LexIs(s: string, w: nat, word: string, param: string)
    requires word != "" && AllAlpha(word) && IsParam(param)
    requires Holds(s, w, word) && Holds(s, w + |word|, param)
    requires Bounded(s, w + |word| + |param|, param)
    ensures IsAlpha(s[w]) && AlphaEnd(s, w) == w + |word|
    ensures ParamEnd(s, w + |word|) == w + |word| + |param|
  {
    forall k | w <= k < w + |word| ensures IsAlpha(s[k]) { assert s[k] == word[k - w]; }
    assert s[w] == word[0];
    assert param != "" ==> s[w + |word|] == param[0];
    AlphaEndIs(s, w, w + |word|);
    ParamEndIs(s, w + |word|, param);
  }

  lemma {:induction false} WordStepIs(s: string, w: nat, word: string, param: string, st: State)
    requires w + |word| + |param| <= |s| && w < |s| && IsAlpha(s[w])
    requires AlphaEnd(s, w) == w + |word| && s[w..w + |word|] == word
    requires ParamEnd(s, w + |word|) == w + |word| + |param|
    requires s[w + |word|..w + |word| + |param|] == param
    ensures WordStep(s, w, st)
         == (OperandEnd(Classify(word), ParseI32(param), st.fallback, s, w + |word| + |param|),
             WordEffect(Classify(word), ParseI32(param), st))
  {
    hide Classify, ParseI32, WordEffect, OperandEnd;
  }

  /** A backslash, a word and its parameter are lexed as printed. */
  lemma {:induction false} WordIs(s: string, i: nat, word: string, param: string, st: State)
    requires word != "" && AllAlpha(word) && IsParam(param)
    requires Holds(s, i, PrintWord(word, param))
    requires Bounded(s, i + 1 + |word| + |param|, param)
    ensures i + 1 < |s| && s[i] == '\\' && IsAlpha(s[i + 1])
    ensures WordStep(s, i + 1, st)
         == (OperandEnd(Classify(word), ParseI32(param), st.fallback, s, i + 1 + |word| + |param|),
             WordEffect(Classify(word), ParseI32(param), st))
  {
    hide WordStep, Classify, ParseI32, WordEffect, OperandEnd, Bounded, AllAlpha, IsParam;
    HoldsParts(s, i, "\\", word + param);
    HoldsParts(s, i + 1, word, param);
    assert s[i] == "\\"[0];
    hide Holds;
    LexIs(s, i + 1, word, param);
    HoldsSlice(s, i + 1, word, 0, |word|);
    assert word[0..|word|] == word && param[0..|param|] == param;
    HoldsSlice(s, i + 1 + |word|, param, 0, |param|);
    WordStepIs(s, i + 1, word, param, st);
  }

  lemma {:induction false} StepBrace(s: string, i: nat, st: State)
    requires i < |s|
    ensures s[i] == '{' ==> Step(s, i, st) == (i + 1, st.Open())
    ensures s[i] == '}' ==> Step(s, i, st) == (i + 1, st.Close())
  {
  }

  lemma {:induction false} StepWord(s: string, i: nat, st: State)
    requires i + 1 < |s| && s[i] == '\\' && IsAlpha(s[i + 1])
    ensures Step(s, i, st) == WordStep(s, i + 1, st)
  {
  }

  function AfterLeaf(leaf: Leaf, st: State): State {
    (if StartsSkip(leaf) then st.StartSkip() else st.Push(LeafText(leaf)))
      .(fallback := FallbackAfter(leaf, st.fallback))
  }

  /** The word and parameter of a leaf that prints as a control word. */
  function WordOf(leaf: Leaf): (string, string) {
    match leaf
    case UnicodeChar(param, _, _) => ("u", param)
    case Bin(digits, _) => ("bin", digits)
    case Control(word, param, _) => (word, param)
    case _ => ("", "")
  }

  predicate PrintsWord(leaf: Leaf) { leaf.Control? || leaf.UnicodeChar? || leaf.Bin? }

  function Operand(leaf: Leaf): string {
    match leaf
    case UnicodeChar(_, spaced, fallback) => Delimiter(spaced) + fallback
    case Bin(_, payload) => payload
    case Control(_, _, spaced) => Delimiter(spaced)
    case _ => ""
  }

  lemma {:induction false} WordLeafEffect(leaf: Leaf, fallback: nat, next: Option<char>, st: State)
    requires PrintsWord(leaf) && WfLeaf(leaf, fallback, next)
    ensures WordEffect(Classify(WordOf(leaf).0), ParseI32(WordOf(leaf).1), st) == AfterLeaf(leaf, st)
  {
    assert st.out + "" == st.out;
  }

  lemma {:induction false} WordLeafEnd(s: string, j: nat, leaf: Leaf, fallback: nat)
    requires PrintsWord(leaf) && Holds(s, j, Operand(leaf))
    requires WfLeaf(leaf, fallback, At(s, j + |Operand(leaf)|))
    ensures OperandEnd(Classify(WordOf(leaf).0), ParseI32(WordOf(leaf).1), fallback, s, j) == j + |Operand(leaf)|
  {
    assert Operand(leaf) != "" ==> s[j] == Operand(leaf)[0];
  }

  lemma {:induction false} SplitWord(s: string, i: nat, leaf: Leaf)
    requires PrintsWord(leaf) && Holds(s, i, PrintLeaf(leaf))
    ensures |PrintLeaf(leaf)| == |PrintWord(WordOf(leaf).0, WordOf(leaf).1)| + |Operand(leaf)|
    ensures Holds(s, i, PrintWord(WordOf(leaf).0, WordOf(leaf).1))
    ensures Holds(s, i + |PrintWord(WordOf(leaf).0, WordOf(leaf).1)|, Operand(leaf))
  {
    HoldsParts(s, i, PrintWord(WordOf(leaf).0, WordOf(leaf).1), Operand(leaf));
  }

  lemma {:induction false} WordLeafBounded(s: string, j: nat, leaf: Leaf, fallback: nat)
    requires PrintsWord(leaf) && Holds(s, j, Operand(leaf))
    requires WfLeaf(leaf, fallback, At(s, j + |Operand(leaf)|))
    ensures Bounded(s, j, WordOf(leaf).1)
    ensures WordOf(leaf).0 != "" && AllAlpha(WordOf(leaf).0) && IsParam(WordOf(leaf).1)
  {
    assert Operand(leaf) != "" ==> s[j] == Operand(leaf)[0];
  }

  lemma {:induction false} WordLeafStep(s: string, i: nat, leaf: Leaf, st: State)
    requires PrintsWord(leaf) && Holds(s, i, PrintLeaf(leaf))
    requires WfLeaf(leaf, st.fallback, At(s, i + |PrintLeaf(leaf)|))
    ensures i < |s| && Step(s, i, st) == (i + |PrintLeaf(leaf)|, AfterLeaf(leaf, st))
  {
    hide Step, WordStep, WordEffect, OperandEnd, Classify, ParseI32, AfterLeaf;
    hide Holds, PrintLeaf, WfLeaf, Operand, AllAlpha, IsParam, Bounded;
    var (word, param) := WordOf(leaf);
    var head := PrintWord(word, param);
    SplitWord(s, i, leaf);
    WordLeafBounded(s, i + |head|, leaf, st.fallback);
    WordIs(s, i, word, param, st);
    StepWord(s, i, st);
    WordLeafEnd(s, i + |head|, leaf, st.fallback);
    WordLeafEffect(leaf, st.fallback, At(s, i + |PrintLeaf(leaf)|), st);
  }

  lemma {:induction false} LeafStep(s: string, i: nat, leaf: Leaf, st: State)
    requires Holds(s, i, PrintLeaf(leaf))
    requires WfLeaf(leaf, st.fallback, At(s, i + |PrintLeaf(leaf)|))
    ensures i < |s| && Step(s, i, st) == (i + |PrintLeaf(leaf)|, AfterLeaf(leaf, st))
  {
    if PrintsWord(leaf) {
      WordLeafStep(s, i, leaf, st);
    } else {
      var p := PrintLeaf(leaf);
      assert st.out + "" == st.out;
      assert s[i] == p[0];
      assert |p| > 1 ==> s[i + 1] == p[1];
      assert |p| > 2 ==> s[i + 2] == p[2] && s[i + 3] == p[3];
    }
  }

  // ------------------------------------------------------------ the main result

  function AfterDoc(doc: Doc, st: State): State {
    State(st.out + Meaning(doc, st.skip.Some?), st.depth,
          if st.skip.None? && OpensSkip(doc) then Some(st.depth) else st.skip,
          FallbackAfterDoc(doc, st.fallback), st.panicked)
  }

  lemma {:induction false} ScanStep(s: string, i: nat, st: State, j: nat, st1: State)
    requires i < |s| && Step(s, i, st) == (j, st1)
    ensures Scan(s, i, st) == Scan(s, j, st1)
  {
  }

  lemma {:induction false} AfterLeafIs(leaf: Leaf, st: State)
    requires st.Inv()
    ensures var st1 := AfterLeaf(leaf, st);
            && st1.out == st.out + (if st.skip.None? then LeafText(leaf) else "")
            && st1.depth == st.depth && st1.fallback == FallbackAfter(leaf, st.fallback) && st1.panicked == st.panicked
            && st1.skip == (if st.skip.None? && StartsSkip(leaf) then Some(st.depth) else st.skip) && st1.Inv()
  {
    assert StartsSkip(leaf) ==> LeafText(leaf) == "";
    hide LeafText, StartsSkip, FallbackAfter;
    assert st.out + "" == st.out;
  }

  lemma {:induction false} AfterThen(leaf: Leaf, rest: Doc, st: State)
    requires st.Inv()
    ensures AfterLeaf(leaf, st).fallback == FallbackAfter(leaf, st.fallback)
    ensures AfterLeaf(leaf, st).Inv() && AfterDoc(rest, AfterLeaf(leaf, st)) == AfterDoc(Then(leaf, rest), st)
  {
    AfterLeafIs(leaf, st);
    hide LeafText, StartsSkip, FallbackAfter, AfterLeaf;
    var text := if st.skip.None? then LeafText(leaf) else "";
    var tail := Meaning(rest, AfterLeaf(leaf, st).skip.Some?);
    assert (st.out + text) + tail == st.out + (text + tail);
  }

  /** Closing the group undoes any skip its body started, and its depth. */
  lemma {:induction false} AfterGroup(body: Doc, rest: Doc, st: State)
    requires st.Inv()
    ensures var st1 := AfterDoc(body, st.Open()).Close();
            st1.Inv() && st1.depth == st.depth && st1.skip == st.skip &&
            AfterDoc(rest, st1) == AfterDoc(Group(body, rest), st)
  {
    var head, tail := Meaning(body, st.skip.Some?), Meaning(rest, st.skip.Some?);
    assert (st.out + head) + tail == st.out + (head + tail);
  }

  /** Scanning a printed document appends its meaning and restores the depth;
      only a destination of its own level leaves a skip behind. */
  lemma {:induction false} ScanPrinted(s: string, i: nat, doc: Doc, st: State)
    requires st.Inv() && Holds(s, i, Print(doc))
    requires Wf(doc, st.fallback, At(s, i + |Print(doc)|))
    ensures Scan(s, i, st) == Scan(s, i + |Print(doc)|, AfterDoc(doc, st))
    decreases doc, 1
  {
    match doc
    case End => assert st.out + "" == st.out;
    case Then(_, _) => ScanThen(s, i, doc, st);
    case Group(_, _) => ScanGroup(s, i, doc, st);
  }

  lemma {:induction false} ScanThen(s: string, i: nat, doc: Doc, st: State)
    requires doc.Then? && st.Inv() && Holds(s, i, Print(doc))
    requires Wf(doc, st.fallback, At(s, i + |Print(doc)|))
    ensures Scan(s, i, st) == Scan(s, i + |Print(doc)|, AfterDoc(doc, st))
    decreases doc, 0
  {
    hide Step, Scan, AfterLeaf, AfterDoc, WfLeaf, Holds, Print, PrintLeaf;
    var j := i + |PrintLeaf(doc.leaf)|;
    SplitThen(s, i, doc);
    LeafStep(s, i, doc.leaf, st);
    ScanStep(s, i, st, j, AfterLeaf(doc.leaf, st));
    AfterThen(doc.leaf, doc.rest, st);
    ScanPrinted(s, j, doc.rest, AfterLeaf(doc.leaf, st));
  }

  lemma {:induction false} SplitThen(s: string, i: nat, doc: Doc)
    requires doc.Then? && Holds(s, i, Print(doc))
    ensures |Print(doc)| == |PrintLeaf(doc.leaf)| + |Print(doc.rest)|
    ensures Holds(s, i, PrintLeaf(doc.leaf)) && Holds(s, i + |PrintLeaf(doc.leaf)|, Print(doc.rest))
    ensures At(s, i + |PrintLeaf(doc.leaf)|) == First(Print(doc.rest), At(s, i + |Print(doc)|))
  {
    hide PrintLeaf;
    var p, q := PrintLeaf(doc.leaf), Print(doc.rest);
    HoldsParts(s, i, p, q);
    assert q != "" ==> s[i + |p|] == q[0];
  }

  lemma {:induction false} SplitGroup(s: string, i: nat, doc: Doc) returns (close: nat)
    requires doc.Group? && Holds(s, i, Print(doc))
    ensures close == i + 1 + |Print(doc.body)| && i + |Print(doc)| == close + 1 + |Print(doc.rest)|
    ensures Holds(s, i + 1, Print(doc.body)) && Holds(s, close + 1, Print(doc.rest))
    ensures close < |s| && s[i] == '{' && s[close] == '}'
  {
    var p, q := Print(doc.body), Print(doc.rest);
    HoldsParts(s, i, "{", p + ("}" + q));
    HoldsParts(s, i + 1, p, "}" + q);
    HoldsParts(s, i + 1 + |p|, "}", q);
    close := i + 1 + |p|;
    assert s[i] == "{"[0] && s[close] == "}"[0];
  }

  lemma {:induction false} ScanGroup(s: string, i: nat, doc: Doc, st: State)
    requires doc.Group? && st.Inv() && Holds(s, i, Print(doc))
    requires Wf(doc, st.fallback, At(s, i + |Print(doc)|))
    ensures Scan(s, i, st) == Scan(s, i + |Print(doc)|, AfterDoc(doc, st))
    decreases doc, 0
  {
    hide Scan, Step, Meaning, Print, Holds, OpensSkip;
    var close := SplitGroup(s, i, doc);
    var inner := AfterDoc(doc.body, st.Open());
    StepBrace(s, i, st);
    ScanStep(s, i, st, i + 1, st.Open());
    ScanPrinted(s, i + 1, doc.body, st.Open());
    StepBrace(s, close, inner);
    ScanStep(s, close, inner, close + 1, inner.Close());
    AfterGroup(doc.body, doc.rest, st);
    ScanPrinted(s, close + 1, doc.rest, inner.Close());
  }

  /** A whole printed document extracts to its meaning. */
  lemma {:induction false} ExtractsMeaning(doc: Doc)
    requires Wf(doc, START.fallback, None)
    ensures Scan(Print(doc), 0, START).out == Meaning(doc, false) && !Scan(Print(doc), 0, START).panicked
  {
    hide Step, Meaning;
    ScanPrinted(Print(doc), 0, doc, START);
    assert "" + Meaning(doc, false) == Meaning(doc, false);
  }

  lemma {:induction false} SkippedMeansNothing(doc: Doc)
    ensures Meaning(doc, true) == ""
  {
    match doc
    case End =>
    case Then(_, rest) => SkippedMeansNothing(rest);
    case Group(body, rest) => SkippedMeansNothing(body); SkippedMeansNothing(rest);
  }

  function GroupOf(opener: Leaf, body: Doc): Doc { Group(Then(opener, body), End) }

  lemma {:induction false} SilentGroup(opener: Leaf, body: Doc, st: State)
    requires StartsSkip(opener) && st.Inv()
    ensures AfterDoc(GroupOf(opener, body), st)
         == st.(fallback := FallbackAfterDoc(body, FallbackAfter(opener, st.fallback)))
  {
    var skipped := st.skip.Some?;
    SkippedMeansNothing(body);
    assert LeafText(opener) == "" && !OpensSkip(GroupOf(opener, body));
    assert FallbackAfterDoc(GroupOf(opener, body), st.fallback)
        == FallbackAfterDoc(Then(opener, body), st.fallback)
        == FallbackAfterDoc(body, FallbackAfter(opener, st.fallback));
    assert Meaning(Then(opener, body), skipped) == "" && Meaning(GroupOf(opener, body), skipped) == "";
    assert st.out + "" == st.out;
  }

  /** A group opened by a non-content destination or `\*` adds nothing and
      restores depth and skip, whatever is nested in it. Only `\uc` leaks. */
  lemma {:induction false} SkippedGroupIsSilent(s: string, i: nat, opener: Leaf, body: Doc, st: State)
    requires st.Inv() && StartsSkip(opener)
    requires Holds(s, i, Print(GroupOf(opener, body)))
    requires Wf(GroupOf(opener, body), st.fallback, At(s, i + |Print(GroupOf(opener, body))|))
    ensures Scan(s, i, st) == Scan(s, i + |Print(GroupOf(opener, body))|,
                                   st.(fallback := FallbackAfterDoc(body, FallbackAfter(opener, st.fallback))))
  {
    hide Scan, Print, Wf, AfterDoc;
    ScanPrinted(s, i, GroupOf(opener, body), st);
    SilentGroup(opener, body, st);
  }

  lemma {:induction false} FixedWords()
    ensures Classify("u") == Unicode && Classify("bin") == Binary
  {
  }

  // --------------------------------------------------- where `\bin` goes wrong

  lemma {:induction false} DecimalGrows(a: string, b: string)
    requires AllDigits(a + b)
    ensures DecimalValue(a + b) >= DecimalValue(a)
    ensures b != "" ==> DecimalValue(a + b) >= 10 * DecimalValue(a)
  {
    if b == "" {
      assert a + b == a;
    } else {
      var shorter := b[..|b| - 1];
      assert (a + b)[..|a + b| - 1] == a + shorter;
      assert AllDigits(a + shorter) by {
        assert forall k :: 0 <= k < |a + shorter| ==> (a + shorter)[k] == (a + b)[k];
      }
      DecimalGrows(a, shorter);
    }
  }

  lemma {:induction false} DigitEndBound(s: string, i: nat, j: nat)
    requires i <= j <= |s| && j == DigitEnd(s, i)
    ensures forall k :: i <= k < j ==> IsDigit(s[k])
    ensures j < |s| ==> !IsDigit(s[j])
    decreases |s| - i
  {
    if i < |s| && IsDigit(s[i]) { DigitEndBound(s, i + 1, j); }
  }

  /** `s` holds `\bin` at `i`, then `width` digits of value `n`. */
  predicate BinIsLucky(s: string, i: nat, width: nat, n: nat)
    requires i + 4 + width + n <= |s|
  {
    var j := i + 4 + width;
    var end := DigitEnd(s, j);
    var merged := DecimalValue(s[i + 4..end]);
    || end == j
    || (merged <= MAX_I32 && n > 0 && j + n == |s|)
    || (merged > MAX_I32 && end == j + n)
  }

  /** Digits after the parameter merge with it. */
  lemma {:induction false} BinMerges(s: string, i: nat, digits: string) returns (merged: string)
    requires digits != "" && AllDigits(digits) && Holds(s, i, PrintWord("bin", digits))
    ensures var end := DigitEnd(s, i + 4 + |digits|); merged == s[i + 4..end]
    ensures Holds(s, i, PrintWord("bin", merged)) && AllDigits(merged) && |merged| >= |digits|
    ensures Bounded(s, i + 4 + |merged|, merged)
    ensures DecimalValue(merged) >= DecimalValue(digits)
    ensures merged != digits ==> |merged| > |digits|
    ensures |merged| > |digits| ==> DecimalValue(merged) >= 10 * DecimalValue(digits)
  {
    var j := i + 4 + |digits|;
    var end := DigitEnd(s, j);
    merged := s[i + 4..end];
    HoldsParts(s, i, "\\", "bin" + digits);
    HoldsParts(s, i + 1, "bin", digits);
    DigitEndBound(s, j, end);
    forall k | 0 <= k < |merged| ensures IsDigit(merged[k]) {
      assert k < |digits| ==> s[i + 4 + k] == digits[k];
    }
    var word := PrintWord("bin", merged);
    forall k | 0 <= k < |word| ensures s[i + k] == word[k] {
      assert k < 4 ==> word[k] == PrintWord("bin", digits)[k];
    }
    assert merged == digits + s[j..end];
    DecimalGrows(digits, s[j..end]);
  }

  /** `\binN` is read with exactly its `N` payload bytes unless they start with
      a digit: those digits join the parameter. Then it is right only by luck:
      when the merged number runs past the end of a document that stops with the
      payload, or when the payload is all digits and the number overflows. */
  lemma {:induction false} BinReadsItsPayload(s: string, i: nat, digits: string, n: nat, st: State)
    requires digits != "" && AllDigits(digits) && ParseI32(digits) == Some(n)
    requires Holds(s, i, PrintWord("bin", digits))
    requires i + 4 + |digits| + n <= |s|
    ensures (Step(s, i, st).0 == i + 4 + |digits| + n) <==> BinIsLucky(s, i, |digits|, n)
  {
    hide Step, WordStep, Classify, WordEffect, DecimalValue, DigitEnd, Holds, Bounded;
    FixedWords();
    var merged := BinMerges(s, i, digits);
    WordIs(s, i, "bin", merged, st);
    StepWord(s, i, st);
  }

  /** One such document: the payload of `\bin1` is the byte `5`, and the `x`
      after it is lost. */
  lemma DigitPayloadSwallowsText()
    ensures Scan("\\bin15x", 0, START).out == ""
  {
    var s := "\\bin15x";
    AlphaEndIs(s, 1, 4);
    DigitEndIs(s, 4, 6);
    assert s[1..4] == "bin" && s[4..6] == "15";
    FixedWords();
    assert DecimalValue("15") == 15 by {
      assert "15"[..1] == "1" && "1"[..0] == "";
    }
    assert Step(s, 0, START) == (7, START);
  }
}
