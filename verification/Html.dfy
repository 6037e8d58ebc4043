/** Visible text of a copied HTML document: the scanning loop, and what it
    makes of a document printed from its parts. */
module Html {
  import opened HtmlEntities
  import opened Strings
  import opened Text
  import opened Wrappers

  const NON_CONTENT_ELEMENTS: set<string> := {"head", "style", "script", "xml", "title"}
  const BREAKING_ELEMENTS: set<string> :=
    {"p", "div", "br", "tr", "li", "td", "h1", "h2", "h3", "h4", "h5", "h6", "blockquote"}
  const START_FRAGMENT: string := "<!--StartFragment-->"
  const END_FRAGMENT: string := "<!--EndFragment-->"

  // ------------------------------------------------------------ specification

  function AsciiLower(c: char): char { if 'A' <= c <= 'Z' then ((c as int) + 32) as char else c }

  function Lower(s: string): (lowered: string)
    ensures |lowered| == |s|
  {
    seq(|s|, i requires 0 <= i < |s| => AsciiLower(s[i]))
  }

  predicate EndsName(c: char) {
    c == ' ' || c == '\t' || c == '\n' || c == '\U{000C}' || c == '\r' || c == '/' || c == '>'
  }

  function NameRun(raw: string, i: nat): string
    decreases |raw| - i
  {
    if i >= |raw| || EndsName(raw[i]) then "" else [raw[i]] + NameRun(raw, i + 1)
  }

  function SlashRun(raw: string, i: nat): nat
    decreases |raw| - i
  {
    if i < |raw| && raw[i] == '/' then SlashRun(raw, i + 1) else i
  }

  function TagName(raw: string): string { Lower(NameRun(raw, SlashRun(raw, 0))) }

  predicate IsOpen(raw: string) { (|raw| > 0 ==> raw[0] != '/') && (|raw| > 0 ==> raw[|raw| - 1] != '/') }

  /** `</name`, in any case, starts here; whatever follows the name. */
  predicate Closes(s: string, at: nat, name: string) {
    at + |name| + 2 <= |s| && Lower(s[at..at + |name| + 2]) == "</" + name
  }

  function CloseFrom(s: string, from: nat, name: string): (at: Option<nat>)
    ensures at.Some? ==> from <= at.value < |s| && Closes(s, at.value, name)
    ensures at.Some? ==> forall k | from <= k < at.value :: !Closes(s, k, name)
    ensures at.None? ==> forall k | from <= k < |s| :: !Closes(s, k, name)
    decreases |s| - from
  {
    if from >= |s| then None else if Closes(s, from, name) then Some(from) else CloseFrom(s, from + 1, name)
  }

  /** Just past the element's closing tag, or the end of the document. */
  function SkipTo(s: string, from: nat, name: string): (next: nat)
    requires from <= |s|
    ensures from <= next <= |s|
  {
    match CloseFrom(s, from, name)
    case None => |s|
    case Some(at) => match FindFrom(s, ">", at) case None => |s| case Some(close) => close + 1
  }

  datatype Step = Step(emits: string, next: nat)

  /** What the piece starting at `i` contributes, and where the next one starts:
      nowhere after an unterminated comment or tag. */
  function StepAt(s: string, i: nat): (step: Step)
    requires i < |s|
    ensures i < step.next <= |s|
  {
    if s[i] != '<' then Step([s[i]], i + 1)
    else if OccursAt(s, i, "<!--") then
      (match FindFrom(s, "-->", i + 4) case Some(end) => Step("", end + 3) case None => Step("", |s|))
    else
      match FindFrom(s, ">", i)
      case None => Step("", |s|)
      case Some(close) => TagStep(s, s[i + 1..close], close + 1)
  }

  function TagStep(s: string, raw: string, after: nat): (step: Step)
    requires after <= |s|
    ensures after <= step.next <= |s|
  {
    if IsOpen(raw) && TagName(raw) in NON_CONTENT_ELEMENTS then Step("", SkipTo(s, after, TagName(raw)))
    else Step(if TagName(raw) in BREAKING_ELEMENTS then " " else "", after)
  }

  /** The text `s[i..]` contributes. */
  function Scan(s: string, i: nat): string
    decreases |s| - i
  {
    if i >= |s| then "" else StepAt(s, i).emits + Scan(s, StepAt(s, i).next)
  }

  lemma {:induction false} ScanStep(s: string, i: nat)
    ensures i < |s| ==> Scan(s, i) == StepAt(s, i).emits + Scan(s, StepAt(s, i).next)
    ensures i >= |s| ==> Scan(s, i) == ""
  {
  }

  // ---------------------------------------------------------------- the loops

  /** Looks at every position for the closing tag, whatever lies in between. */
  method SkipElement(s: string, from: nat, name: string) returns (next: nat)
    requires from <= |s|
    ensures next == SkipTo(s, from, name)
  {
    var i := from;
    while i < |s|
      invariant from <= i <= |s| && CloseFrom(s, from, name) == CloseFrom(s, i, name)
    {
      if s[i] == '<' && Closes(s, i, name) {
        var close := FindFrom(s, ">", i);
        return if close.Some? then close.value + 1 else |s|;
      }
      ClosesAtBracket(s, i, name);
      i := i + 1;
    }
    next := |s|;
  }

  lemma {:induction false} ClosesAtBracket(s: string, at: nat, name: string)
    ensures Closes(s, at, name) ==> s[at] == '<'
  {
    if Closes(s, at, name) {
      var window := s[at..at + |name| + 2];
      assert AsciiLower(window[0]) == Lower(window)[0] == ("</" + name)[0];
      assert window[0] == s[at];
    }
  }

  method PlainTextFromHtml(html: string) returns (text: string)
    ensures text == Normalize(DecodeBasicEntities(Scan(HtmlFragment(html), 0)))
  {
    hide FindFrom, TagName, Normalize, SkipTo, Scan, TagStep, DecodeBasicEntities;
    var s := HtmlFragment(html);
    var out := "";
    var i := 0;
    while i < |s|
      invariant i <= |s| && out + Scan(s, i) == Scan(s, 0)
    {
      ScanStep(s, i);
      if s[i] != '<' {
        out := out + [s[i]];
        i := i + 1;
      } else if OccursAt(s, i, "<!--") {
        var end := FindFrom(s, "-->", i + 4);
        i := if end.Some? then end.value + 3 else |s|;
      } else {
        var close := FindFrom(s, ">", i);
        if close.None? {
          // An unterminated tag: nothing after it can be trusted.
          i := |s|;
        } else {
          var emitted;
          emitted, i := ReadTag(s, s[i + 1..close.value], close.value + 1);
          out := out + emitted;
        }
      }
    }
    ScanStep(s, i);
    assert out + "" == out;
    text := Normalize(DecodeBasicEntities(out));
  }

  method ReadTag(s: string, raw: string, after: nat) returns (emitted: string, next: nat)
    requires after <= |s|
    ensures Step(emitted, next) == TagStep(s, raw, after)
  {
    var name := TagName(raw);
    emitted, next := "", after;
    if IsOpen(raw) && name in NON_CONTENT_ELEMENTS {
      next := SkipElement(s, after, name);
    } else if name in BREAKING_ELEMENTS {
      emitted := " ";
    }
  }

  /** The copied selection when the source marked it. */
  function HtmlFragment(html: string): string {
    match FindFrom(html, START_FRAGMENT, 0)
    case None => html
    case Some(start) =>
      var rest := html[start + |START_FRAGMENT|..];
      match FindFrom(rest, END_FRAGMENT, 0) case Some(end) => rest[..end] case None => rest
  }

  // ------------------------------------------------- documents and their meaning

  /** One piece of a document. A hidden element has its opening tag, its
      contents, its closing name in any case, and the rest of that tag. */
  datatype Node =
    | Char(c: char)
    | Comment(body: string)
    | Tag(raw: string)
    | Hidden(raw: string, body: string, closing: string, rest: string)

  function PrintNode(node: Node): string {
    match node
    case Char(c) => [c]
    case Comment(body) => "<!--" + body + "-->"
    case Tag(raw) => "<" + raw + ">"
    case Hidden(raw, body, closing, rest) => "<" + raw + ">" + (body + ("</" + closing + rest + ">"))
  }

  function Print(doc: seq<Node>): string { if |doc| == 0 then "" else PrintNode(doc[0]) + Print(doc[1..]) }

  predicate PlainTag(raw: string) { '>' !in raw && !("!--" <= raw) }

  /** A piece is what it looks like: it does not end early, and a hidden
      element's contents do not close it, even as the start of a longer name. */
  predicate Wf(node: Node) {
    match node
    case Char(c) => c != '<'
    case Comment(body) => forall k | 0 <= k < |body| :: !OccursAt(body + "-->", k, "-->")
    case Tag(raw) => PlainTag(raw) && !(IsOpen(raw) && TagName(raw) in NON_CONTENT_ELEMENTS)
    case Hidden(raw, body, closing, rest) =>
      && PlainTag(raw) && IsOpen(raw) && TagName(raw) in NON_CONTENT_ELEMENTS
      && Lower(closing) == TagName(raw) && '>' !in closing && '>' !in rest
      && forall k | 0 <= k < |body| :: !Closes(body + ("</" + closing + rest + ">"), k, TagName(raw))
  }

  function MeaningOf(node: Node): string {
    match node
    case Char(c) => [c]
    case Tag(raw) => if TagName(raw) in BREAKING_ELEMENTS then " " else ""
    case _ => ""
  }

  function Meaning(doc: seq<Node>): string { if |doc| == 0 then "" else MeaningOf(doc[0]) + Meaning(doc[1..]) }

  // ------------------------------------------------------------ one piece read

  /** Reading one printed piece where it stands. */
  predicate Reads(s: string, i: nat, node: Node) {
    i < |s| && StepAt(s, i) == Step(MeaningOf(node), i + |PrintNode(node)|)
  }

  lemma {:induction false} CommentEnds(s: string, i: nat, body: string)
    requires Holds(s, i, "<!--" + (body + "-->")) && Wf(Comment(body))
    ensures OccursAt(s, i, "<!--") && s[i] == '<' && FindFrom(s, "-->", i + 4) == Some(i + 4 + |body|)
  {
    var tail := body + "-->";
    HoldsParts(s, i, "<!--", tail);
    HoldsSlice(s, i, "<!--", 0, 4);
    assert s[i] == "<!--"[0];
    hide FindFrom, Holds, OccursAt;
    CommentEndsFirst(s, i + 4, body);
    FindIs(s, "-->", i + 4, i + 4 + |body|);
  }

  lemma {:induction false} CommentEndsFirst(s: string, i: nat, body: string)
    requires Holds(s, i, body + "-->") && Wf(Comment(body))
    ensures OccursAt(s, i + |body|, "-->")
    ensures forall k | i <= k < i + |body| :: !OccursAt(s, k, "-->")
  {
    var tail := body + "-->";
    HoldsSlice(s, i, tail, |body|, 3);
    assert tail[|body|..|body| + 3] == "-->";
    hide Holds;
    forall k | i <= k < i + |body|
      ensures !OccursAt(s, k, "-->")
    {
      HoldsSlice(s, i, tail, k - i, 3);
      assert !OccursAt(tail, k - i, "-->");
    }
  }

  lemma {:induction false} ReadsComment(s: string, i: nat, body: string)
    requires Holds(s, i, PrintNode(Comment(body))) && Wf(Comment(body))
    ensures Reads(s, i, Comment(body))
  {
    assert "<!--" + body + "-->" == "<!--" + (body + "-->");
    CommentEnds(s, i, body);
    hide FindFrom, TagName, Wf, Holds;
  }

  lemma {:induction false} TagEnds(s: string, i: nat, raw: string)
    requires Holds(s, i, "<" + (raw + ">")) && PlainTag(raw)
    ensures i + |raw| + 2 <= |s| && s[i] == '<' && !OccursAt(s, i, "<!--")
    ensures FindFrom(s, ">", i) == Some(i + |raw| + 1) && s[i + 1..i + |raw| + 1] == raw
  {
    HoldsParts(s, i, "<", raw + ">");
    HoldsParts(s, i + 1, raw, ">");
    HoldsSlice(s, i + 1, raw, 0, |raw|);
    assert raw[0..|raw|] == raw;
    assert s[i] == "<"[0] && s[i + 1 + |raw|] == ">"[0];
    NoBangDash(s, i, raw);
    forall k | i <= k < i + |raw| + 1
      ensures !OccursAt(s, k, ">")
    {
      assert k > i ==> s[k] == raw[k - i - 1] && raw[k - i - 1] in raw;
      OneChar(s, k, '>');
    }
    OneChar(s, i + |raw| + 1, '>');
    hide FindFrom, Holds, OccursAt;
    FindIs(s, ">", i, i + |raw| + 1);
  }

  lemma {:induction false} OneChar(s: string, k: nat, c: char)
    ensures OccursAt(s, k, [c]) <==> k < |s| && s[k] == c
  {
    if k < |s| {
      assert s[k..k + 1] == [s[k]];
    }
  }

  lemma {:induction false} NoBangDash(s: string, i: nat, raw: string)
    requires i + |raw| + 2 <= |s| && s[i + 1..i + 1 + |raw|] == raw && s[i + 1 + |raw|] == '>'
    ensures OccursAt(s, i, "<!--") ==> "!--" <= raw
  {
    if OccursAt(s, i, "<!--") {
      var four := s[i..i + 4];
      assert four[1] == s[i + 1] == '!' && four[2] == s[i + 2] == '-' && four[3] == s[i + 3] == '-';
      assert raw[0] == s[i + 1] && raw[1] == s[i + 2] && raw[2] == s[i + 3];
    }
  }

  lemma {:induction false} ReadsTag(s: string, i: nat, raw: string)
    requires Holds(s, i, PrintNode(Tag(raw))) && Wf(Tag(raw))
    ensures Reads(s, i, Tag(raw))
  {
    hide FindFrom, TagName, OccursAt, IsOpen, Holds, StepAt;
    assert PrintNode(Tag(raw)) == "<" + (raw + ">");
    StepAtTag(s, i, raw);
  }

  lemma {:induction false} StepAtTag(s: string, i: nat, raw: string)
    requires Holds(s, i, "<" + (raw + ">")) && PlainTag(raw)
    ensures i + |raw| + 2 <= |s| && StepAt(s, i) == TagStep(s, raw, i + |raw| + 2)
  {
    TagEnds(s, i, raw);
    hide FindFrom, OccursAt, Holds, PlainTag, TagStep;
  }

  lemma {:induction false} CloseIs(s: string, from: nat, name: string, at: nat)
    requires from <= at < |s| && Closes(s, at, name) && forall k | from <= k < at :: !Closes(s, k, name)
    ensures CloseFrom(s, from, name) == Some(at)
  {
    hide CloseFrom, Closes;
  }

  /** Whether a closing tag starts at a place depends on that place's text only. */
  lemma {:induction false} ClosesIsLocal(s: string, i: nat, p: string, k: nat, name: string)
    requires Holds(s, i, p) && k + |name| + 2 <= |p|
    ensures Closes(s, i + k, name) <==> Closes(p, k, name)
  {
    HoldsSlice(s, i, p, k, |name| + 2);
  }

  lemma {:induction false} ClosingTagCloses(closing: string, rest: string, name: string)
    requires Lower(closing) == name
    ensures Closes("</" + closing + rest + ">", 0, name)
  {
    var tag := "</" + closing + rest + ">";
    assert tag[0..|name| + 2] == "</" + closing;
    assert Lower("</" + closing) == "</" + Lower(closing);
  }

  /** Skipping from the end of the opening tag ends just past the closing one. */
  lemma {:induction false} SkipsBody(s: string, j: nat, body: string, closing: string, rest: string, name: string)
    requires Holds(s, j, body + ("</" + closing + rest + ">")) && Lower(closing) == name
    requires '>' !in closing && '>' !in rest
    requires forall k | 0 <= k < |body| :: !Closes(body + ("</" + closing + rest + ">"), k, name)
    ensures SkipTo(s, j, name) == j + |body| + |closing| + |rest| + 3
  {
    var tag := "</" + closing + rest + ">";
    var all := body + tag;
    var at := j + |body|;
    HoldsParts(s, j, body, tag);
    hide FindFrom, Holds;
    ClosingTagCloses(closing, rest, name);
    ClosesIsLocal(s, at, tag, 0, name);
    forall k | j <= k < at
      ensures !Closes(s, k, name)
    {
      ClosesIsLocal(s, j, all, k - j, name);
    }
    CloseIs(s, j, name, at);
    ClosingTagEnds(s, at, closing, rest);
    hide Closes, CloseFrom, OccursAt, FindFrom, Holds, Lower;
  }

  lemma {:induction false} ClosingTagEnds(s: string, at: nat, closing: string, rest: string)
    requires Holds(s, at, "</" + closing + rest + ">") && '>' !in closing && '>' !in rest
    ensures FindFrom(s, ">", at) == Some(at + |closing| + |rest| + 2)
  {
    hide FindFrom, OccursAt;
    var tag := "</" + closing + rest + ">";
    forall k | at <= k < at + |tag| - 1
      ensures !OccursAt(s, k, ">")
    {
      NoBracketInside(closing, rest, k - at);
      assert s[at + (k - at)] == tag[k - at];
      OneChar(s, k, '>');
    }
    assert s[at + (|tag| - 1)] == tag[|tag| - 1] == '>';
    OneChar(s, at + |tag| - 1, '>');
    FindIs(s, ">", at, at + |tag| - 1);
  }

  lemma {:induction false} NoBracketInside(closing: string, rest: string, k: nat)
    requires '>' !in closing && '>' !in rest && k < |closing| + |rest| + 2
    ensures ("</" + closing + rest + ">")[k] != '>'
  {
    var tag := "</" + closing + rest + ">";
    assert k >= 2 && k < |closing| + 2 ==> tag[k] == closing[k - 2] && closing[k - 2] in closing;
    assert k >= |closing| + 2 ==> tag[k] == rest[k - 2 - |closing|] && rest[k - 2 - |closing|] in rest;
  }

  lemma {:induction false} ReadsHidden(s: string, i: nat, raw: string, body: string, closing: string, rest: string)
    requires var node := Hidden(raw, body, closing, rest); Holds(s, i, PrintNode(node)) && Wf(node)
    ensures Reads(s, i, Hidden(raw, body, closing, rest))
  {
    hide FindFrom, TagName, OccursAt, IsOpen, Holds, SkipTo, Closes, Lower, StepAt;
    var (open, tail) := ("<" + (raw + ">"), body + ("</" + closing + rest + ">"));
    HiddenPrints(raw, body, closing, rest);
    hide PrintNode;
    HoldsParts(s, i, open, tail);
    StepAtTag(s, i, raw);
    SkipsBody(s, i + |raw| + 2, body, closing, rest, TagName(raw));
  }

  lemma {:induction false} HiddenPrints(raw: string, body: string, closing: string, rest: string)
    ensures PrintNode(Hidden(raw, body, closing, rest)) == "<" + (raw + ">") + (body + ("</" + closing + rest + ">"))
    ensures |PrintNode(Hidden(raw, body, closing, rest))| == |raw| + 2 + |body| + |closing| + |rest| + 3
  {
    assert "<" + raw + ">" == "<" + (raw + ">");
  }

  lemma {:induction false} ReadsNode(s: string, i: nat, node: Node)
    requires Holds(s, i, PrintNode(node)) && Wf(node)
    ensures Reads(s, i, node)
  {
    match node
    case Char(c) => assert s[i] == [c][0];
    case Comment(body) => ReadsComment(s, i, body);
    case Tag(raw) => ReadsTag(s, i, raw);
    case Hidden(raw, body, closing, rest) => ReadsHidden(s, i, raw, body, closing, rest);
  }

  // ------------------------------------------------------------ main results

  lemma {:induction false} ScanPrinted(s: string, i: nat, doc: seq<Node>)
    requires Holds(s, i, Print(doc)) && i + |Print(doc)| == |s| && forall k | 0 <= k < |doc| :: Wf(doc[k])
    ensures Scan(s, i) == Meaning(doc)
    decreases |doc|
  {
    hide Wf, Scan, StepAt, MeaningOf, PrintNode, Holds;
    ScanStep(s, i);
    if |doc| > 0 {
      HoldsParts(s, i, PrintNode(doc[0]), Print(doc[1..]));
      ReadsNode(s, i, doc[0]);
      hide Print;
      ScanPrinted(s, i + |PrintNode(doc[0])|, doc[1..]);
    }
  }

  /** The loop's text of a document printed from its parts is the text of those
      parts: comments and hidden elements add nothing, whatever they hold, and
      breaking tags add one space. */
  lemma {:induction false} ExtractsMeaning(doc: seq<Node>)
    requires forall k | 0 <= k < |doc| :: Wf(doc[k])
    ensures Scan(Print(doc), 0) == Meaning(doc)
  {
    hide Wf;
    ScanPrinted(Print(doc), 0, doc);
  }

  /** With the selection marked, only what lies between the first start marker
      and the end marker after it counts. */
  lemma {:induction false} FragmentIsTheSelection(before: string, selection: string, after: string)
    requires forall k | 0 <= k < |before| :: !OccursAt(before + START_FRAGMENT, k, START_FRAGMENT)
    requires forall k | 0 <= k < |selection| :: !OccursAt(selection + END_FRAGMENT, k, END_FRAGMENT)
    ensures HtmlFragment(before + START_FRAGMENT + selection + END_FRAGMENT + after) == selection
  {
    hide FindFrom;
    var tail := selection + END_FRAGMENT + after;
    var html := before + START_FRAGMENT + selection + END_FRAGMENT + after;
    assert html == before + START_FRAGMENT + tail;
    FirstMarker(before, START_FRAGMENT, tail);
    assert html[|before| + |START_FRAGMENT|..] == tail;
    FirstMarker(selection, END_FRAGMENT, after);
    assert tail[..|selection|] == selection;
  }

  lemma {:induction false} FirstMarker(before: string, marker: string, after: string)
    requires forall k | 0 <= k < |before| :: !OccursAt(before + marker, k, marker)
    ensures FindFrom(before + marker + after, marker, 0) == Some(|before|)
  {
    hide FindFrom;
    var all := before + marker + after;
    forall k | 0 <= k < |before|
      ensures !OccursAt(all, k, marker)
    {
      assert !OccursAt(before + marker, k, marker);
      assert k + |marker| <= |before + marker| && all[k..k + |marker|] == (before + marker)[k..k + |marker|];
    }
    assert all[|before|..|before| + |marker|] == marker;
    FindIs(all, marker, 0, |before|);
  }
}
