/** Parsing what was written gives back the document; wrapping is idempotent;
    the fragment offsets delimit exactly a bare fragment. */
module CfHtmlRoundTrip {
  import opened CfHtml
  import opened Strings
  import opened Wrappers
  import Utf8

  // ------------------------------------------------------------ string lemmas

  lemma {:induction false} IndexOfIs(s: string, c: char, i: nat, j: nat)
    requires i <= j <= |s| && (j < |s| ==> s[j] == c)
    requires forall k :: i <= k < j ==> s[k] != c
    ensures IndexOf(s, c, i) == j
    decreases |s| - i
  {
    if i < j { IndexOfIs(s, c, i + 1, j); }
  }

  lemma {:induction false} OccursChar(s: string, i: nat, p: string, k: nat)
    requires OccursAt(s, i, p) && k < |p|
    ensures s[i + k] == p[k]
  {
    assert s[i..i + |p|][k] == s[i + k];
  }

  lemma {:induction false} OccursParts(s: string, i: nat, p: string, q: string)
    requires OccursAt(s, i, p + q)
    ensures OccursAt(s, i, p) && OccursAt(s, i + |p|, q)
  {
    assert s[i..i + |p|] == (p + q)[..|p|] == p;
    assert s[i + |p|..i + |p| + |q|] == (p + q)[|p|..] == q;
  }

  lemma {:induction false} RFindIs(s: string, p: string, j: nat)
    requires j <= |s| && OccursAt(s, j, p)
    requires forall k :: j < k <= |s| ==> !OccursAt(s, k, p)
    ensures RFind(s, p) == Some(j)
  {
    hide OccursAt, RFindBelow;
    var r := RFindBelow(s, p, |s| + 1);
    assert r.Some? && r.value >= j;
    assert OccursAt(s, r.value, p);
  }

  // ------------------------------------------------------------- header lines

  function Parsed(value: string): Option<nat> { ParseOffset(TrimEnd(TrimStart(value))) }

  /** Free of the characters that delimit names and lines. */
  predicate Plain(s: string) {
    forall k :: 0 <= k < |s| ==> s[k] != ':' && s[k] != '\n' && s[k] != '\r' && s[k] != '<' && Utf8.IsAscii(s[k])
  }

  lemma {:induction false} LineIs(s: string, i: nat, name: string, value: string)
    requires Plain(name) && Plain(value) && OccursAt(s, i, Line(name, value))
    ensures i < |s| && LineAt(s, i) == name + ":" + value
    ensures IndexOf(s, '\n', i) == i + |Line(name, value)| - 1 < |s|
  {
    var line := Line(name, value);
    var text := name + ":" + value;
    var j := i + |line| - 1;
    OccursParts(s, i, text, "\r\n");
    OccursChar(s, i + |text|, "\r\n", 0);
    OccursChar(s, i + |text|, "\r\n", 1);
    forall k | i <= k < j ensures s[k] != '\n' {
      if k < i + |text| { OccursChar(s, i, text, k - i); }
    }
    IndexOfIs(s, '\n', i, j);
  }

  lemma {:induction false} ParseLineIs(name: string, value: string, key: string)
    requires Plain(name)
    ensures ParseLine(name + ":" + value, key)
         == if name == key then Value(Parsed(value)) else Other
  {
    var line := name + ":" + value;
    IndexOfIs(line, ':', 0, |name|);
    assert line[..|name|] == name && line[|name| + 1..] == value;
  }

  lemma {:induction false} LineParses(s: string, i: nat, name: string, value: string, key: string)
    requires Plain(name) && Plain(value) && OccursAt(s, i, Line(name, value))
    ensures i < |s| && IndexOf(s, '\n', i) == i + |Line(name, value)| - 1 < |s|
    ensures ParseLine(LineAt(s, i), key) == if name == key then Value(Parsed(value)) else Other
  {
    hide *;
    LineIs(s, i, name, value);
    ParseLineIs(name, value, key);
  }

  lemma {:induction false} OffsetStep(s: string, i: nat, key: string)
    requires i < |s| && IndexOf(s, '\n', i) < |s|
    ensures OffsetFrom(s, key, i)
         == match ParseLine(LineAt(s, i), key)
            case Value(offset) => offset
            case Other => OffsetFrom(s, key, IndexOf(s, '\n', i) + 1)
  {
    hide ParseLine, LineAt, IndexOf;
  }

  lemma {:induction false} OffsetAtLine(s: string, i: nat, name: string, value: string, key: string)
    requires Plain(name) && Plain(value) && OccursAt(s, i, Line(name, value))
    ensures i + |Line(name, value)| <= |s|
    ensures OffsetFrom(s, key, i)
         == if name == key then Parsed(value) else OffsetFrom(s, key, i + |Line(name, value)|)
  {
    hide *;
    LineParses(s, i, name, value, key);
    OffsetStep(s, i, key);
  }

  // ------------------------------------------------------------------ numbers

  function Pow10(n: nat): nat { if n == 0 then 1 else 10 * Pow10(n - 1) }

  lemma {:induction false} FixedDecimalValue(n: nat, width: nat)
    requires n < Pow10(width)
    ensures AllDigits(FixedDecimal(n, width)) && DecimalValue(FixedDecimal(n, width)) == n
  {
    if width > 0 {
      FixedDecimalValue(n / 10, width - 1);
      var s := FixedDecimal(n, width);
      assert s[..|s| - 1] == FixedDecimal(n / 10, width - 1);
      assert forall k :: 0 <= k < |s| - 1 ==> s[k] == s[..|s| - 1][k];
    }
  }

  lemma {:induction false} DigitsSurviveTrim(s: string)
    requires |s| > 0 && AllDigits(s)
    ensures TrimEnd(TrimStart(s)) == s
  {
  }

  lemma {:induction false} PaddedParses(n: nat)
    requires n < OFFSET_LIMIT
    ensures |Padded(n)| == 10 && Plain(Padded(n))
    ensures Parsed(Padded(n)) == Some(n)
  {
    assert Pow10(10) == OFFSET_LIMIT by {
      assert Pow10(5) == 100_000;
      assert Pow10(8) == 100_000_000;
    }
    FixedDecimalValue(n, 10);
    DigitsSurviveTrim(Padded(n));
  }

  // --------------------------------------------------------- the whole header

  /** The four offset values of a header, each ten plain characters. */
  predicate Offsets(a: string, b: string, c: string, d: string) {
    |a| == 10 && |b| == 10 && |c| == 10 && |d| == 10 && Plain(a) && Plain(b) && Plain(c) && Plain(d)
  }

  lemma {:induction false} HeaderLengthIs(a: string, b: string, c: string, d: string)
    requires Offsets(a, b, c, d)
    ensures |Header(a, b, c, d)| == HeaderLength() == 105
  {
  }

  lemma {:induction false} Names()
    ensures Plain("Version") && Plain("0.9") && Plain("StartHTML") && Plain("EndHTML")
    ensures Plain("StartFragment") && Plain("EndFragment")
  {
  }

  /** Each key finds its own line in a header that starts `s`. */
  lemma {:induction false} HeaderParses(s: string, a: string, b: string, c: string, d: string)
    requires Offsets(a, b, c, d) && OccursAt(s, 0, Header(a, b, c, d))
    ensures OffsetFrom(s, "StartHTML", 0) == Parsed(a)
    ensures OffsetFrom(s, "EndHTML", 0) == Parsed(b)
    ensures OffsetFrom(s, "StartFragment", 0) == Parsed(c)
    ensures OffsetFrom(s, "EndFragment", 0) == Parsed(d)
  {
    Names();
    hide Plain, OccursAt, OffsetFrom, Parsed, Line;
    var (v, l1, l2, l3, l4) := (Line("Version", "0.9"), Line("StartHTML", a), Line("EndHTML", b),
                                Line("StartFragment", c), Line("EndFragment", d));
    OccursParts(s, 0, v, l1 + (l2 + (l3 + l4)));
    OccursParts(s, |v|, l1, l2 + (l3 + l4));
    OccursParts(s, |v| + |l1|, l2, l3 + l4);
    OccursParts(s, |v| + |l1| + |l2|, l3, l4);
    var keys := ["StartHTML", "EndHTML", "StartFragment", "EndFragment"];
    forall key | key in keys
      ensures OffsetFrom(s, key, 0) == OffsetFrom(s, key, |v|)
    {
      OffsetAtLine(s, 0, "Version", "0.9", key);
      assert "Version"[0] == 'V' && key[0] != 'V';
    }
    assert keys[0] == "StartHTML" && keys[1] == "EndHTML" && keys[2] == "StartFragment" && keys[3] == "EndFragment";
    OffsetAtLine(s, |v|, "StartHTML", a, "StartHTML");
    OffsetAtLine(s, |v|, "StartHTML", a, "EndHTML");
    OffsetAtLine(s, |v|, "StartHTML", a, "StartFragment");
    OffsetAtLine(s, |v|, "StartHTML", a, "EndFragment");
    OffsetAtLine(s, |v| + |l1|, "EndHTML", b, "EndHTML");
    OffsetAtLine(s, |v| + |l1|, "EndHTML", b, "StartFragment");
    OffsetAtLine(s, |v| + |l1|, "EndHTML", b, "EndFragment");
    OffsetAtLine(s, |v| + |l1| + |l2|, "StartFragment", c, "StartFragment");
    OffsetAtLine(s, |v| + |l1| + |l2|, "StartFragment", c, "EndFragment");
    OffsetAtLine(s, |v| + |l1| + |l2| + |l3|, "EndFragment", d, "EndFragment");
  }

  // ------------------------------------------------------------ the document

  lemma {:induction false} TrimStartCuts(s: string) returns (k: nat)
    ensures k <= |s| && TrimStart(s) == s[k..]
    decreases |s|
  {
    var w := SpaceAtStart(s);
    if w == 0 {
      k := 0;
    } else {
      var rest := TrimStartCuts(s[w..]);
      k := w + rest;
      assert s[w..][rest..] == s[k..];
    }
  }

  lemma {:induction false} Markers()
    ensures START_MARKER[0] == '<' && END_MARKER[0] == '<' && |START_MARKER| == 20 && |END_MARKER| == 18
    ensures CONTAINER_HEAD[0] == '<' && Utf8.Valid(CONTAINER_HEAD + START_MARKER)
    ensures Utf8.Valid(END_MARKER + CONTAINER_TAIL)
  {
    Utf8.AsciiFrom(CONTAINER_HEAD + START_MARKER, 0);
    Utf8.AsciiFrom(END_MARKER + CONTAINER_TAIL, 0);
  }

  /** Neither a document nor a document's root: the container is added. */
  predicate IsBare(html: string) {
    !IsCfHtml(html) && !Contains(html, START_MARKER) && !LooksLikeHtmlRoot(html)
  }

  function Container(html: string): string {
    (CONTAINER_HEAD + START_MARKER) + (html + (END_MARKER + CONTAINER_TAIL))
  }

  lemma {:induction false} DocumentIsContainer(html: string)
    requires IsBare(html)
    ensures Document(html) == Container(html)
  {
  }

  /** The document has a tag, and is well-formed text when the HTML is. */
  lemma {:induction false} DocumentHasTag(html: string) returns (q: nat)
    requires !IsCfHtml(html) && Utf8.Valid(html)
    ensures q < |Document(html)| && Document(html)[q] == '<' && Utf8.Valid(Document(html))
  {
    Markers();
    if IsBare(html) {
      DocumentIsContainer(html);
      Utf8.Concat(html, END_MARKER + CONTAINER_TAIL);
      Utf8.Concat(CONTAINER_HEAD + START_MARKER, html + (END_MARKER + CONTAINER_TAIL));
      q := 0;
    } else if Contains(html, START_MARKER) {
      q := Find(html, START_MARKER).value;
      OccursChar(html, q, START_MARKER, 0);
    } else {
      q := TrimStartCuts(html);
      assert html[q..][0] == html[q];
    }
  }

  // ---------------------------------------------------------- the round trip

  lemma {:induction false} HeaderForIs(document: string) returns (a: string, b: string, c: string, d: string)
    requires HeaderLength() + |document| < OFFSET_LIMIT
    ensures Offsets(a, b, c, d) && HeaderFor(document) == Header(a, b, c, d)
    ensures Parsed(a) == Some(HeaderLength()) && Parsed(b) == Some(HeaderLength() + |document|)
    ensures Parsed(c) == Some(HeaderLength() + FragmentStart(document))
    ensures Parsed(d) == Some(HeaderLength() + FragmentEnd(document))
    ensures FragmentEnd(document) <= |document|
  {
    hide Plain, Parsed, Padded, Header;
    var n := HeaderLength();
    a, b := Padded(n), Padded(n + |document|);
    c, d := Padded(n + FragmentStart(document)), Padded(n + FragmentEnd(document));
    PaddedParses(n);
    PaddedParses(n + |document|);
    PaddedParses(n + FragmentStart(document));
    PaddedParses(n + FragmentEnd(document));
  }

  lemma {:induction false} HeaderIsPlain(a: string, b: string, c: string, d: string)
    requires Offsets(a, b, c, d)
    ensures Utf8.AllAscii(Header(a, b, c, d))
    ensures forall k :: 0 <= k < |Header(a, b, c, d)| ==> Header(a, b, c, d)[k] != '<'
  {
    Names();
    LineIsPlain("Version", "0.9");
    LineIsPlain("StartHTML", a);
    LineIsPlain("EndHTML", b);
    LineIsPlain("StartFragment", c);
    LineIsPlain("EndFragment", d);
    hide Line, Plain;
  }

  lemma {:induction false} LineIsPlain(name: string, value: string)
    requires Plain(name) && Plain(value)
    ensures Utf8.AllAscii(Line(name, value))
    ensures forall k :: 0 <= k < |Line(name, value)| ==> Line(name, value)[k] != '<'
  {
  }

  /** The parser's header runs into the document up to its first tag; that
      part is well-formed text and starts with the written header. */
  lemma {:induction false} HeaderSlice(header: string, document: string, junk: string, q: nat) returns (slice: string)
    requires Utf8.AllAscii(header) && forall k :: 0 <= k < |header| ==> header[k] != '<'
    requires q < |document| && document[q] == '<' && Utf8.Valid(document)
    ensures var payload := header + document + junk; slice == payload[..IndexOf(payload, '<', 0)]
    ensures Utf8.Valid(slice) && OccursAt(slice, 0, header)
  {
    var payload := header + document + junk;
    var first := IndexOf(document, '<', 0);
    assert first <= q;
    forall k | 0 <= k < |header| + first ensures payload[k] != '<' {
      assert payload[k] == if k < |header| then header[k] else document[k - |header|];
    }
    IndexOfIs(payload, '<', 0, |header| + first);
    slice := payload[..|header| + first];
    assert slice == header + document[..first];
    Utf8.CutBeforeAscii(document, 0, first);
    Utf8.AsciiFrom(header, 0);
    Utf8.Concat(header, document[..first]);
  }

  lemma {:induction false} OffsetsParse(document: string, junk: string, q: nat)
    requires HeaderLength() + |document| < OFFSET_LIMIT
    requires q < |document| && document[q] == '<' && Utf8.Valid(document)
    ensures |HeaderFor(document)| == HeaderLength()
    ensures var payload := HeaderFor(document) + document + junk;
            && CfHtmlOffset(payload, "StartHTML") == Some(HeaderLength())
            && CfHtmlOffset(payload, "EndHTML") == Some(HeaderLength() + |document|)
            && CfHtmlOffset(payload, "StartFragment") == Some(HeaderLength() + FragmentStart(document))
            && CfHtmlOffset(payload, "EndFragment") == Some(HeaderLength() + FragmentEnd(document))
  {
    var a, b, c, d := HeaderForIs(document);
    HeaderLengthIs(a, b, c, d);
    HeaderIsPlain(a, b, c, d);
    hide Header, HeaderFor, Offsets, Parsed, OccursAt, OffsetFrom, IndexOf, HeaderLength, FragmentStart, FragmentEnd;
    var slice := HeaderSlice(Header(a, b, c, d), document, junk, q);
    HeaderParses(slice, a, b, c, d);
  }

  /** Reading back what was written gives the document, even when the clipboard
      hands over more bytes than were written. */
  lemma {:induction false} RoundTrip(html: string, junk: string)
    requires !IsCfHtml(html) && Utf8.Valid(html)
    requires HeaderLength() + |Document(html)| < OFFSET_LIMIT
    ensures HtmlDocument(ToCfHtml(html) + junk) == Some(Document(html))
  {
    var document := Document(html);
    var q := DocumentHasTag(html);
    hide IsCfHtml, Document, HeaderFor, CfHtmlOffset, HeaderLength;
    OffsetsParse(document, junk, q);
    var payload := ToCfHtml(html) + junk;
    assert payload == HeaderFor(document) + document + junk;
    var n := HeaderLength();
    assert payload[n..n + |document|] == document;
  }

  lemma {:induction false} HeaderMakesCfHtml(a: string, b: string, c: string, d: string, document: string)
    ensures IsCfHtml(Header(a, b, c, d) + document)
  {
    var payload := Header(a, b, c, d) + document;
    assert payload[..8] == "Version:";
    assert payload[13..23] == "StartHTML:";
    assert OccursAt(payload, 13, "StartHTML:");
  }

  lemma {:induction false} WrittenIsCfHtml(document: string)
    ensures IsCfHtml(HeaderFor(document) + document)
  {
    hide *;
    var n := HeaderLength();
    HeaderMakesCfHtml(Padded(n), Padded(n + |document|), Padded(n + FragmentStart(document)),
                      Padded(n + FragmentEnd(document)), document);
    HeaderForUnfolds(document);
  }

  lemma {:induction false} HeaderForUnfolds(document: string)
    ensures var n := HeaderLength();
            HeaderFor(document) == Header(Padded(n), Padded(n + |document|), Padded(n + FragmentStart(document)),
                                          Padded(n + FragmentEnd(document)))
  {
    hide Header, Padded, HeaderLength, FragmentStart, FragmentEnd;
  }

  /** A payload that carries a header is never wrapped again. */
  lemma {:induction false} WrapTwiceIsWrapOnce(html: string)
    ensures IsCfHtml(ToCfHtml(html)) && ToCfHtml(ToCfHtml(html)) == ToCfHtml(html)
  {
    hide IsCfHtml, Document, HeaderFor;
    if !IsCfHtml(html) { WrittenIsCfHtml(Document(html)); }
  }

  /** What is read back is a fixed point of the normalization, so re-wrapping it
      writes the same payload. */
  lemma {:induction false} DocumentIsStable(html: string)
    requires !IsCfHtml(html)
    ensures !IsCfHtml(Document(html)) && Document(Document(html)) == Document(html)
    ensures ToCfHtml(Document(html)) == ToCfHtml(html)
  {
    if IsBare(html) {
      Markers();
      DocumentIsContainer(html);
      var document := Container(html);
      assert OccursAt(document, |CONTAINER_HEAD|, START_MARKER);
      assert document[0] == '<' && "Version:"[0] == 'V';
      assert document[..8][0] == document[0];
    }
  }

  /** Where a marker may start: its first two characters are `<!`. */
  predicate MayStart(s: string, k: nat) { k + 1 < |s| && s[k] == '<' && s[k + 1] == '!' }

  lemma {:induction false} MarkerStarts(s: string, k: nat, marker: string)
    requires OccursAt(s, k, marker) && (marker == START_MARKER || marker == END_MARKER)
    ensures MayStart(s, k)
  {
    OccursChar(s, k, marker, 0);
    OccursChar(s, k, marker, 1);
  }

  lemma {:induction false} NoEarlierStart(rest: string, k: nat)
    requires k < |CONTAINER_HEAD|
    ensures !MayStart(CONTAINER_HEAD + rest, k)
  {
    var s := CONTAINER_HEAD + rest;
    assert s[k] == CONTAINER_HEAD[k];
    if k + 1 < |CONTAINER_HEAD| { assert s[k + 1] == CONTAINER_HEAD[k + 1]; }
  }

  lemma {:induction false} NoLaterEnd(before: string, k: nat)
    requires |before| < k
    ensures !MayStart(before + (END_MARKER + CONTAINER_TAIL), k)
  {
    var tail := END_MARKER + CONTAINER_TAIL;
    var s := before + tail;
    if k + 1 < |s| {
      assert s[k] == tail[k - |before|] && s[k + 1] == tail[k + 1 - |before|];
    }
  }

  lemma {:induction false} StartOfContainer(html: string)
    ensures FragmentStart(Container(html)) == |CONTAINER_HEAD| + |START_MARKER|
  {
    hide FindFrom;
    var head := |CONTAINER_HEAD|;
    var rest := START_MARKER + html + END_MARKER + CONTAINER_TAIL;
    var document := CONTAINER_HEAD + rest;
    assert Container(html) == document;
    assert rest[..|START_MARKER|] == START_MARKER && OccursAt(document, head, START_MARKER);
    forall k | 0 <= k < head ensures !OccursAt(document, k, START_MARKER) {
      if OccursAt(document, k, START_MARKER) {
        MarkerStarts(document, k, START_MARKER);
        NoEarlierStart(rest, k);
      }
    }
    FindIs(document, START_MARKER, 0, head);
  }

  lemma {:induction false} EndOfContainer(html: string)
    ensures FragmentEnd(Container(html)) == |CONTAINER_HEAD| + |START_MARKER| + |html|
  {
    hide RFindBelow;
    var before := CONTAINER_HEAD + START_MARKER + html;
    var document := before + (END_MARKER + CONTAINER_TAIL);
    assert Container(html) == document;
    assert OccursAt(document, |before|, END_MARKER);
    forall k | |before| < k <= |document| ensures !OccursAt(document, k, END_MARKER) {
      if OccursAt(document, k, END_MARKER) {
        MarkerStarts(document, k, END_MARKER);
        NoLaterEnd(before, k);
      }
    }
    RFindIs(document, END_MARKER, |before|);
  }

  lemma {:induction false} FragmentOfContainer(html: string)
    ensures FragmentStart(Container(html)) <= FragmentEnd(Container(html)) <= |Container(html)|
    ensures Container(html)[FragmentStart(Container(html))..FragmentEnd(Container(html))] == html
  {
    StartOfContainer(html);
    EndOfContainer(html);
    hide FragmentStart, FragmentEnd;
  }

  lemma {:induction false} SliceInside(h: string, d: string, from: nat, to: nat)
    requires from <= to <= |d|
    ensures (h + d)[|h| + from..|h| + to] == d[from..to]
  {
  }

  /** What lies between the two fragment offsets of a payload. */
  function Fragment(payload: string): Option<string> {
    var start, end := CfHtmlOffset(payload, "StartFragment"), CfHtmlOffset(payload, "EndFragment");
    if start.Some? && end.Some? && start.value <= end.value <= |payload|
    then Some(payload[start.value..end.value]) else None
  }

  lemma {:induction false} FragmentIs(payload: string, header: string, document: string, from: nat, to: nat)
    requires payload == header + document && from <= to <= |document|
    requires CfHtmlOffset(payload, "StartFragment") == Some(|header| + from)
    requires CfHtmlOffset(payload, "EndFragment") == Some(|header| + to)
    ensures Fragment(payload) == Some(document[from..to])
  {
    hide CfHtmlOffset;
    SliceInside(header, document, from, to);
  }

  lemma {:induction false} BareIsWrapped(html: string)
    requires IsBare(html)
    ensures ToCfHtml(html) == HeaderFor(Container(html)) + Container(html)
    ensures Document(html) == Container(html) && !IsCfHtml(html)
  {
    DocumentIsContainer(html);
    hide Document, HeaderFor, Container, IsCfHtml;
  }

  /** The fragment offsets of a bare fragment delimit exactly that fragment,
      even when it contains an end marker of its own. */
  lemma {:induction false} BareFragmentIsDelimited(html: string)
    requires IsBare(html) && Utf8.Valid(html)
    requires HeaderLength() + |Document(html)| < OFFSET_LIMIT
    ensures Fragment(ToCfHtml(html)) == Some(html)
  {
    BareIsWrapped(html);
    var q := DocumentHasTag(html);
    hide *;
    var document := Container(html);
    var header := HeaderFor(document);
    OffsetsParse(document, "", q);
    assert header + document + "" == header + document;
    FragmentOfContainer(html);
    FragmentIs(header + document, header, document, FragmentStart(document), FragmentEnd(document));
  }
}
