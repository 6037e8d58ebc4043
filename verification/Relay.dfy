/** A relay republishes a capture under Cubby's ownership and predicts the
    identity its own re-capture will have. Text is given by its characters;
    formats and clipboard payloads are byte strings. */
module Relay {
  import opened Wrappers
  import opened ClipIdentity
  import CfHtml
  import CfHtmlRoundTrip
  import Utf8
  import Utf16

  // -------------------------------------------------------------- prediction

  /** The auxiliary formats a relay republishes, as a re-capture reads them. */
  function RelayedFormats(formats: seq<Format>): seq<Format> {
    if |formats| == 0 then []
    else
      var f := formats[0];
      (if f.name == "html" then [Format("html", CfHtml.Document(Utf8.Lossy(f.content)))]
       else if f.name == "rtf" then [f]
       else [])
      + RelayedFormats(formats[1..])
  }

  /** The material whose hash the relay arms as its own. */
  function Predicted(text: string, formats: seq<Format>): string {
    Material("text", Utf8.Encode(text), RelayedFormats(formats))
  }

  // ----------------------------------------------------------------- writing

  /** What the clipboard holds after the relay's write. */
  datatype Board = Board(text: string, html: Option<string>, rtf: Option<string>)

  /** The raw setter writes nothing for an empty payload. */
  function Set(held: Option<string>, payload: string): Option<string> {
    if |payload| == 0 then held else Some(payload)
  }

  function PublishOne(board: Board, f: Format): Board {
    if f.name == "html" then board.(html := Set(board.html, CfHtml.ToCfHtml(Utf8.Lossy(f.content))))
    else if f.name == "rtf" then board.(rtf := Set(board.rtf, f.content))
    else board
  }

  function Published(text: string, relayed: seq<Format>): Board {
    if |relayed| == 0 then Board(Utf16.ClipboardBytes(text), None, None)
    else PublishOne(Published(text, relayed[..|relayed| - 1]), relayed[|relayed| - 1])
  }

  /** The clipboard before and after: as it was, emptied, or holding the relay's
      write with or without the marker that keeps it out of history. */
  datatype Clipboard = Untouched | Emptied | Written(board: Board, marked: bool)

  /** What fails during one write; `lost` are the formats that do not make it. */
  datatype Faults = Faults(register: bool, open: bool, clear: bool, text: bool, lost: set<string>, mark: bool,
                           withdraw: bool)

  /** The relayed formats that reach the clipboard. */
  function Reaching(relayed: seq<Format>, lost: set<string>): seq<Format> {
    if |relayed| == 0 then []
    else
      var before := Reaching(relayed[..|relayed| - 1], lost);
      if relayed[|relayed| - 1].name in lost then before else before + [relayed[|relayed| - 1]]
  }

  lemma {:induction false} ReachingGrows(before: seq<Format>, f: Format, lost: set<string>)
    ensures Reaching(before + [f], lost) == Reaching(before, lost) + (if f.name in lost then [] else [f])
  {
    assert (before + [f])[..|before|] == before;
  }

  /** What must fail before the clipboard is changed at all. */
  predicate NotStarted(sensitive: bool, faults: Faults) { (sensitive && faults.register) || faults.open || faults.clear }

  /** The write: text first, then each relayed format in turn, and the marker
      last. A failed format is skipped; a failed marker withdraws everything. So
      sensitive content is left without its marker exactly when both the marker
      and the withdrawal failed, and that is reported. */
  method SetRelayedClipboardPayload(text: string, formats: seq<Format>, sensitive: bool, faults: Faults)
    returns (ok: bool, after: Clipboard)
    ensures ok <==> !NotStarted(sensitive, faults) && !faults.text && !(sensitive && faults.mark)
    ensures after.Untouched? <==> NotStarted(sensitive, faults)
    ensures after.Written? ==>
              after.board == Published(text, Reaching(RelayedFormats(formats), faults.lost))
    ensures ok ==> after.Written? && after.marked == sensitive
    ensures after.Written? && after.marked != sensitive <==>
              sensitive && !NotStarted(sensitive, faults) && !faults.text && faults.mark && faults.withdraw
  {
    if (sensitive && faults.register) || faults.open || faults.clear {
      return false, Untouched;
    }
    after := Emptied;
    var bytes := Utf16.Utf16ClipboardBytes(text);
    if faults.text {
      return false, after;
    }
    var board := Board(bytes, None, None);
    var relayed := RelayedFormats(formats);
    for i := 0 to |relayed|
      invariant board == Published(text, Reaching(relayed[..i], faults.lost))
    {
      assert relayed[..i + 1][..i] == relayed[..i];
      if relayed[i].name !in faults.lost {
        PublishedGrows(text, Reaching(relayed[..i], faults.lost), relayed[i]);
        board := PublishOne(board, relayed[i]);
      }
    }
    assert relayed[..|relayed|] == relayed;
    if sensitive && faults.mark {
      return false, if faults.withdraw then Written(board, false) else Emptied;
    }
    ok, after := true, Written(board, sensitive);
  }

  // ----------------------------------------------------------------- reading

  /** Bytes the allocation holds past what was written, per format. */
  datatype Junk = Junk(text: string, html: string, rtf: string)

  function NonEmpty(read: Option<string>): Option<string> {
    if read.Some? && |read.value| > 0 then read else None
  }

  /** Capture order: HTML, then RTF. */
  function CapturedFormats(html: Option<string>, rtf: Option<string>): seq<Format> {
    (if html.Some? then [Format("html", html.value)] else [])
    + (if rtf.Some? then [Format("rtf", rtf.value)] else [])
  }

  function ReadHtml(board: Board, junk: Junk): Option<string> {
    if board.html.Some? then CfHtml.HtmlDocument(board.html.value + junk.html) else None
  }

  function ReadRtf(board: Board, junk: Junk): Option<string> {
    if board.rtf.Some? then Some(Utf8.Lossy(board.rtf.value + junk.rtf)) else None
  }

  /** The identity of a capture of non-empty text. */
  function Recaptured(board: Board, junk: Junk): string {
    Material("text", Utf8.Encode(Utf16.DecodeUnicode(board.text + junk.text)),
             CapturedFormats(NonEmpty(ReadHtml(board, junk)), NonEmpty(ReadRtf(board, junk))))
  }

  // ------------------------------------------------------------ the main result

  /** What a capture stores: formats are never empty, text is well formed. */
  predicate CapturedHtml(html: Option<string>) {
    html.Some? ==>
      && |html.value| > 0 && Utf8.Valid(html.value) && !CfHtml.IsCfHtml(html.value)
      && CfHtml.HeaderLength() + |CfHtml.Document(html.value)| < CfHtml.OFFSET_LIMIT
  }

  predicate CapturedRtf(rtf: Option<string>) {
    rtf.Some? ==> |rtf.value| > 0 && Utf8.Valid(rtf.value)
  }

  function DocumentOf(html: Option<string>): Option<string> {
    if html.Some? then Some(CfHtml.Document(html.value)) else None
  }

  lemma {:induction false} LossyIsIdentity(s: string)
    requires Utf8.Valid(s)
    ensures Utf8.Lossy(s) == s
  {
    Utf8.LossyKeepsPrefix(s, "", 0);
    assert s + "" == s && s[0..] + Utf8.Lossy("") == s;
  }

  lemma {:induction false} RelayedRtf(rtf: Option<string>)
    ensures RelayedFormats(CapturedFormats(None, rtf)) == CapturedFormats(None, rtf)
  {
    if rtf.Some? {
      assert CapturedFormats(None, rtf) == [Format("rtf", rtf.value)];
      assert [Format("rtf", rtf.value)][1..] == [];
    }
  }

  lemma {:induction false} RelayedOfCaptured(html: Option<string>, rtf: Option<string>)
    requires CapturedHtml(html)
    ensures RelayedFormats(CapturedFormats(html, rtf)) == CapturedFormats(DocumentOf(html), rtf)
  {
    RelayedRtf(rtf);
    if html.Some? {
      LossyIsIdentity(html.value);
      hide CfHtml.Document, Utf8.Lossy, CapturedHtml;
      var formats := CapturedFormats(html, rtf);
      assert formats[0] == Format("html", html.value) && formats[1..] == CapturedFormats(None, rtf);
      assert CapturedFormats(DocumentOf(html), rtf)
          == [Format("html", CfHtml.Document(html.value))] + CapturedFormats(None, rtf);
    }
  }

  lemma {:induction false} DocumentSurvives(html: string, junk: string)
    requires CapturedHtml(Some(html))
    ensures Utf8.Lossy(CfHtml.Document(html)) == CfHtml.Document(html)
    ensures |CfHtml.ToCfHtml(CfHtml.Document(html))| > 0 && |CfHtml.Document(html)| > 0
    ensures CfHtml.HtmlDocument(CfHtml.ToCfHtml(CfHtml.Document(html)) + junk) == Some(CfHtml.Document(html))
  {
    var q := CfHtmlRoundTrip.DocumentHasTag(html);
    LossyIsIdentity(CfHtml.Document(html));
    CfHtmlRoundTrip.DocumentIsStable(html);
    CfHtmlRoundTrip.RoundTrip(html, junk);
  }

  lemma {:induction false} PublishedGrows(text: string, before: seq<Format>, f: Format)
    ensures Published(text, before + [f]) == PublishOne(Published(text, before), f)
  {
    assert (before + [f])[..|before|] == before;
  }

  lemma {:induction false} PublishedHtml(text: string, html: Option<string>)
    requires CapturedHtml(html)
    ensures Published(text, CapturedFormats(DocumentOf(html), None))
         == Board(Utf16.ClipboardBytes(text),
                  if html.Some? then Some(CfHtml.ToCfHtml(CfHtml.Document(html.value))) else None, None)
  {
    if html.Some? {
      DocumentSurvives(html.value, "");
      hide CfHtml.Document, CfHtml.ToCfHtml, Utf8.Lossy, CapturedHtml, Utf16.ClipboardBytes;
      var f := Format("html", CfHtml.Document(html.value));
      assert CapturedFormats(DocumentOf(html), None) == [] + [f];
      PublishedGrows(text, [], f);
    }
  }

  /** What the relay of a capture puts on the clipboard. */
  lemma {:induction false} BoardOfCaptured(text: string, html: Option<string>, rtf: Option<string>)
    requires CapturedHtml(html) && CapturedRtf(rtf)
    ensures Published(text, RelayedFormats(CapturedFormats(html, rtf)))
         == Board(Utf16.ClipboardBytes(text),
                  if html.Some? then Some(CfHtml.ToCfHtml(CfHtml.Document(html.value))) else None, rtf)
  {
    RelayedOfCaptured(html, rtf);
    PublishedHtml(text, html);
    hide CfHtml.Document, CfHtml.ToCfHtml, RelayedFormats, CapturedHtml, Utf16.ClipboardBytes;
    var before := CapturedFormats(DocumentOf(html), None);
    if rtf.Some? {
      assert CapturedFormats(DocumentOf(html), rtf) == before + [Format("rtf", rtf.value)];
      PublishedGrows(text, before, Format("rtf", rtf.value));
    }
  }

  /** The RTF read back: what was written and whatever the rest decodes to. */
  function WithTail(rtf: Option<string>, junk: string): Option<string> {
    if rtf.Some? then Some(rtf.value + Utf8.Lossy(junk)) else None
  }

  lemma {:induction false} RecaptureOf(text: string, html: Option<string>, rtf: Option<string>, junk: Junk)
    requires Utf16.NulFree(text) && CapturedHtml(html) && CapturedRtf(rtf)
    ensures Recaptured(Published(text, RelayedFormats(CapturedFormats(html, rtf))), junk)
         == Material("text", Utf8.Encode(text), CapturedFormats(DocumentOf(html), WithTail(rtf, junk.rtf)))
  {
    BoardOfCaptured(text, html, rtf);
    Utf16.RoundTrip(text, junk.text);
    if html.Some? { DocumentSurvives(html.value, junk.html); }
    if rtf.Some? {
      Utf8.LossyKeepsPrefix(rtf.value, junk.rtf, 0);
      assert rtf.value[0..] == rtf.value;
    }
    hide Published, RelayedFormats, Material, Utf8.Encode, Utf8.Lossy, CfHtml.Document, CfHtml.ToCfHtml;
    hide CfHtml.HtmlDocument, Utf16.DecodeUnicode, CapturedFormats;
  }

  /** Bytes after the RTF show in the identity. */
  lemma {:induction false} TailShows(primary: string, document: Option<string>, rtf: Option<string>, junk: string)
    ensures Material("text", primary, CapturedFormats(document, WithTail(rtf, junk)))
         == Material("text", primary, CapturedFormats(document, rtf))
        <==> rtf.None? || |junk| == 0
  {
    if rtf.Some? {
      var before := CapturedFormats(document, None);
      var read := WithTail(rtf, junk).value;
      assert CapturedFormats(document, rtf) == before + [Format("rtf", rtf.value)];
      assert CapturedFormats(document, WithTail(rtf, junk)) == before + [Format("rtf", read)];
      MaterialGrows("text", primary, before, Format("rtf", rtf.value));
      MaterialGrows("text", primary, before, Format("rtf", read));
      assert |junk| == 0 ==> junk == "" && read == rtf.value;
      hide Material;
      assert |read| == |rtf.value| + |Utf8.Lossy(junk)|;
    }
  }

  /** Of a capture's formats these reach the clipboard. */
  function Unless(lost: bool, payload: Option<string>): Option<string> { if lost then None else payload }

  lemma {:induction false} ReachingOfCaptured(document: Option<string>, rtf: Option<string>, lost: set<string>)
    ensures Reaching(CapturedFormats(document, rtf), lost)
         == CapturedFormats(Unless("html" in lost, document), Unless("rtf" in lost, rtf))
  {
    var before := CapturedFormats(document, None);
    if document.Some? {
      assert before == [] + [Format("html", document.value)];
      ReachingGrows([], Format("html", document.value), lost);
    }
    if rtf.Some? {
      assert CapturedFormats(document, rtf) == before + [Format("rtf", rtf.value)];
      ReachingGrows(before, Format("rtf", rtf.value), lost);
    }
    hide Reaching;
  }

  /** A format that did not reach the clipboard shows in the identity too. */
  lemma {:induction false} LossShows(primary: string, document: Option<string>, rtf: Option<string>, lost: set<string>,
                                     junk: string)
    requires (document.Some? && "html" in lost) || (rtf.Some? && "rtf" in lost)
    ensures Material("text", primary,
                     CapturedFormats(Unless("html" in lost, document), WithTail(Unless("rtf" in lost, rtf), junk)))
         != Material("text", primary, CapturedFormats(document, rtf))
  {
    var (html1, rtf1) := (Unless("html" in lost, document), WithTail(Unless("rtf" in lost, rtf), junk));
    MaterialOf(primary, html1, rtf1);
    MaterialOf(primary, document, rtf);
    hide Material, CapturedFormats, Part, Utf8.Lossy;
    var base := Material("text", primary, []);
    if rtf.Some? && "rtf" !in lost {
      OtherPartFirst(base, document.value, rtf, rtf1.value);
    } else {
      FewerParts(base, html1, document, rtf);
    }
  }

  lemma {:induction false} OtherPartFirst(base: string, html: string, rtf: Option<string>, read: string)
    ensures base + Part("html", None) + Part("rtf", Some(read)) != base + Part("html", Some(html)) + Part("rtf", rtf)
  {
    PartStarts(base + Part("html", None), "rtf", read, "");
    PartStarts(base, "html", html, Part("rtf", rtf));
    assert base + Part("html", None) + Part("rtf", Some(read)) + ""
        == base + Part("html", None) + Part("rtf", Some(read));
    assert |Part("html", None)| == 0;
    hide Part;
  }

  lemma {:induction false} FewerParts(base: string, html1: Option<string>, html: Option<string>, rtf: Option<string>)
    requires html1.None? || html1 == html
    requires rtf.Some? || html1 != html
    ensures base + Part("html", html1) + Part("rtf", None) != base + Part("html", html) + Part("rtf", rtf)
  {
    assert |Part("html", html1)| <= |Part("html", html)| && |Part("rtf", None)| <= |Part("rtf", rtf)|;
    assert |Part("html", html1)| < |Part("html", html)| || |Part("rtf", None)| < |Part("rtf", rtf)|;
    hide Part;
  }

  lemma {:induction false} PartStarts(base: string, name: string, payload: string, rest: string)
    requires |name| > 0
    ensures var all := base + Part(name, Some(payload)) + rest; |base| + 1 < |all| && all[|base| + 1] == name[0]
  {
    assert Part(name, Some(payload))[1] == name[0];
  }

  function Part(name: string, payload: Option<string>): string {
    if payload.Some? then [NUL] + name + [NUL] + payload.value else ""
  }

  lemma {:induction false} MaterialOf(primary: string, html: Option<string>, rtf: Option<string>)
    ensures Material("text", primary, CapturedFormats(html, rtf))
         == Material("text", primary, []) + Part("html", html) + Part("rtf", rtf)
  {
    var before := CapturedFormats(html, None);
    if html.Some? {
      assert before == [] + [Format("html", html.value)];
      MaterialGrows("text", primary, [], Format("html", html.value));
    }
    if rtf.Some? {
      assert CapturedFormats(html, rtf) == before + [Format("rtf", rtf.value)];
      MaterialGrows("text", primary, before, Format("rtf", rtf.value));
    } else {
      assert CapturedFormats(html, rtf) == before;
    }
    hide Material;
  }

  /** What reached the clipboard is all of what was captured. */
  predicate NothingLost(html: Option<string>, rtf: Option<string>, lost: set<string>) {
    (html.Some? ==> "html" !in lost) && (rtf.Some? ==> "rtf" !in lost)
  }

  /** Re-reading what a relay wrote gives the predicted identity exactly when
      every format reached the clipboard and no byte follows the RTF payload:
      trailing bytes after the text and the HTML are ignored, trailing bytes
      after the RTF become part of it. */
  lemma {:induction false} RelayPredictsRecapture(text: string, html: Option<string>, rtf: Option<string>,
                                                  lost: set<string>, junk: Junk)
    requires Utf16.NulFree(text) && CapturedHtml(html) && CapturedRtf(rtf)
    ensures var formats := CapturedFormats(html, rtf);
            Recaptured(Published(text, Reaching(RelayedFormats(formats), lost)), junk) == Predicted(text, formats)
            <==> NothingLost(html, rtf, lost) && (rtf.None? || |junk.rtf| == 0)
  {
    PredictedOf(text, html, rtf);
    ReadBack(text, html, rtf, lost, junk);
    hide *;
    if NothingLost(html, rtf, lost) {
      NothingLostIsAll(html, rtf, lost);
      TailShows(Utf8.Encode(text), DocumentOf(html), rtf, junk.rtf);
    } else {
      SomethingLost(html, rtf, lost);
      LossShows(Utf8.Encode(text), DocumentOf(html), rtf, lost, junk.rtf);
    }
  }

  lemma {:induction false} PredictedOf(text: string, html: Option<string>, rtf: Option<string>)
    requires CapturedHtml(html)
    ensures Predicted(text, CapturedFormats(html, rtf))
         == Material("text", Utf8.Encode(text), CapturedFormats(DocumentOf(html), rtf))
  {
    RelayedOfCaptured(html, rtf);
  }

  /** What is read back of a write that lost some formats. */
  lemma {:induction false} ReadBack(text: string, html: Option<string>, rtf: Option<string>, lost: set<string>, junk: Junk)
    requires Utf16.NulFree(text) && CapturedHtml(html) && CapturedRtf(rtf)
    ensures Recaptured(Published(text, Reaching(RelayedFormats(CapturedFormats(html, rtf)), lost)), junk)
         == Material("text", Utf8.Encode(text), CapturedFormats(Unless("html" in lost, DocumentOf(html)),
                                                                WithTail(Unless("rtf" in lost, rtf), junk.rtf)))
  {
    var (html1, rtf1) := (Unless("html" in lost, html), Unless("rtf" in lost, rtf));
    assert CapturedHtml(html1) && CapturedRtf(rtf1) && DocumentOf(html1) == Unless("html" in lost, DocumentOf(html));
    hide *;
    RelayedOfCaptured(html, rtf);
    RelayedOfCaptured(html1, rtf1);
    ReachingOfCaptured(DocumentOf(html), rtf, lost);
    RecaptureOf(text, html1, rtf1, junk);
  }

  lemma {:induction false} NothingLostIsAll(html: Option<string>, rtf: Option<string>, lost: set<string>)
    requires NothingLost(html, rtf, lost)
    ensures Unless("html" in lost, DocumentOf(html)) == DocumentOf(html) && Unless("rtf" in lost, rtf) == rtf
  {
    hide CfHtml.Document;
  }

  lemma {:induction false} SomethingLost(html: Option<string>, rtf: Option<string>, lost: set<string>)
    requires !NothingLost(html, rtf, lost)
    ensures (DocumentOf(html).Some? && "html" in lost) || (rtf.Some? && "rtf" in lost)
  {
    hide CfHtml.Document;
  }

  /** One stray byte after the RTF and the relay does not know its own write. */
  lemma {:induction false} BytesAfterRtfAreMispredicted()
    ensures var formats := CapturedFormats(None, Some("{}"));
            Recaptured(Published("a", RelayedFormats(formats)), Junk("", "", "x")) != Predicted("a", formats)
  {
    Utf8.AsciiFrom("{}", 0);
    RelayPredictsRecapture("a", None, Some("{}"), {}, Junk("", "", "x"));
    var relayed := RelayedFormats(CapturedFormats(None, Some("{}")));
    RelayedRtf(Some("{}"));
    ReachingOfCaptured(None, Some("{}"), {});
    hide Recaptured, Predicted, Published;
  }
}
