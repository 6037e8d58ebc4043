/** What one materialize attempt decides from what it observed, and exactly when
    it decides each thing. */
module CaptureDecision {
  import opened Wrappers

  datatype PayloadRead = Present(body: string) | Missing | Unknown {
    predicate HasContent() { Present? && |body| > 0 }

    function Content(): Option<string> { if HasContent() then Some(body) else None }
  }

  datatype RichCapture = RichCapture(searchableText: string, html: Option<string>, rtf: Option<string>)

  datatype AttemptFacts = AttemptFacts(
    text: PayloadRead, html: PayloadRead, rtf: PayloadRead,
    imageAdvertised: bool, imageReadable: bool, lastAttempt: bool)

  datatype Decision = Image | Rich(rich: RichCapture) | DeterminateMiss | Transient

  /** The extractors that stand in for missing Unicode text. */
  datatype Extractors = Extractors(html: string -> string, rtf: string -> string)

  predicate NeedsImageRead(text: PayloadRead, advertised: bool, lastAttempt: bool) {
    advertised &&
    match text
    case Present(body) => |body| == 0
    case Unknown => lastAttempt
    case Missing => true
  }

  function Derived(html: Option<string>, rtf: Option<string>, extract: Extractors): string {
    var fromHtml := if html.Some? then extract.html(html.value) else "";
    var fromRtf := if rtf.Some? then extract.rtf(rtf.value) else "";
    if |fromHtml| > 0 then fromHtml
    else if |fromRtf| > 0 then fromRtf
    else if html.Some? then "[HTML]" else "[RTF]"
  }

  function RichCaptureFromPayloads(text: PayloadRead, html: PayloadRead, rtf: PayloadRead, extract: Extractors)
    : Option<RichCapture>
  {
    var (h, r) := (html.Content(), rtf.Content());
    if text.HasContent() then Some(RichCapture(text.body, h, r))
    else if h.None? && r.None? then None
    else Some(RichCapture(Derived(h, r, extract), h, r))
  }

  function DecideCapture(facts: AttemptFacts, extract: Extractors): Decision {
    if facts.text.HasContent() then
      Rich(RichCapture(facts.text.body, facts.html.Content(), facts.rtf.Content()))
    else if facts.text.Unknown? && !facts.lastAttempt then Transient
    else if facts.imageReadable then Image
    else if facts.imageAdvertised && !facts.lastAttempt then Transient
    else
      var rich := RichCaptureFromPayloads(facts.text, facts.html, facts.rtf, extract);
      if rich.Some? then Rich(rich.value)
      else if facts.imageAdvertised || facts.text.Unknown? || facts.html.Unknown? || facts.rtf.Unknown?
      then Transient
      else DeterminateMiss
  }

  /** Something that was advertised may still render. */
  predicate StillRendering(facts: AttemptFacts) {
    facts.text.Unknown? || facts.html.Unknown? || facts.rtf.Unknown? || facts.imageAdvertised
  }

  /** Only HTML or RTF was read, and the real body can no longer turn up. */
  predicate StandInIsFinal(facts: AttemptFacts) {
    && !facts.imageReadable
    && (facts.html.HasContent() || facts.rtf.HasContent())
    && (facts.text.Unknown? || facts.imageAdvertised ==> facts.lastAttempt)
  }

  /** What a decision to store text was put together from. */
  predicate DrawnFrom(rich: RichCapture, facts: AttemptFacts, extract: Extractors) {
    && rich.html == facts.html.Content()
    && rich.rtf == facts.rtf.Content()
    && |rich.searchableText| > 0
    && (if facts.text.HasContent() then rich.searchableText == facts.text.body
        else rich.searchableText == Derived(rich.html, rich.rtf, extract))
  }

  /** A miss is called final exactly when nothing at all was read and nothing
      more can come; a picture beats any stand-in text; Unicode text beats a
      picture; and no stand-in is stored while the real body may still arrive. */
  lemma DecisionsAreExact(facts: AttemptFacts, extract: Extractors)
    requires facts.imageReadable ==> facts.imageAdvertised
    ensures DecideCapture(facts, extract).DeterminateMiss?
       <==> !StillRendering(facts) && !facts.text.HasContent() && !facts.html.HasContent() && !facts.rtf.HasContent()
    ensures DecideCapture(facts, extract).Image?
       <==> facts.imageReadable && !facts.text.HasContent() && (facts.text.Unknown? ==> facts.lastAttempt)
    ensures DecideCapture(facts, extract).Rich? <==> facts.text.HasContent() || StandInIsFinal(facts)
    ensures DecideCapture(facts, extract).Rich? ==> DrawnFrom(DecideCapture(facts, extract).rich, facts, extract)
  {
  }

  /** The image is read whenever the decision could use it, so an advertised,
      readable picture is never passed over for want of reading it. */
  lemma UnreadImageChangesNothing(facts: AttemptFacts, extract: Extractors)
    requires facts.imageAdvertised && !NeedsImageRead(facts.text, facts.imageAdvertised, facts.lastAttempt)
    ensures DecideCapture(facts.(imageReadable := true), extract)
         == DecideCapture(facts.(imageReadable := false), extract)
  {
  }
}
