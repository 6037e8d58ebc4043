/** The listener's composite reads. Each is several separate clipboard reads;
    what it reports is about one copy only when the sequence did not move. */
module ClipboardReads {
  import opened Wrappers
  import opened CaptureDecision
  import opened ClipboardWorld
  import opened Capture

  method HasSupportedFormat(clip: Clipboard) returns (supported: bool)
    modifies clip
    ensures old(clip.at) <= clip.at
    ensures clip.quiet ==> clip.at == old(clip.at)
    ensures clip.at == old(clip.at) ==> supported == clip.Now().Supported()
  {
    supported := clip.Advertises(UnicodeText);
    if !supported { supported := clip.Advertises(Html); }
    if !supported { supported := clip.Advertises(Rtf); }
    if !supported { supported := clip.Advertises(Bitmap); }
  }

  /** The four do-not-retain markers. Presence settles two of them; the DWORDs
      have to be read, and an unreadable one is an error. */
  method MarkedSensitive(clip: Clipboard) returns (markers: Result<Markers, ReadFailure>)
    modifies clip
    ensures old(clip.at) <= clip.at
    ensures clip.quiet ==> clip.at == old(clip.at) && markers.Ok?
    ensures clip.at == old(clip.at) && markers.Ok? ==> markers.value == clip.Now().PrivacyMarkers()
  {
    var monitor := clip.Advertises(MonitorExclusion);
    var viewer := clip.Advertises(ViewerIgnore);
    var dwords := clip.Advertises(HistoryDword);
    if !dwords { dwords := clip.Advertises(CloudDword); }
    if !dwords {
      return Ok(Markers(monitor, viewer, false, false));
    }
    var failure := ReaderFails(clip);
    if failure.Some? {
      return Err(failure.value);
    }
    var history := clip.ReadOptOut(HistoryDword);
    if history.None? {
      return Err(Failed);
    }
    var cloud := clip.ReadOptOut(CloudDword);
    if cloud.None? {
      return Err(Failed);
    }
    markers := Ok(Markers(monitor, viewer, history.value, cloud.value));
  }

  /** The reader thread may time out or fail before it reads anything. */
  method ReaderFails(clip: Clipboard) returns (failure: Option<ReadFailure>)
    ensures clip.quiet ==> failure.None?
  {
    failure := *;
    if clip.quiet { failure := None; }
  }

  /** Ten tries; a timed-out owner is not asked again. */
  method RetrySensitiveMarkers(clip: Clipboard) returns (markers: Result<Markers, ReadFailure>)
    modifies clip
    ensures old(clip.at) <= clip.at
    ensures clip.quiet ==> clip.at == old(clip.at) && markers.Ok?
    ensures clip.at == old(clip.at) && markers.Ok? ==> markers.value == clip.Now().PrivacyMarkers()
  {
    for attempt := 0 to 9
      invariant old(clip.at) <= clip.at
      invariant clip.quiet ==> clip.at == old(clip.at)
    {
      markers := MarkedSensitive(clip);
      if !(markers.Err? && markers.error.Failed?) {
        return;
      }
    }
    markers := MarkedSensitive(clip);
  }

  /** Empty, or only an empty text; a clipboard that cannot be opened is not. */
  method ClipboardIsCleared(clip: Clipboard) returns (cleared: bool)
    modifies clip
    ensures old(clip.at) <= clip.at
    ensures clip.quiet ==> clip.at == old(clip.at) && cleared == LooksEmpty(clip.Now())
    ensures clip.at == old(clip.at) && cleared ==> LooksEmpty(clip.Now())
  {
    var zero := clip.FormatCountIsZero();
    if zero {
      return true;
    }
    var only := clip.OnlyHasPlaceholders();
    if !only {
      return false;
    }
    var text := clip.Read(UnicodeText);
    cleared := text.Some? && |text.value| == 0;
  }

  function ObservedPayload(body: Option<string>, advertised: bool): PayloadRead {
    if body.Some? then Present(body.value) else if advertised then Unknown else Missing
  }

  /** What one payload read may report about one copy. */
  predicate Observes(read: PayloadRead, body: Option<string>) {
    match read
    case Present(got) => body == Some(got)
    case Missing => body.None?
    case Unknown => body.Some?
  }

  predicate AnswerOf(read: PayloadRead, body: Option<string>) {
    read == if body.Some? then Present(body.value) else Missing
  }

  /** Text, HTML and RTF. For a remote owner the text is read again afterwards,
      since its data can change under one sequence number. */
  method ReadTextFormats(clip: Clipboard, coherentRdpText: bool)
    returns (bodies: Option<(PayloadRead, PayloadRead, PayloadRead)>)
    modifies clip
    ensures old(clip.at) <= clip.at
    ensures clip.quiet ==> clip.at == old(clip.at) && bodies.Some?
    ensures clip.quiet ==> AnswerOf(bodies.value.0, clip.Now().text) && AnswerOf(bodies.value.1, clip.Now().html)
                           && AnswerOf(bodies.value.2, clip.Now().rtf)
    ensures clip.at == old(clip.at) && bodies.Some? ==>
      Observes(bodies.value.0, clip.Now().text) && Observes(bodies.value.1, clip.Now().html)
      && Observes(bodies.value.2, clip.Now().rtf)
  {
    var text := clip.Read(UnicodeText);
    var html := clip.Read(Html);
    var rtf := clip.Read(Rtf);
    if coherentRdpText {
      var again := clip.Read(UnicodeText);
      if again != text {
        return None;
      }
    }
    var textThere := clip.Advertises(UnicodeText);
    var htmlThere := clip.Advertises(Html);
    var rtfThere := clip.Advertises(Rtf);
    bodies := Some((ObservedPayload(text, textThere), ObservedPayload(html, htmlThere), ObservedPayload(rtf, rtfThere)));
  }

  /** What a materialize outcome is allowed to be for the copy it was read from. */
  predicate OutcomeFrom(g: Generation, outcome: Materialized, extract: Extractors) {
    match outcome
    case Captured(payload) => PayloadFrom(g, payload, extract)
    case Miss => NoPayload(g)
    case OwnerTimedOut => true
  }

  lemma {:induction false} DecisionIsFaithful(g: Generation, facts: AttemptFacts, image: Option<string>, extract: Extractors)
    requires Observes(facts.text, g.text) && Observes(facts.html, g.html) && Observes(facts.rtf, g.rtf)
    requires facts.imageAdvertised == g.image.Some? && facts.imageReadable == image.Some?
    requires image.Some? ==> image == g.image
    ensures DecideCapture(facts, extract).Rich? ==> TextFrom(g, DecideCapture(facts, extract).rich, extract)
    ensures DecideCapture(facts, extract).DeterminateMiss? ==> NoPayload(g)
  {
    DecisionsAreExact(facts, extract);
    hide DecideCapture, RichCaptureFromPayloads, Derived;
  }

  lemma {:induction false} QuietDecision(g: Generation, facts: AttemptFacts, extract: Extractors)
    requires AnswerOf(facts.text, g.text) && AnswerOf(facts.html, g.html) && AnswerOf(facts.rtf, g.rtf)
    requires facts.imageAdvertised == g.image.Some? && !(g.files && g.image.Some?)
    requires facts.imageReadable == (g.image.Some? && NeedsImageRead(facts.text, true, facts.lastAttempt))
    ensures var d := DecideCapture(facts, extract);
            !d.Transient? && (d.Image? ==> g.image.Some? && QuietOutcome(g, extract) == Captured(ImageClip(g.image.value)))
            && (d.Rich? ==> QuietOutcome(g, extract) == Captured(TextClip(d.rich)))
            && (d.DeterminateMiss? ==> QuietOutcome(g, extract) == Miss)
  {
    hide Derived;
  }

  /** One materialize attempt: what was read, and the sequence seen right after
      the last read. A picture beside files is the picture, never their paths. */
  method MaterializeOnce(clip: Clipboard, extract: Extractors, lastAttempt: bool, coherentRdpText: bool)
    returns (outcome: MaterializeOutcome, afterReads: nat)
    modifies clip
    ensures old(clip.at) <= afterReads <= clip.at
    ensures clip.quiet ==> clip.at == old(clip.at) && outcome == Final(QuietOutcome(clip.Now(), extract))
    ensures afterReads == old(clip.at) && outcome.Final? ==>
      OutcomeFrom(clip.history(afterReads), outcome.materialized, extract)
  {
    var supported := HasSupportedFormat(clip);
    if !supported {
      afterReads := clip.ReadSequence();
      return Final(Miss), afterReads;
    }
    var failure := ReaderFails(clip);
    if failure.Some? {
      afterReads := clip.ReadSequence();
      return if failure.value.Unresponsive? then Final(OwnerTimedOut) else TryAgain, afterReads;
    }
    outcome := MaterializeFromReader(clip, extract, lastAttempt, coherentRdpText);
    afterReads := clip.ReadSequence();
  }

  method MaterializeFromReader(clip: Clipboard, extract: Extractors, lastAttempt: bool, coherentRdpText: bool)
    returns (outcome: MaterializeOutcome)
    modifies clip
    ensures old(clip.at) <= clip.at
    ensures clip.quiet ==> clip.at == old(clip.at) && outcome == Final(QuietOutcome(clip.Now(), extract))
    ensures clip.at == old(clip.at) && outcome.Final? ==> OutcomeFrom(clip.Now(), outcome.materialized, extract)
  {
    hide DecideCapture, RichCaptureFromPayloads, Derived;
    var hybrid := clip.Advertises(Bitmap);
    if hybrid { hybrid := clip.Advertises(Files); }
    if hybrid {
      var picture := clip.Read(Bitmap);
      return if picture.Some? then Final(Captured(ImageClip(picture.value))) else TryAgain;
    }
    var bodies := ReadTextFormats(clip, coherentRdpText);
    if bodies.None? {
      return TryAgain;
    }
    var (text, html, rtf) := bodies.value;
    var imageAdvertised := clip.Advertises(Bitmap);
    var image: Option<string> := None;
    if NeedsImageRead(text, imageAdvertised, lastAttempt) {
      image := clip.Read(Bitmap);
    }
    var facts := AttemptFacts(text, html, rtf, imageAdvertised, image.Some?, lastAttempt);
    var decision := DecideCapture(facts, extract);
    if clip.at == old(clip.at) {
      DecisionIsFaithful(clip.Now(), facts, image, extract);
    }
    if clip.quiet {
      QuietDecision(clip.Now(), facts, extract);
    }
    match decision
    case Image =>
      outcome := if image.Some? then Final(Captured(ImageClip(image.value))) else TryAgain;
    case Rich(rich) =>
      // The searchable text of a Rich decision is never empty, so there is
      // always a text clip to make of it.
      outcome := Final(Captured(TextClip(rich)));
    case DeterminateMiss =>
      outcome := Final(Miss);
    case Transient =>
      outcome := TryAgain;
  }

  /** Up to ten attempts, all of which must stay on the expected copy. */
  method MaterializeWithGuard(clip: Clipboard, extract: Extractors, expected: nat, coherentRdpText: bool)
    returns (result: Result<Option<Materialized>, nat>)
    requires expected <= clip.at
    modifies clip
    ensures old(clip.at) <= clip.at
    ensures clip.quiet ==> clip.at == old(clip.at)
    ensures clip.quiet && clip.at == expected ==> result == Ok(Some(QuietOutcome(clip.Now(), extract)))
    ensures result.Err? ==> expected < result.error <= clip.at
    ensures result.Ok? && result.value.Some? ==> OutcomeFrom(clip.history(expected), result.value.value, extract)
  {
    for index := 0 to MATERIALIZE_ATTEMPTS
      invariant old(clip.at) <= clip.at
      invariant clip.quiet ==> clip.at == old(clip.at)
      invariant clip.quiet && clip.at == expected ==> index == 0
    {
      var current := clip.ReadSequence();
      if current != expected {
        return Err(current);
      }
      var outcome, afterReads := MaterializeOnce(clip, extract, index + 1 == MATERIALIZE_ATTEMPTS, coherentRdpText);
      if outcome.Final? {
        if afterReads != expected {
          return Err(afterReads);
        }
        return Ok(Some(outcome.materialized));
      }
    }
    var current := clip.ReadSequence();
    result := if current != expected then Err(current) else Ok(None);
  }
}
