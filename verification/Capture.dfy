/** The clipboard listener: it binds what it reads to one sequence number,
    retries, rebinds and defers, and accounts for every copy it gives up on. */
module Capture {
  import opened Wrappers
  import opened CaptureDecision
  import opened ClipboardWorld

  datatype Payload = TextClip(rich: RichCapture) | ImageClip(png: string)

  datatype Snapshot = Snapshot(sequence: nat, owner: Option<Identity>, markers: Markers, payload: Payload)

  datatype Event = Content(snapshot: Snapshot) | Cleared(sequence: nat) {
    function Sequence(): nat { if Content? then snapshot.sequence else sequence }
  }

  datatype Attempt = Handled | Deferred | OwnerUnresponsive | RetryBudgetExhausted

  datatype Trigger = Notification | RdpTextPoll(owner: Identity)

  datatype Bound = Done(attempt: Attempt) | Changed(from: nat, to: nat) | ConsumerGone

  datatype Materialized = Captured(payload: Payload) | Miss | OwnerTimedOut

  datatype MaterializeOutcome = Final(materialized: Materialized) | TryAgain

  datatype Fingerprint = Fingerprint(sequence: nat, owner: Option<Identity>, hash: int, markers: Markers)

  const MAX_DEFERRALS_PER_SEQUENCE: nat := 3
  const MAX_SEQUENCE_BIND_ATTEMPTS: nat := 3
  const MATERIALIZE_ATTEMPTS: nat := 10
  const U32_MAX: nat := 0xFFFF_FFFF

  // ------------------------------------------------------------ specification

  predicate NonEmpty(body: Option<string>) { body.Some? && |body.value| > 0 }

  /** Nothing readable that could become a clip. */
  predicate NoPayload(g: Generation) {
    !NonEmpty(g.text) && !NonEmpty(g.html) && !NonEmpty(g.rtf) && g.image.None?
  }

  /** The owner a snapshot names, when it names one, owned this very copy. */
  predicate OwnedBy(g: Generation, owner: Option<Identity>) {
    owner.Some? ==> g.owner == if owner.value.explicit then Some(owner.value.pid) else None
  }

  predicate TextFrom(g: Generation, rich: RichCapture, extract: Extractors) {
    && (rich.html.Some? ==> rich.html == g.html)
    && (rich.rtf.Some? ==> rich.rtf == g.rtf)
    && (Some(rich.searchableText) == g.text || rich.searchableText == Derived(rich.html, rich.rtf, extract))
    && |rich.searchableText| > 0
  }

  predicate PayloadFrom(g: Generation, payload: Payload, extract: Extractors) {
    match payload
    case TextClip(rich) => TextFrom(g, rich, extract)
    case ImageClip(png) => g.image == Some(png)
  }

  predicate LooksEmpty(g: Generation) { g.Empty() || (g.OnlyPlaceholders() && g.text == Some("")) }

  /** A queued event tells the truth about the one generation it names. */
  predicate Faithful(history: nat -> Generation, extract: Extractors, e: Event) {
    var g := history(e.Sequence());
    match e
    case Content(snapshot) =>
      && OwnedBy(g, snapshot.owner)
      && snapshot.markers == g.PrivacyMarkers()
      && PayloadFrom(g, snapshot.payload, extract)
    case Cleared(_) => LooksEmpty(g)
  }

  /** What the listener may drop without telling anyone. */
  predicate Ignorable(g: Generation) { (g.files && g.image.None?) || NoPayload(g) }

  /** Every account the listener can give of a sequence it marks handled. */
  ghost predicate Accounted(history: nat -> Generation, queue: seq<Event>, errors: set<nat>, unreadable: set<nat>,
                            startup: Option<nat>, sequence: nat)
  {
    || (exists i | 0 <= i < |queue| :: queue[i].Sequence() == sequence)
    || sequence in errors
    || (sequence in unreadable && history(sequence).files && history(sequence).image.Some?)
    || Ignorable(history(sequence))
    || startup == Some(sequence)
  }

  /** Events leave in sequence order, and notifications queue no number twice. */
  ghost predicate InOrder(queue: seq<Event>, polled: seq<bool>, last: nat) {
    && |queue| == |polled|
    && (forall i | 0 <= i < |queue| :: queue[i].Sequence() <= last)
    && (forall i, j | 0 <= i < j < |queue| :: queue[i].Sequence() <= queue[j].Sequence())
    && (forall i, j | 0 <= i < j < |queue| && !polled[i] && !polled[j] && queue[j].Sequence() != 0 ::
          queue[i].Sequence() < queue[j].Sequence())
  }

  lemma {:induction false} OrderGrows(queue: seq<Event>, polled: seq<bool>, last: nat, e: Event, poll: bool)
    requires InOrder(queue, polled, last) && last <= e.Sequence()
    requires poll || e.Sequence() == 0 || last < e.Sequence()
    ensures InOrder(queue + [e], polled + [poll], e.Sequence())
  {
    var (q, p) := (queue + [e], polled + [poll]);
    forall i, j | 0 <= i < j < |q| && !p[i] && !p[j] && q[j].Sequence() != 0
      ensures q[i].Sequence() < q[j].Sequence()
    {
      if j == |queue| {
        assert queue[i].Sequence() <= last;
      } else {
        assert queue[i].Sequence() < queue[j].Sequence() by { assert !polled[i] && !polled[j]; }
      }
    }
  }

  lemma {:induction false} OrderHolds(queue: seq<Event>, polled: seq<bool>, last: nat, later: nat)
    requires InOrder(queue, polled, last) && last <= later
    ensures InOrder(queue, polled, later)
  {
  }

  ghost predicate AllFaithful(history: nat -> Generation, extract: Extractors, queue: seq<Event>) {
    forall i | 0 <= i < |queue| :: Faithful(history, extract, queue[i])
  }

  /** Every number ever marked handled is accounted for, except the one the
      listener was handing over when its consumer went away. */
  ghost predicate AllAccounted(history: nat -> Generation, queue: seq<Event>, errors: set<nat>, unreadable: set<nat>,
                               startup: Option<nat>, handled: set<nat>, last: nat, gone: bool)
  {
    && (forall s | s in handled :: s <= last)
    && (forall s | s in handled && !(gone && s == last) :: Accounted(history, queue, errors, unreadable, startup, s))
  }

  lemma {:induction false} FaithfulGrows(history: nat -> Generation, extract: Extractors, queue: seq<Event>, e: Event)
    requires AllFaithful(history, extract, queue) && Faithful(history, extract, e)
    ensures AllFaithful(history, extract, queue + [e])
  {
    hide Faithful;
  }

  lemma {:induction false} QueuedIsAccounted(history: nat -> Generation, queue: seq<Event>, errors: set<nat>,
                                             unreadable: set<nat>, startup: Option<nat>, handled: set<nat>, last: nat,
                                             e: Event)
    requires AllAccounted(history, queue, errors, unreadable, startup, handled, last, false) && last <= e.Sequence()
    ensures AllAccounted(history, queue + [e], errors, unreadable, startup, handled + {e.Sequence()}, e.Sequence(), false)
    ensures AllAccounted(history, queue, errors, unreadable, startup, handled + {e.Sequence()}, e.Sequence(), true)
  {
    hide Ignorable;
    forall s | s in handled + {e.Sequence()}
      ensures Accounted(history, queue + [e], errors, unreadable, startup, s)
    {
      if s == e.Sequence() {
        assert (queue + [e])[|queue|].Sequence() == s;
      } else if i :| 0 <= i < |queue| && queue[i].Sequence() == s {
        assert (queue + [e])[i].Sequence() == s;
      }
    }
  }

  /** Any other account: an error, a logged picture, startup, or nothing to keep. */
  lemma {:induction false} ExplainedIsAccounted(history: nat -> Generation, queue: seq<Event>, errors: set<nat>,
                                                unreadable: set<nat>, startup: Option<nat>, handled: set<nat>,
                                                last: nat, errors': set<nat>, unreadable': set<nat>,
                                                startup': Option<nat>, sequence: nat)
    requires AllAccounted(history, queue, errors, unreadable, startup, handled, last, false) && last <= sequence
    requires errors <= errors' && unreadable <= unreadable' && (startup.Some? ==> startup' == startup)
    requires Accounted(history, queue, errors', unreadable', startup', sequence)
    ensures AllAccounted(history, queue, errors', unreadable', startup', handled + {sequence}, sequence, false)
  {
    hide Ignorable;
  }

  /** The budget of tries a copy gets: the count to remember, and whether it
      earns another. */
  function DeferralDecision(tracked: nat, attempts: nat, sequence: nat, max: nat): (nat, bool) {
    var count := if tracked != sequence then 1 else if attempts >= U32_MAX then U32_MAX else attempts + 1;
    (count, count < max)
  }

  /** The count remembered after `calls` failures of one copy in a row. */
  function CountAfter(tracked: nat, attempts: nat, sequence: nat, calls: nat): nat {
    if calls == 0 then attempts
    else
      var before := CountAfter(tracked, attempts, sequence, calls - 1);
      DeferralDecision(if calls == 1 then tracked else sequence, before, sequence, MAX_DEFERRALS_PER_SEQUENCE).0
  }

  predicate EarnsAnother(tracked: nat, attempts: nat, sequence: nat, calls: nat)
    requires calls > 0
  {
    var before := CountAfter(tracked, attempts, sequence, calls - 1);
    DeferralDecision(if calls == 1 then tracked else sequence, before, sequence, MAX_DEFERRALS_PER_SEQUENCE).1
  }

  /** A copy's first two failures in a row earn another try and no later one
      does, however long its owner keeps failing and whatever came before. */
  lemma {:induction false} DeferredAtMostTwice(tracked: nat, attempts: nat, sequence: nat, calls: nat)
    requires tracked != sequence && attempts <= U32_MAX && calls > 0
    ensures CountAfter(tracked, attempts, sequence, calls) == if calls <= U32_MAX then calls else U32_MAX
    ensures EarnsAnother(tracked, attempts, sequence, calls) <==> calls <= 2
  {
    if calls > 1 {
      DeferredAtMostTwice(tracked, attempts, sequence, calls - 1);
    }
  }

  // ---------------------------------------------------------------- quiet runs

  /** What an undisturbed, answering clipboard turns into. */
  function QuietOutcome(g: Generation, extract: Extractors): (outcome: Materialized)
    ensures !outcome.OwnerTimedOut?
  {
    if g.image.Some? && (g.files || !NonEmpty(g.text)) then Captured(ImageClip(g.image.value))
    else if NoPayload(g) then Miss
    else
      var (h, r) := (if NonEmpty(g.html) then g.html else None, if NonEmpty(g.rtf) then g.rtf else None);
      Captured(TextClip(RichCapture(if NonEmpty(g.text) then g.text.value else Derived(h, r, extract), h, r)))
  }

  /** The policy for a copy nobody interferes with: what must be queued. */
  ghost predicate Captures(g: Generation, sequence: nat, queued: seq<Event>, extract: Extractors) {
    if LooksEmpty(g) then queued == [Cleared(sequence)]
    else if Ignorable(g) then queued == []
    else
      && |queued| == 1 && queued[0].Content? && queued[0].snapshot.sequence == sequence
      && (g.owner.Some? ==> queued[0].snapshot.owner == Some(Identity(g.owner.value, true)))
      && queued[0].snapshot.markers == g.PrivacyMarkers()
      && Captured(queued[0].snapshot.payload) == QuietOutcome(g, extract)
  }

  /** The events of a quiet capture, once its owner has been looked up. */
  function QuietEvents(g: Generation, sequence: nat, owner: Option<Identity>, markers: Markers, extract: Extractors)
    : seq<Event>
  {
    match QuietOutcome(g, extract)
    case Captured(payload) => [Content(Snapshot(sequence, owner, markers, payload))]
    case _ => if LooksEmpty(g) then [Cleared(sequence)] else []
  }

  lemma {:induction false} QuietEventsAreThePolicy(g: Generation, sequence: nat, owner: Option<Identity>,
                                                   markers: Markers, extract: Extractors)
    ensures (g.owner.Some? ==> owner == Some(Identity(g.owner.value, true))) && markers == g.PrivacyMarkers()
            && !(g.files && g.image.None?) ==>
              Captures(g, sequence, QuietEvents(g, sequence, owner, markers, extract), extract)
    ensures g.files && g.image.None? ==> Captures(g, sequence, [], extract)
    ensures !g.Supported() && !g.Empty() ==> Captures(g, sequence, [], extract)
  {
    hide Derived;
  }
}
