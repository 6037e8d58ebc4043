/** The capture listener itself: one object whose fields are the source's
    atomics, running against a clipboard that others keep changing. */
module Listener {
  import opened Wrappers
  import opened CaptureDecision
  import opened ClipboardWorld
  import opened Capture
  import opened ClipboardReads

  datatype Metadata = Metadata(owner: Option<Identity>, rdpOwner: bool, markers: Markers, hasFile: bool, hasImage: bool)

  predicate DescribedBy(g: Generation, m: Metadata) {
    && OwnedBy(g, m.owner)
    && (m.rdpOwner ==> m.owner.Some? && m.owner.value.explicit)
    && m.markers == g.PrivacyMarkers()
    && m.hasFile == g.files
    && m.hasImage == g.image.Some?
  }

  predicate PlainTextOnly(g: Generation) { g.text.Some? && g.image.None? && !g.files }

  class CaptureListener {
    const clip: Clipboard
    const extract: Extractors
    const hash: Payload -> int

    var lastHandled: nat
    var deferredSequence: nat
    var deferredAttempts: nat
    var lastCapture: Option<Fingerprint>
    /** Every event the snapshot queue ever accepted. */
    var queue: seq<Event>
    /** The sequences an error was recorded for. */
    var errors: set<nat>
    /** The sequences whose picture was logged as unreadable. */
    var unreadable: set<nat>
    var startup: Option<nat>
    var consumerGone: bool
    /** Every value `lastHandled` ever took. */
    ghost var handled: set<nat>
    /** Which queued events came from a poll, in the order of `queue`. */
    ghost var polled: seq<bool>
    /** How often in a row the tracked sequence has been told to wait. */
    ghost var streak: nat

    ghost predicate Valid()
      reads this, clip
    {
      && lastHandled <= clip.at
      && AllFaithful(clip.history, extract, queue)
      && InOrder(queue, polled, lastHandled)
      && AllAccounted(clip.history, queue, errors, unreadable, startup, handled, lastHandled, consumerGone)
      && (lastHandled != 0 ==> lastHandled in handled)
      && streak <= deferredAttempts
      && streak < MAX_DEFERRALS_PER_SEQUENCE
    }

    /** The books, apart from the deferral count, are as they were. */
    twostate predicate BooksKept()
      reads this
    {
      && lastHandled == old(lastHandled) && queue == old(queue) && polled == old(polled)
      && errors == old(errors) && unreadable == old(unreadable) && startup == old(startup)
      && consumerGone == old(consumerGone) && handled == old(handled) && lastCapture == old(lastCapture)
    }

    /** The copy was given up on, and an error says so. */
    twostate predicate WrittenOff(sequence: nat)
      reads this
    {
      && lastHandled == sequence && lastHandled in handled && errors == old(errors) + {sequence}
      && queue == old(queue) && unreadable == old(unreadable) && startup == old(startup)
      && consumerGone == old(consumerGone)
    }

    /** What one bound attempt on a copy may do to the books. */
    twostate predicate BoundTo(sequence: nat, trigger: Trigger, bound: Bound)
      reads this, clip
    {
      && Valid()
      && old(queue) <= queue && |queue| <= |old(queue)| + 1
      && consumerGone == bound.ConsumerGone? && startup == old(startup)
      && match bound {
           case Changed(from, to) => BooksKept() && from == sequence < to <= clip.at
           case ConsumerGone => lastHandled == sequence && queue == old(queue)
           case Done(Deferred) => BooksKept()
           case Done(Handled) =>
             || (lastHandled == sequence && (sequence != 0 ==> lastHandled in handled))
             || (trigger.RdpTextPoll? && BooksKept())
           case Done(_) => WrittenOff(sequence)
         }
    }

    /** Unless the consumer went away, exactly these events were added. */
    twostate predicate Settled(bound: Bound, events: seq<Event>)
      reads this
    {
      bound.ConsumerGone? || (bound == Done(Handled) && queue == old(queue) + events)
    }

    twostate predicate SettledOn(bound: Bound, g: Generation, sequence: nat)
      reads this
    {
      bound.ConsumerGone?
      || (bound == Done(Handled) && old(queue) <= queue && Captures(g, sequence, queue[|old(queue)|..], extract))
    }

    constructor (clip: Clipboard, extract: Extractors, hash: Payload -> int)
      ensures Valid() && this.clip == clip && queue == [] && startup.None?
    {
      this.clip, this.extract, this.hash := clip, extract, hash;
      lastHandled, deferredSequence, deferredAttempts, streak := 0, 0, 0, 0;
      lastCapture, startup, consumerGone := None, None, false;
      queue, polled, errors, unreadable, handled := [], [], {}, {}, {};
    }

    // --------------------------------------------------- marking a copy handled

    /** The one write to `lastHandled`; each caller says at once why. */
    method NoteAndQueue(e: Event, poll: bool) returns (accepted: bool)
      requires Valid() && !consumerGone
      requires lastHandled <= e.Sequence() <= clip.at && Faithful(clip.history, extract, e)
      requires poll || e.Sequence() == 0 || lastHandled < e.Sequence()
      modifies this
      ensures Valid() && lastHandled == e.Sequence() && accepted == !consumerGone
      ensures queue == old(queue) + (if accepted then [e] else [])
      ensures errors == old(errors) && unreadable == old(unreadable) && startup == old(startup)
      ensures lastHandled in handled && lastCapture == old(lastCapture)
      ensures deferredSequence == old(deferredSequence) && deferredAttempts == old(deferredAttempts)
    {
      hide AllFaithful, InOrder, AllAccounted, Faithful;
      OrderGrows(queue, polled, lastHandled, e, poll);
      OrderHolds(queue, polled, lastHandled, e.Sequence());
      FaithfulGrows(clip.history, extract, queue, e);
      QueuedIsAccounted(clip.history, queue, errors, unreadable, startup, handled, lastHandled, e);
      lastHandled := e.Sequence();
      handled := handled + {lastHandled};
      consumerGone := *;
      accepted := !consumerGone;
      if accepted {
        queue, polled := queue + [e], polled + [poll];
      }
    }

    method NoteAndExplain(sequence: nat, error: bool, logged: bool)
      requires Valid() && !consumerGone && lastHandled <= sequence <= clip.at
      requires error || (logged && clip.history(sequence).files && clip.history(sequence).image.Some?)
               || Ignorable(clip.history(sequence))
      modifies this
      ensures Valid() && !consumerGone && lastHandled == sequence && lastHandled in handled
      ensures queue == old(queue) && startup == old(startup) && lastCapture == old(lastCapture)
      ensures deferredSequence == old(deferredSequence) && deferredAttempts == old(deferredAttempts)
      ensures errors == old(errors) + (if error then {sequence} else {})
      ensures unreadable == old(unreadable) + (if logged then {sequence} else {})
    {
      hide AllFaithful, InOrder, AllAccounted, Ignorable;
      OrderHolds(queue, polled, lastHandled, sequence);
      ghost var (e, u) := (errors, unreadable);
      ghost var last := lastHandled;
      lastHandled := sequence;
      handled := handled + {lastHandled};
      if error {
        errors := errors + {sequence};
      }
      if logged {
        unreadable := unreadable + {sequence};
      }
      ExplainedIsAccounted(clip.history, queue, e, u, startup, old(handled), last, errors, unreadable, startup, sequence);
    }

    /** Whatever was on the clipboard before the listener first ran. */
    method NoteStartup(sequence: nat)
      requires Valid() && !consumerGone && lastHandled <= sequence <= clip.at && startup.None?
      modifies this
      ensures Valid() && !consumerGone && lastHandled == sequence && startup == Some(sequence)
      ensures queue == old(queue) && errors == old(errors) && unreadable == old(unreadable)
    {
      hide AllFaithful, InOrder, AllAccounted, Ignorable;
      OrderHolds(queue, polled, lastHandled, sequence);
      ExplainedIsAccounted(clip.history, queue, errors, unreadable, startup, handled, lastHandled,
                           errors, unreadable, Some(sequence), sequence);
      lastHandled, startup := sequence, Some(sequence);
      handled := handled + {lastHandled};
    }

    // ------------------------------------------------------------- deferring

    method ResetCaptureDeferrals(sequence: nat)
      requires Valid()
      modifies this
      ensures Valid() && BooksKept() && deferredSequence == sequence && deferredAttempts == 0
    {
      hide AllFaithful, InOrder, AllAccounted;
      deferredSequence, deferredAttempts, streak := sequence, 0, 0;
    }

    /** A copy waits at most twice in a row; the third time it is written off
        with an error. */
    method DeferOrExhaust(sequence: nat) returns (attempt: Attempt)
      requires Valid() && !consumerGone && lastHandled <= sequence <= clip.at
      modifies this
      ensures Valid() && !consumerGone && deferredSequence == sequence
      ensures attempt.Deferred? || attempt.RetryBudgetExhausted?
      ensures attempt.Deferred? ==> BooksKept()
      ensures attempt.Deferred? ==> streak == 1 + (if old(deferredSequence) == sequence then old(streak) else 0)
      ensures attempt.RetryBudgetExhausted? ==> WrittenOff(sequence)
    {
      hide AllFaithful, InOrder, AllAccounted, Ignorable;
      var (attempts, again) := DeferralDecision(deferredSequence, deferredAttempts, sequence, MAX_DEFERRALS_PER_SEQUENCE);
      streak := if !again then 0 else if deferredSequence == sequence then streak + 1 else 1;
      deferredSequence, deferredAttempts := sequence, attempts;
      if again {
        return Deferred;
      }
      NoteAndExplain(sequence, true, false);
      attempt := RetryBudgetExhausted;
    }

    // ------------------------------------------------------- one bound attempt

    method CaptureSensitiveMarkers(sequence: nat) returns (markers: Result<Markers, Attempt>)
      requires Valid() && !consumerGone && lastHandled <= sequence <= clip.at
      modifies this, clip
      ensures Valid() && !consumerGone && old(clip.at) <= clip.at
      ensures clip.quiet ==> clip.at == old(clip.at) && markers.Ok?
      ensures markers.Ok? ==> BooksKept()
      ensures markers.Ok? && clip.at == sequence ==> markers.value == clip.history(sequence).PrivacyMarkers()
      ensures markers.Err? ==> !markers.error.Handled?
      ensures markers.Err? && markers.error.Deferred? ==> BooksKept()
      ensures markers.Err? && !markers.error.Deferred? ==> WrittenOff(sequence)
    {
      hide AllFaithful, InOrder, AllAccounted, Ignorable;
      var read := RetrySensitiveMarkers(clip);
      if read.Ok? {
        return Ok(read.value);
      }
      if read.error.Unresponsive? {
        NoteAndExplain(sequence, true, false);
        return Err(OwnerUnresponsive);
      }
      var attempt := DeferOrExhaust(sequence);
      markers := Err(attempt);
    }

    method QueueCleared(sequence: nat, trigger: Trigger) returns (bound: Bound)
      requires Valid() && !consumerGone && lastHandled <= sequence <= clip.at
      requires trigger.RdpTextPoll? || sequence == 0 || lastHandled < sequence
      requires clip.at == sequence ==> LooksEmpty(clip.history(sequence))
      modifies this, clip
      ensures BoundTo(sequence, trigger, bound) && old(clip.at) <= clip.at
      ensures bound.Changed? || bound.ConsumerGone? || (bound == Done(Handled) && queue == old(queue) + [Cleared(sequence)])
      ensures clip.quiet ==> clip.at == old(clip.at) && (clip.at == sequence ==> !bound.Changed?)
    {
      hide AllFaithful, InOrder, AllAccounted, LooksEmpty;
      var current := clip.ReadSequence();
      if current != sequence {
        return Changed(sequence, current);
      }
      var accepted := NoteAndQueue(Cleared(sequence), trigger.RdpTextPoll?);
      bound := if accepted then Done(Handled) else Bound.ConsumerGone;
    }

    method IgnoreCopy(sequence: nat, trigger: Trigger) returns (bound: Bound)
      requires Valid() && !consumerGone && lastHandled <= sequence <= clip.at
      requires clip.at == sequence ==> Ignorable(clip.history(sequence))
      modifies this, clip
      ensures BoundTo(sequence, trigger, bound) && old(clip.at) <= clip.at && queue == old(queue)
      ensures bound.Changed? || bound == Done(Handled)
      ensures clip.quiet ==> clip.at == old(clip.at) && (clip.at == sequence ==> !bound.Changed?)
    {
      hide AllFaithful, InOrder, AllAccounted, Ignorable;
      var current := clip.ReadSequence();
      if current != sequence {
        return Changed(sequence, current);
      }
      NoteAndExplain(sequence, false, false);
      bound := Done(Handled);
    }

    /** Queueing a capture remembers it, clears the tries spent on its number,
        and for a sample means it is not the one queued last. */
    ghost predicate Sampled(was: Option<Fingerprint>, trigger: Trigger, fingerprint: Fingerprint)
      reads this
    {
      && lastCapture == Some(fingerprint)
      && deferredSequence == fingerprint.sequence && deferredAttempts == 0
      && (trigger.RdpTextPoll? ==> was != Some(fingerprint))
    }

    /** A captured payload: revalidated for a remote owner, sampled for a poll,
        and otherwise queued even if a newer copy has landed since. */
    method FinishCapture(sequence: nat, trigger: Trigger, owner: Option<Identity>, rdpOwner: bool, markers: Markers,
                         payload: Payload) returns (bound: Bound)
      requires Valid() && !consumerGone && lastHandled <= sequence <= clip.at
      requires trigger.RdpTextPoll? || sequence == 0 || lastHandled < sequence
      requires Faithful(clip.history, extract, Content(Snapshot(sequence, owner, markers, payload)))
      requires rdpOwner ==> owner.Some? && owner.value.explicit
      modifies this, clip
      ensures BoundTo(sequence, trigger, bound) && old(clip.at) <= clip.at && !bound.Changed?
      ensures clip.quiet ==> clip.at == old(clip.at)
      ensures clip.quiet && clip.at == sequence && trigger.Notification? ==>
        Settled(bound, [Content(Snapshot(sequence, owner, markers, payload))])
      ensures queue != old(queue) ==> Sampled(old(lastCapture), trigger, Fingerprint(sequence, owner, hash(payload), markers))
      ensures queue != old(queue) && trigger.RdpTextPoll? ==> payload.TextClip? && rdpOwner && owner == Some(trigger.owner)
    {
      hide AllFaithful, InOrder, AllAccounted, PayloadFrom;
      var fingerprint := Fingerprint(sequence, owner, hash(payload), markers);
      if rdpOwner {
        var observed := CaptureSensitiveMarkers(sequence);
        if observed.Err? {
          return Done(observed.error);
        }
        var who := clip.OwnerIdentity();
        if who != owner || observed.value != markers {
          return Done(Deferred);
        }
      }
      ResetCaptureDeferrals(sequence);
      if trigger.RdpTextPoll? {
        if !payload.TextClip? || !rdpOwner || owner != Some(trigger.owner) || lastCapture == Some(fingerprint) {
          return Done(Handled);
        }
      }
      var accepted := NoteAndQueue(Content(Snapshot(sequence, owner, markers, payload)), trigger.RdpTextPoll?);
      if !accepted {
        return Bound.ConsumerGone;
      }
      RememberCapture(fingerprint);
      bound := Done(Handled);
    }

    method RememberCapture(fingerprint: Fingerprint)
      requires Valid()
      modifies this`lastCapture
      ensures Valid() && lastCapture == Some(fingerprint)
    {
      hide AllFaithful, InOrder, AllAccounted;
      lastCapture := Some(fingerprint);
    }

    /** Nothing was captured: a hung owner, a clear, nothing to store, an
        unreadable picture, or contention worth another try. */
    method FinishMiss(sequence: nat, trigger: Trigger, materialized: Option<Materialized>, hasFile: bool, hasImage: bool)
      returns (bound: Bound)
      requires Valid() && !consumerGone && lastHandled <= sequence <= clip.at
      requires trigger.RdpTextPoll? || sequence == 0 || lastHandled < sequence
      requires materialized.Some? ==> !materialized.value.Captured?
      requires materialized == Some(Miss) ==> NoPayload(clip.history(sequence))
      requires hasFile == clip.history(sequence).files && hasImage == clip.history(sequence).image.Some?
      modifies this, clip
      ensures BoundTo(sequence, trigger, bound) && old(clip.at) <= clip.at
      ensures clip.quiet ==> clip.at == old(clip.at)
      ensures clip.quiet && clip.at == sequence && materialized == Some(Miss) ==>
        Settled(bound, if LooksEmpty(clip.history(sequence)) then [Cleared(sequence)] else [])
    {
      hide AllFaithful, InOrder, AllAccounted, LooksEmpty;
      var current := clip.ReadSequence();
      if current != sequence {
        return Changed(sequence, current);
      }
      if materialized == Some(OwnerTimedOut) {
        NoteAndExplain(sequence, true, false);
        return Done(OwnerUnresponsive);
      }
      if materialized.None? && hasFile && hasImage {
        NoteAndExplain(sequence, false, true);
        return Done(Handled);
      }
      var cleared := ClipboardIsCleared(clip);
      if cleared {
        bound := QueueCleared(sequence, trigger);
        return;
      }
      if materialized.None? {
        var supported := HasSupportedFormat(clip);
        if supported {
          current := clip.ReadSequence();
          if current != sequence {
            return Changed(sequence, current);
          }
          var attempt := DeferOrExhaust(sequence);
          return Done(attempt);
        }
      }
      bound := IgnoreCopy(sequence, trigger);
    }

    /** A poll goes on only while the same remote owner still offers plain text. */
    method PollStillApplies(owner: Identity) returns (applies: bool)
      modifies clip
      ensures old(clip.at) <= clip.at
      ensures clip.quiet ==> clip.at == old(clip.at)
      ensures applies && clip.at == old(clip.at) ==> OwnedBy(clip.Now(), Some(owner)) && PlainTextOnly(clip.Now())
      ensures clip.quiet && clip.Now().owner == Some(owner.pid) && owner.explicit ==> applies == PlainTextOnly(clip.Now())
    {
      var who := clip.OwnerIdentity();
      var text := clip.Advertises(UnicodeText);
      var image := clip.Advertises(Bitmap);
      var files := clip.Advertises(Files);
      applies := who == Some(owner) && text && !image && !files;
    }

    /** The payload of a copy whose metadata is already bound. */
    method BindPayload(sequence: nat, trigger: Trigger, m: Metadata) returns (bound: Bound)
      requires Valid() && !consumerGone && lastHandled <= sequence <= clip.at
      requires trigger.RdpTextPoll? || sequence == 0 || lastHandled < sequence
      requires DescribedBy(clip.history(sequence), m)
      modifies this, clip
      ensures BoundTo(sequence, trigger, bound) && old(clip.at) <= clip.at
      ensures clip.quiet ==> clip.at == old(clip.at)
      ensures clip.quiet && clip.at == sequence && trigger.Notification? ==>
        Settled(bound, QuietEvents(clip.Now(), sequence, m.owner, m.markers, extract))
    {
      hide AllFaithful, InOrder, AllAccounted, PayloadFrom, QuietOutcome, LooksEmpty, OwnedBy;
      var materialized := MaterializeWithGuard(clip, extract, sequence, m.rdpOwner);
      if materialized.Err? {
        return Changed(sequence, materialized.error);
      }
      if materialized.value.Some? && materialized.value.value.Captured? {
        bound := FinishCapture(sequence, trigger, m.owner, m.rdpOwner, m.markers, materialized.value.value.payload);
      } else {
        bound := FinishMiss(sequence, trigger, materialized.value, m.hasFile, m.hasImage);
      }
    }

    /** Everything about a copy but its payload, kept only if the sequence did
        not move meanwhile. */
    method ReadMetadata(sequence: nat, trigger: Trigger) returns (metadata: Result<Metadata, Bound>)
      requires Valid() && !consumerGone && lastHandled <= sequence <= clip.at
      modifies this, clip
      ensures old(clip.at) <= clip.at && Valid()
      ensures clip.quiet ==> clip.at == old(clip.at) && (clip.at == sequence ==> metadata.Ok?)
      ensures metadata.Ok? ==> BooksKept() && DescribedBy(clip.history(sequence), metadata.value)
      ensures metadata.Ok? && clip.quiet && clip.at == sequence && clip.Now().owner.Some? ==>
        metadata.value.owner == Some(Identity(clip.Now().owner.value, true))
      ensures metadata.Err? ==> BoundTo(sequence, trigger, metadata.error)
    {
      hide AllFaithful, InOrder, AllAccounted;
      var hasFile := clip.Advertises(Files);
      var hasImage := clip.Advertises(Bitmap);
      var owner := clip.OwnerIdentity();
      var isRemoteClient: bool := *;
      var rdpOwner := owner.Some? && owner.value.explicit && isRemoteClient;
      var markers := CaptureSensitiveMarkers(sequence);
      if markers.Err? {
        return Err(Done(markers.error));
      }
      var afterMetadata := clip.ReadSequence();
      if afterMetadata != sequence {
        return Err(Changed(sequence, afterMetadata));
      }
      metadata := Ok(Metadata(owner, rdpOwner, markers.value, hasFile, hasImage));
    }

    /** Metadata, then payload, of the copy `sequence` names. */
    method BindCopy(sequence: nat, trigger: Trigger) returns (bound: Bound)
      requires Valid() && !consumerGone && lastHandled <= sequence <= clip.at
      requires trigger.RdpTextPoll? || sequence == 0 || lastHandled < sequence
      modifies this, clip
      ensures BoundTo(sequence, trigger, bound) && old(clip.at) <= clip.at
      ensures clip.quiet ==> clip.at == old(clip.at)
      ensures clip.quiet && clip.at == sequence && trigger.Notification? && !clip.Now().Empty() ==>
        SettledOn(bound, clip.Now(), sequence)
    {
      hide AllFaithful, InOrder, AllAccounted, QuietOutcome, LooksEmpty, Captures;
      var metadata := ReadMetadata(sequence, trigger);
      if metadata.Err? {
        return metadata.error;
      }
      var m := metadata.value;
      QuietEventsAreThePolicy(clip.history(sequence), sequence, m.owner, m.markers, extract);
      if m.hasFile && !m.hasImage {
        NoteAndExplain(sequence, false, false);
        assert queue[|old(queue)|..] == [];
        return Done(Handled);
      }
      var supported := HasSupportedFormat(clip);
      if !supported {
        bound := IgnoreCopy(sequence, trigger);
        assert queue[|old(queue)|..] == [];
        return;
      }
      bound := BindPayload(sequence, trigger, m);

    }

    /** One try at whatever is on the clipboard now: `bind` is the copy it was. */
    method CaptureOneBoundSequence(event: nat, trigger: Trigger) returns (bound: Bound, ghost bind: nat)
      requires Valid() && !consumerGone
      modifies this, clip
      ensures old(clip.at) <= bind <= clip.at && BoundTo(bind, trigger, bound)
      ensures clip.quiet ==> clip.at == old(clip.at)
      ensures clip.quiet && trigger.Notification? && (clip.at == 0 || clip.at != old(lastHandled)) ==>
        SettledOn(bound, clip.Now(), clip.at)
    {
      hide AllFaithful, InOrder, AllAccounted, Ignorable, QuietOutcome;
      var sequence := event;
      var live := clip.ReadSequence();
      if live != sequence {
        sequence := live;
      }
      bind := sequence;
      if trigger.Notification? && sequence != 0 && sequence == lastHandled {
        return Done(Handled), bind;
      }
      if trigger.RdpTextPoll? {
        var applies := PollStillApplies(trigger.owner);
        if !applies {
          return Done(Handled), bind;
        }
      }
      var zero := clip.FormatCountIsZero();
      if zero {
        var supported := HasSupportedFormat(clip);
        if !supported {
          bound := QueueCleared(sequence, trigger);
          return;
        }
      }
      bound := BindCopy(sequence, trigger);
    }

    /** Up to three tries, each bound to the copy that outran the one before.
        `None` when the consumer is gone; `outrun` when every try was overtaken,
        which leaves the newest copy to its own notification. */
    method CaptureClipboardUpdate(event: nat, trigger: Trigger) returns (attempt: Option<Attempt>, ghost outrun: bool)
      requires Valid() && !consumerGone
      modifies this, clip
      ensures Valid() && old(clip.at) <= clip.at && old(queue) <= queue && consumerGone == attempt.None?
      ensures old(lastHandled) <= lastHandled && startup == old(startup)
      ensures outrun ==> attempt == Some(Handled) && BooksKept() && old(clip.at) + MAX_SEQUENCE_BIND_ATTEMPTS <= clip.at
      ensures attempt == Some(Deferred) ==> BooksKept()
      ensures attempt.Some? && !outrun && !attempt.value.Deferred? && trigger.Notification? ==> old(clip.at) <= lastHandled
      ensures attempt.Some? && (attempt.value.OwnerUnresponsive? || attempt.value.RetryBudgetExhausted?) ==>
        old(clip.at) <= lastHandled && lastHandled in errors
      ensures clip.quiet && trigger.Notification? && (clip.at == 0 || clip.at != old(lastHandled)) && attempt.Some? ==>
        attempt == Some(Handled) && Captures(clip.Now(), clip.at, queue[|old(queue)|..], extract)
    {
      hide AllFaithful, InOrder, AllAccounted, Captures;
      outrun := false;
      var sequence := event;
      for bindAttempt := 0 to MAX_SEQUENCE_BIND_ATTEMPTS
        invariant Valid() && !consumerGone && BooksKept() && !outrun
        invariant old(clip.at) + bindAttempt <= clip.at
        invariant clip.quiet ==> clip.at == old(clip.at)
        invariant clip.quiet && trigger.Notification? && (clip.at == 0 || clip.at != lastHandled) ==> bindAttempt == 0
      {
        label before:
        var bound, bind := CaptureOneBoundSequence(sequence, trigger);
        match bound
        case Done(done) =>
          return Some(done), false;
        case ConsumerGone =>
          return None, false;
        case Changed(from, to) =>
          sequence := to;
      }
      attempt, outrun := Some(Handled), true;
    }

    // --------------------------------------------- what the books say at any time

    /** Owner, privacy markers and payload of every queued snapshot are those of
        the one copy it names, and every clear names a copy seen empty. */
    lemma {:induction false} EveryEventIsFaithful(i: nat)
      requires Valid() && i < |queue|
      ensures Faithful(clip.history, extract, queue[i]) && queue[i].Sequence() <= clip.at
    {
      hide Faithful;
      assert Faithful(clip.history, extract, queue[i]);
    }

    /** Unless the consumer left during that very hand-over, every copy marked
        handled was queued or cleared, ended in an error, had its unreadable
        picture logged, held nothing to keep, or was there at startup. */
    lemma {:induction false} NoCopyIsWrittenOffSilently(sequence: nat)
      requires Valid() && sequence in handled && (!consumerGone || sequence != lastHandled)
      ensures Accounted(clip.history, queue, errors, unreadable, startup, sequence)
    {
      hide Accounted;
      assert AllAccounted(clip.history, queue, errors, unreadable, startup, handled, lastHandled, consumerGone);
    }

    /** Notifications never queue one numbered copy twice. */
    lemma {:induction false} NoCopyIsQueuedTwice(i: nat, j: nat)
      requires Valid() && i < j < |queue| && !polled[i] && !polled[j] && queue[i].Sequence() != 0
      ensures queue[i].Sequence() < queue[j].Sequence()
    {
      hide Faithful, Accounted;
      assert InOrder(queue, polled, lastHandled);
    }
  }

  /** Which remote owner's text is being sampled between notifications. */
  class RdpPolling {
    var owner: Option<Identity>
    var timedOutSequence: Option<nat>

    /** Only an explicit owner is sampled, and never while a copy that timed
        out is still the newest one announced. */
    ghost predicate Valid()
      reads this
    {
      && (owner.Some? ==> owner.value.explicit)
      && (timedOutSequence.Some? ==> owner.None?)
    }

    constructor ()
      ensures Valid() && owner.None? && timedOutSequence.None?
    {
      owner, timedOutSequence := None, None;
    }

    method Observe(notification: bool, sequence: nat, source: Option<Identity>, isRemoteClient: bool)
      requires Valid()
      modifies this
      ensures Valid()
      ensures timedOutSequence == (if notification && old(timedOutSequence) != Some(sequence) then None else old(timedOutSequence))
      ensures owner.Some? ==> owner == source
      ensures (notification && old(timedOutSequence) != Some(sequence) && isRemoteClient
               && source.Some? && source.value.explicit) ==> owner == source
      ensures !notification && old(owner) == source ==> owner == source
    {
      if notification && timedOutSequence != Some(sequence) {
        timedOutSequence := None;
        owner := if source.Some? && source.value.explicit && isRemoteClient then source else None;
      } else if source != owner {
        owner := None;
      }
    }

    method RecordAttempt(sequence: nat, attempt: Attempt)
      requires Valid()
      modifies this
      ensures Valid()
      ensures attempt.OwnerUnresponsive? || attempt.RetryBudgetExhausted? ==>
        owner.None? && timedOutSequence == Some(sequence)
      ensures attempt.Handled? || attempt.Deferred? ==> owner == old(owner) && timedOutSequence == old(timedOutSequence)
    {
      if attempt.OwnerUnresponsive? || attempt.RetryBudgetExhausted? {
        owner, timedOutSequence := None, Some(sequence);
      }
    }

    method StopSampling()
      requires Valid()
      modifies this
      ensures Valid() && owner.None? && timedOutSequence == old(timedOutSequence)
    {
      owner := None;
    }
  }

  datatype SessionExit = SnapshotConsumerGone | RestartRequested | MonitorFailed

  /** One message, or one sample when no message was waiting. */
  method HandleMessage(listener: CaptureListener, polling: RdpPolling, notification: bool) returns (alive: bool)
    requires listener.Valid() && !listener.consumerGone && polling.Valid()
    modifies listener, listener.clip, polling
    ensures listener.Valid() && polling.Valid() && old(listener.clip.at) <= listener.clip.at
    ensures old(listener.queue) <= listener.queue && listener.startup == old(listener.startup)
    ensures old(listener.lastHandled) <= listener.lastHandled && listener.consumerGone == !alive
  {
    hide AllFaithful, InOrder, AllAccounted, Captures;
    var sequence := listener.clip.ReadSequence();
    var owner := listener.clip.OwnerIdentity();
    if notification {
      var isRemoteClient: bool := *;
      polling.Observe(true, sequence, owner, isRemoteClient);
    } else if owner != polling.owner {
      polling.StopSampling();
    }
    if !notification && polling.owner.None? {
      return true;
    }
    var trigger := if notification then Notification else RdpTextPoll(polling.owner.value);
    var attempt, outrun := listener.CaptureClipboardUpdate(sequence, trigger);
    if attempt.None? {
      return false;
    }
    polling.RecordAttempt(listener.lastHandled, attempt.value);
    alive := true;
  }

  /** The message loop of one monitor, for any number of messages and polls. */
  method RunListenerSession(listener: CaptureListener, polling: RdpPolling, messages: nat) returns (exit: SessionExit)
    requires listener.Valid() && !listener.consumerGone && polling.Valid()
    modifies listener, listener.clip, polling
    ensures listener.Valid() && polling.Valid() && old(listener.clip.at) <= listener.clip.at
    ensures old(listener.queue) <= listener.queue && listener.startup == old(listener.startup)
    ensures old(listener.lastHandled) <= listener.lastHandled && listener.consumerGone == exit.SnapshotConsumerGone?
  {
    hide *;
    for message := 0 to messages
      invariant listener.Valid() && !listener.consumerGone && polling.Valid()
      invariant old(listener.clip.at) <= listener.clip.at && old(listener.lastHandled) <= listener.lastHandled
      invariant old(listener.queue) <= listener.queue && listener.startup == old(listener.startup)
    {
      var shutdown: bool, failed: bool := *, *;
      if shutdown { return RestartRequested; }
      if failed { return MonitorFailed; }
      // A blocking receive ends with a notification; sampling need not.
      var received: bool := *;
      var alive := HandleMessage(listener, polling, polling.owner.None? || received);
      if !alive { return SnapshotConsumerGone; }
    }
    exit := RestartRequested;
  }

  /** A later session's first act: whatever is on the clipboard and not yet
      handled is captured, not stamped handled. Afterwards it is handled and
      accounted for, waiting for another try, or overtaken by newer copies. */
  method CatchUp(listener: CaptureListener, polling: RdpPolling, current: nat)
    returns (attempt: Option<Attempt>, ghost outrun: bool)
    requires listener.Valid() && !listener.consumerGone && polling.Valid()
    requires listener.lastHandled <= current <= listener.clip.at
    modifies listener, listener.clip, polling
    ensures listener.Valid() && polling.Valid() && old(listener.clip.at) <= listener.clip.at
    ensures old(listener.queue) <= listener.queue && listener.startup == old(listener.startup)
    ensures listener.consumerGone == attempt.None? && old(listener.lastHandled) <= listener.lastHandled
    ensures attempt.Some? && !attempt.value.Deferred? && !outrun ==> current <= listener.lastHandled
    ensures outrun ==> current < listener.clip.at
  {
    hide AllFaithful, InOrder, AllAccounted, Captures;
    outrun := false;
    if current == listener.lastHandled {
      return Some(Handled), false;
    }
    var owner := listener.clip.OwnerIdentity();
    var isRemoteClient: bool := *;
    polling.Observe(true, current, owner, isRemoteClient);
    attempt, outrun := listener.CaptureClipboardUpdate(current, Notification);
    if attempt.Some? {
      polling.RecordAttempt(listener.lastHandled, attempt.value);
    }
  }

  /** The supervisor, for any number of sessions, messages and failures: the
      books are right after every run, whatever the clipboard did meanwhile. */
  method RunNativeListener(listener: CaptureListener, sessions: nat, messages: nat)
    requires listener.Valid() && !listener.consumerGone && listener.startup.None? && listener.handled == {}
    requires listener.lastHandled == 0
    modifies listener, listener.clip
    ensures listener.Valid()
    ensures listener.startup.Some? ==> old(listener.clip.at) <= listener.startup.value <= listener.lastHandled
  {
    hide AllFaithful, InOrder, AllAccounted, Captures;
    var clip := listener.clip;
    var polling := new RdpPolling();
    var first := true;
    for session := 0 to sessions
      invariant listener.Valid() && !listener.consumerGone && polling.Valid() && fresh(polling)
      invariant old(clip.at) <= clip.at && first == listener.startup.None?
      invariant listener.startup.Some? ==> old(clip.at) <= listener.startup.value <= listener.lastHandled
    {
      var created: bool := *;
      if created {
        var current := clip.ReadSequence();
        if first {
          listener.NoteStartup(current);
          first := false;
        } else {
          var attempt, outrun := CatchUp(listener, polling, current);
          if attempt.None? { return; }
        }
        var exit := RunListenerSession(listener, polling, messages);
        if exit.SnapshotConsumerGone? { return; }
      }
    }
  }
}
