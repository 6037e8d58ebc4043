/** Retention: one sweep over the history, for one clock value and one fixed
    order among clips of the same age. */
module Retention {
  import opened Wrappers

  datatype Clip = Clip(image: bool, pinned: bool, deleted: bool, expired: bool, ocrCompleted: bool,
                       ocrText: Option<string>, createdAt: int, lastAccessed: int)
  {
    predicate Counted() { !deleted && !pinned }
  }

  /** The keep-for window in days, the item cap, and the time of the sweep. */
  datatype Policy = Policy(autoDeleteDays: int, maxItems: int, now: int)

  const SECONDS_PER_DAY: int := 86_400

  // ------------------------------------------------------------ specification

  /** Newest first; ties broken by identifier. */
  predicate Before(clips: map<nat, Clip>, u: nat, v: nat)
    requires u in clips && v in clips
  {
    clips[u].createdAt > clips[v].createdAt || (clips[u].createdAt == clips[v].createdAt && u < v)
  }

  /** The live unpinned clips listed ahead of this one. */
  function Ahead(clips: map<nat, Clip>, u: nat): set<nat>
    requires u in clips
  {
    set v | v in clips && clips[v].Counted() && Before(clips, v, u)
  }

  predicate Overflows(clips: map<nat, Clip>, u: nat, p: Policy)
    requires u in clips
  {
    p.maxItems > 0 && clips[u].Counted() && |Ahead(clips, u)| >= p.maxItems
  }

  /** A picture's age counts from its last use. */
  predicate Aged(c: Clip, p: Policy) {
    p.autoDeleteDays > 0 && (if c.image then c.lastAccessed else c.createdAt) < p.now - p.autoDeleteDays * SECONDS_PER_DAY
  }

  predicate Due(clips: map<nat, Clip>, u: nat, p: Policy)
    requires u in clips
  {
    Aged(clips[u], p) || Overflows(clips, u, p)
  }

  /** A picture whose text was recognized outlives its original. */
  predicate Recognized(c: Clip) { c.image && c.ocrCompleted && c.ocrText.Some? }

  function ToPreserve(clips: map<nat, Clip>, p: Policy): set<nat> {
    set u | u in clips && clips[u].Counted() && !clips[u].expired && Recognized(clips[u]) && Due(clips, u, p)
  }

  function ToDelete(clips: map<nat, Clip>, p: Policy): set<nat> {
    set u | u in clips && !clips[u].pinned && (clips[u].deleted || (!clips[u].expired && Due(clips, u, p)))
  }

  function Flagged(clips: map<nat, Clip>, preserve: set<nat>): map<nat, Clip> {
    map u | u in clips :: if u in preserve then clips[u].(expired := true) else clips[u]
  }

  /** What one sweep leaves. */
  function Swept(clips: map<nat, Clip>, p: Policy): map<nat, Clip> {
    var flagged := Flagged(clips, ToPreserve(clips, p));
    flagged - ToDelete(flagged, p)
  }

  function PathsOf(images: map<nat, Option<string>>, of: set<nat>): set<string> {
    set u | u in images && u in of && images[u].Some? :: images[u].value
  }

  // ------------------------------------------------------- flags and the order

  lemma {:induction false} FlagsKeepTheOrder(clips: map<nat, Clip>, preserve: set<nat>, u: nat)
    requires u in clips
    ensures u in Flagged(clips, preserve) && Ahead(Flagged(clips, preserve), u) == Ahead(clips, u)
  {
    var flagged := Flagged(clips, preserve);
    assert forall v | v in clips :: flagged[v].createdAt == clips[v].createdAt && flagged[v].Counted() == clips[v].Counted();
  }

  lemma {:induction false} FlagsKeepDue(clips: map<nat, Clip>, preserve: set<nat>, u: nat, p: Policy)
    requires u in clips
    ensures u in Flagged(clips, preserve) && (Due(Flagged(clips, preserve), u, p) <==> Due(clips, u, p))
  {
    FlagsKeepTheOrder(clips, preserve, u);
    hide Ahead;
  }

  /** Pinned, or neither soft-deleted nor due without anything to keep it. */
  predicate Survives(clips: map<nat, Clip>, u: nat, p: Policy)
    requires u in clips
  {
    clips[u].pinned || (!clips[u].deleted && (clips[u].expired || Recognized(clips[u]) || !Due(clips, u, p)))
  }

  /** The exact fate of every clip. */
  lemma {:induction false} Fate(clips: map<nat, Clip>, p: Policy, u: nat)
    requires u in clips
    ensures u in Swept(clips, p) <==> Survives(clips, u, p)
    ensures u in Swept(clips, p) ==> Swept(clips, p)[u] == clips[u].(expired := clips[u].expired || u in ToPreserve(clips, p))
    ensures u in ToPreserve(clips, p) ==> u in Swept(clips, p)
  {
    FlagsKeepDue(clips, ToPreserve(clips, p), u, p);
    hide Due, Aged, Overflows;
  }

  /** Pinned clips are untouched; so is every clip that is not due. */
  lemma {:induction false} PinnedAndCurrentStay(clips: map<nat, Clip>, p: Policy, u: nat)
    requires u in clips && (clips[u].pinned || (!clips[u].deleted && !Due(clips, u, p)))
    ensures u in Swept(clips, p) && Swept(clips, p)[u] == clips[u]
  {
    Fate(clips, p, u);
    hide Swept, Due;
  }

  /** A live unpinned picture with finished recognition survives a sweep that is
      due for it exactly when some text was stored: an empty result stored as no
      text at all is deleted with its original. */
  lemma {:induction false} RecognizedPictureSurvivesIff(clips: map<nat, Clip>, p: Policy, u: nat)
    requires u in clips && clips[u].Counted() && clips[u].image && clips[u].ocrCompleted
    requires !clips[u].expired && Due(clips, u, p)
    ensures u in Swept(clips, p) <==> clips[u].ocrText.Some?
    ensures u in Swept(clips, p) ==> Swept(clips, p)[u] == clips[u].(expired := true)
  {
    Fate(clips, p, u);
    hide Swept, Due;
  }

  lemma {:induction false} CompletedWithoutTextIsDeleted()
    ensures var clips := map[0 := Clip(true, false, false, false, true, None, 0, 0)];
            clips[0].ocrCompleted && 0 !in Swept(clips, Policy(30, 0, 30 * SECONDS_PER_DAY + 1))
  {
    var clips := map[0 := Clip(true, false, false, false, true, None, 0, 0)];
    Fate(clips, Policy(30, 0, 30 * SECONDS_PER_DAY + 1), 0);
    hide Swept;
  }

  // ---------------------------------------------------------- after the sweep

  /** Deleting clips only moves the others up the list. */
  lemma {:induction false} AheadShrinks(clips: map<nat, Clip>, p: Policy, u: nat)
    requires u in clips && u in Swept(clips, p)
    ensures Ahead(Swept(clips, p), u) <= Ahead(clips, u)
  {
    var after := Swept(clips, p);
    forall v | v in Ahead(after, u)
      ensures v in Ahead(clips, u)
    {
      SweptIsSubset(clips, p, v);
      Fate(clips, p, v);
      Fate(clips, p, u);
      hide Swept;
    }
  }

  lemma {:induction false} SweptIsSubset(clips: map<nat, Clip>, p: Policy, v: nat)
    ensures v in Swept(clips, p) ==> v in clips
  {
  }

  lemma {:induction false} SubsetIsSmaller(a: set<nat>, b: set<nat>)
    requires a <= b
    ensures |a| <= |b|
  {
    assert b == a + (b - a);
  }

  /** Nothing that is left is still due. */
  lemma {:induction false} NothingLeftIsDue(clips: map<nat, Clip>, p: Policy, u: nat)
    requires u in Swept(clips, p) && Swept(clips, p)[u].Counted() && !Swept(clips, p)[u].expired
    ensures !Due(Swept(clips, p), u, p)
  {
    SweptIsSubset(clips, p, u);
    Fate(clips, p, u);
    AheadShrinks(clips, p, u);
    SubsetIsSmaller(Ahead(Swept(clips, p), u), Ahead(clips, u));
    assert !Due(clips, u, p);
    hide Swept, Ahead;
    assert Aged(Swept(clips, p)[u], p) == Aged(clips[u], p);
  }

  lemma {:induction false} LastOf(clips: map<nat, Clip>, s: set<nat>) returns (last: nat)
    requires s != {} && forall u | u in s :: u in clips
    ensures last in s && forall u | u in s && u != last :: Before(clips, u, last)
    decreases |s|
  {
    var u :| u in s;
    assert forall v | v in s :: v == u || v in s - {u};
    if s - {u} == {} {
      last := u;
    } else {
      var rest := LastOf(clips, s - {u});
      last := if Before(clips, rest, u) then u else rest;
      forall v | v in s && v != last
        ensures Before(clips, v, last)
      {
        assert v == u || v == rest || Before(clips, v, rest);
      }
    }
  }

  function StillWhole(clips: map<nat, Clip>): set<nat> {
    set u | u in clips && clips[u].Counted() && !clips[u].expired
  }

  /** With a cap set, no more than that many live unpinned clips keep an
      original, and each of them is among the newest. */
  lemma {:induction false} CapHolds(clips: map<nat, Clip>, p: Policy)
    requires p.maxItems > 0
    ensures |StillWhole(Swept(clips, p))| <= p.maxItems
  {
    var after := Swept(clips, p);
    var kept := StillWhole(after);
    if kept != {} {
      var last := LastOf(after, kept);
      NothingLeftIsDue(clips, p, last);
      hide Swept;
      assert kept - {last} <= Ahead(after, last);
      SubsetIsSmaller(kept - {last}, Ahead(after, last));
    }
  }

  /** A second sweep at the same moment finds nothing to do. */
  lemma {:induction false} SecondSweepDoesNothing(clips: map<nat, Clip>, p: Policy)
    ensures var after := Swept(clips, p);
            ToPreserve(after, p) == {} && ToDelete(after, p) == {} && Swept(after, p) == after
  {
    var after := Swept(clips, p);
    forall u | u in after
      ensures u !in ToPreserve(after, p) && u !in ToDelete(after, p)
    {
      SweptIsSubset(clips, p, u);
      Fate(clips, p, u);
      if after[u].Counted() && !after[u].expired {
        NothingLeftIsDue(clips, p, u);
      }
      hide Swept, Due;
    }
    assert ToPreserve(after, p) == {};
    assert Flagged(after, {}) == after;
    assert ToDelete(after, p) == {};
    assert after - {} == after;
  }

  // --------------------------------------------------------------- the sweep

  class ClipStore {
    var clips: map<nat, Clip>
    /** Originals on disk, by clip; an old row may name no file. */
    var images: map<nat, Option<string>>

    constructor (clips: map<nat, Clip>, images: map<nat, Option<string>>)
      ensures this.clips == clips && this.images == images
    {
      this.clips, this.images := clips, images;
    }

    /** First strip and flag the pictures worth keeping, then select what goes.
        Returns how many clips went and every file to remove. */
    method EnforceRetention(p: Policy) returns (deleted: nat, paths: set<string>)
      modifies this
      ensures clips == Swept(old(clips), p)
      ensures deleted == |old(clips).Keys - clips.Keys|
      ensures images == old(images) - (Gone(old(clips), p) + ToPreserve(old(clips), p))
      ensures paths == PathsOf(old(images), old(images).Keys - images.Keys)
    {
      hide ToPreserve, ToDelete, PathsOf, Flagged;
      var preserve := ToPreserve(clips, p);
      var preservedPaths := PathsOf(images, preserve);
      images := images - preserve;
      clips := Flagged(clips, preserve);
      var candidates := ToDelete(clips, p);
      CandidatesExist(clips, p);
      var deletedPaths := PathsOf(images, candidates);
      images := images - candidates;
      deleted := |candidates|;
      clips := clips - candidates;
      paths := deletedPaths + preservedPaths;
      ghost var flagged := Flagged(old(clips), preserve);
      FlagsKeepKeys(old(clips), preserve);
      KeysGone(flagged, candidates);
      PathsAddUp(old(images), preserve, candidates);
    }
  }

  lemma {:induction false} FlagsKeepKeys(clips: map<nat, Clip>, preserve: set<nat>)
    ensures Flagged(clips, preserve).Keys == clips.Keys
  {
  }

  lemma {:induction false} KeysGone(clips: map<nat, Clip>, candidates: set<nat>)
    requires candidates <= clips.Keys
    ensures clips.Keys - (clips - candidates).Keys == candidates
  {
  }

  lemma {:induction false} PathsAddUp(images: map<nat, Option<string>>, preserve: set<nat>, candidates: set<nat>)
    ensures images - preserve - candidates == images - (candidates + preserve)
    ensures PathsOf(images - preserve, candidates) + PathsOf(images, preserve)
         == PathsOf(images, images.Keys - (images - (candidates + preserve)).Keys)
  {
    var gone := images.Keys - (images - (candidates + preserve)).Keys;
    assert gone == images.Keys * (candidates + preserve);
    forall path
      ensures path in PathsOf(images - preserve, candidates) + PathsOf(images, preserve) <==> path in PathsOf(images, gone)
    {
      if path in PathsOf(images, gone) {
        var u :| u in images && u in gone && images[u] == Some(path);
        if u !in preserve {
          assert u in images - preserve;
        }
      }
    }
  }

  /** The clips a sweep removes. */
  function Gone(clips: map<nat, Clip>, p: Policy): set<nat> { clips.Keys - Swept(clips, p).Keys }

  lemma {:induction false} CandidatesExist(clips: map<nat, Clip>, p: Policy)
    ensures ToDelete(clips, p) <= clips.Keys
  {
  }
}
