/** Restoring a backup bundle: what each clip of it comes to, and what a whole
    undisturbed run adds. */
module Import {
  import opened Wrappers
  import opened ClipIdentity

  /** A Base64 field that may not decode. */
  type Encoded = Option<string>

  datatype BundleFormat = BundleFormat(name: string, content: Encoded)

  datatype BundleClip = BundleClip(kind: string, content: Encoded, fullImage: Option<Encoded>, folder: Option<string>,
                                   formats: seq<BundleFormat>)

  datatype Decoded = Decoded(kind: string, content: string, fullImage: Option<string>, formats: seq<Format>)

  function DecodeFormats(formats: seq<BundleFormat>): (decoded: Option<seq<Format>>)
    ensures decoded.Some? <==> forall k | 0 <= k < |formats| :: formats[k].content.Some?
  {
    if exists k | 0 <= k < |formats| :: formats[k].content.None? then None
    else Some(seq(|formats|, k requires 0 <= k < |formats| => Format(formats[k].name, formats[k].content.value)))
  }

  /** Only an image may carry an original, and it must not be empty. */
  function Decode(clip: BundleClip): Option<Decoded> {
    var full := if clip.kind == "image" then clip.fullImage else None;
    if clip.content.None? || (full.Some? && (full.value.None? || |full.value.value| == 0)) then None
    else
      match DecodeFormats(clip.formats)
      case None => None
      case Some(formats) =>
        Some(Decoded(clip.kind, clip.content.value, if full.Some? then full.value else None, formats))
  }

  /** The same identity capture computes: an image by its full picture. */
  function ContentHash(d: Decoded, mac: string -> nat): nat {
    mac(Material(d.kind, d.fullImage.GetOr(d.content), d.formats))
  }

  predicate DistinctNames(formats: seq<Format>) {
    forall i, j | 0 <= i < j < |formats| :: formats[i].name != formats[j].name
  }

  // ------------------------------------------------------ an undisturbed run

  /** What a run has counted, which hashes it has met, and which it stored. */
  datatype Tally = Tally(imported: nat, duplicates: nat, skipped: nat, planned: set<nat>, added: set<nat>)

  const NOTHING_YET: Tally := Tally(0, 0, 0, {}, {})

  /** One clip. A bundle naming one format twice breaks the format table's key,
      so a real run rolls that clip back; a dry run never gets that far. */
  function Count(t: Tally, clip: BundleClip, present: set<nat>, mac: string -> nat, dryRun: bool): Tally {
    match Decode(clip)
    case None => t.(skipped := t.skipped + 1)
    case Some(d) =>
      var hash := ContentHash(d, mac);
      if hash in present || hash in t.added || hash in t.planned then t.(duplicates := t.duplicates + 1)
      else if dryRun then t.(imported := t.imported + 1, planned := t.planned + {hash})
      else if DistinctNames(d.formats) then
        t.(imported := t.imported + 1, planned := t.planned + {hash}, added := t.added + {hash})
      else t.(skipped := t.skipped + 1, planned := t.planned + {hash})
  }

  function Run(clips: seq<BundleClip>, n: nat, present: set<nat>, mac: string -> nat, dryRun: bool): Tally
    requires n <= |clips|
  {
    if n == 0 then NOTHING_YET else Count(Run(clips, n - 1, present, mac, dryRun), clips[n - 1], present, mac, dryRun)
  }

  predicate Wants(clip: BundleClip, mac: string -> nat, hash: nat) {
    Decode(clip).Some? && ContentHash(Decode(clip).value, mac) == hash
  }

  /** Clip `k` is the first of its content in the bundle, and is not stored. */
  predicate NewAt(clips: seq<BundleClip>, k: nat, present: set<nat>, mac: string -> nat)
    requires k < |clips|
  {
    Decode(clips[k]).Some? &&
    var hash := ContentHash(Decode(clips[k]).value, mac);
    hash !in present && forall j | 0 <= j < k :: !Wants(clips[j], mac, hash)
  }

  /** What a user can check before restoring: no clip that is new to this
      machine names a format twice. */
  predicate NewClipsAreRestorable(clips: seq<BundleClip>, n: nat, present: set<nat>, mac: string -> nat)
    requires n <= |clips|
  {
    forall k | 0 <= k < n && NewAt(clips, k, present, mac) :: DistinctNames(Decode(clips[k]).value.formats)
  }

  lemma {:induction false} RunMeets(clips: seq<BundleClip>, n: nat, present: set<nat>, mac: string -> nat, dryRun: bool)
    requires n <= |clips|
    ensures var t := Run(clips, n, present, mac, dryRun);
            && t.added <= t.planned && (dryRun ==> t.added == {})
            && (forall hash :: hash in t.planned <==> hash !in present && exists j :: 0 <= j < n && Wants(clips[j], mac, hash))
  {
    hide Decode, ContentHash, DistinctNames;
    if n > 0 {
      RunMeets(clips, n - 1, present, mac, dryRun);
      var before := Run(clips, n - 1, present, mac, dryRun);
      var t := Run(clips, n, present, mac, dryRun);
      forall hash
        ensures hash in t.planned <==> hash !in present && exists j :: 0 <= j < n && Wants(clips[j], mac, hash)
      {
        if hash in before.planned {
          var j :| 0 <= j < n - 1 && Wants(clips[j], mac, hash);
        } else if Wants(clips[n - 1], mac, hash) {
        }
      }
    }
  }

  /** Every clip is counted once. */
  lemma {:induction false} CountsAddUp(clips: seq<BundleClip>, n: nat, present: set<nat>, mac: string -> nat, dryRun: bool)
    requires n <= |clips|
    ensures var t := Run(clips, n, present, mac, dryRun); n == t.imported + t.duplicates + t.skipped
  {
    hide Decode, ContentHash, DistinctNames;
    if n > 0 {
      CountsAddUp(clips, n - 1, present, mac, dryRun);
    }
  }

  lemma {:induction false} NewExactlyWhenUnplanned(clips: seq<BundleClip>, k: nat, present: set<nat>, mac: string -> nat,
                                                   dryRun: bool)
    requires k < |clips| && Decode(clips[k]).Some?
    ensures var (t, hash) := (Run(clips, k, present, mac, dryRun), ContentHash(Decode(clips[k]).value, mac));
            && (NewAt(clips, k, present, mac) <==> hash !in present && hash !in t.planned)
            && t.added <= t.planned
  {
    RunMeets(clips, k, present, mac, dryRun);
    hide Decode, ContentHash, DistinctNames, Run;
  }

  /** What a real run stores: the new content whose first clip is restorable. */
  lemma {:induction false} AddsRestorableContent(clips: seq<BundleClip>, n: nat, present: set<nat>, mac: string -> nat, hash: nat)
    requires n <= |clips|
    ensures hash in Run(clips, n, present, mac, false).added <==> StoredBy(clips, n, present, mac, hash)
  {
    hide Decode, ContentHash, DistinctNames, NewAt;
    if n > 0 {
      AddsRestorableContent(clips, n - 1, present, mac, hash);
      if Decode(clips[n - 1]).Some? {
        NewExactlyWhenUnplanned(clips, n - 1, present, mac, false);
      } else {
        assert !Wants(clips[n - 1], mac, hash);
      }
      assert StoredBy(clips, n, present, mac, hash) <==>
             StoredBy(clips, n - 1, present, mac, hash) || StoredAt(clips, n - 1, present, mac, hash);
    }
  }

  predicate StoredAt(clips: seq<BundleClip>, k: nat, present: set<nat>, mac: string -> nat, hash: nat)
    requires k < |clips|
  {
    NewAt(clips, k, present, mac) && Wants(clips[k], mac, hash) && DistinctNames(Decode(clips[k]).value.formats)
  }

  predicate StoredBy(clips: seq<BundleClip>, n: nat, present: set<nat>, mac: string -> nat, hash: nat)
    requires n <= |clips|
  {
    exists k :: 0 <= k < n && StoredAt(clips, k, present, mac, hash)
  }

  lemma {:induction false} FirstOfItsContent(clips: seq<BundleClip>, j: nat, present: set<nat>, mac: string -> nat, hash: nat)
    returns (k: nat)
    requires j < |clips| && Wants(clips[j], mac, hash) && hash !in present
    ensures k <= j && NewAt(clips, k, present, mac) && Wants(clips[k], mac, hash)
    decreases j
  {
    hide Decode, ContentHash;
    if NewAt(clips, j, present, mac) {
      k := j;
    } else {
      var i :| 0 <= i < j && Wants(clips[i], mac, hash);
      k := FirstOfItsContent(clips, i, present, mac, hash);
    }
  }

  /** Every readable clip's content is stored afterwards. */
  predicate AllStored(clips: seq<BundleClip>, n: nat, stored: set<nat>, mac: string -> nat)
    requires n <= |clips|
  {
    forall j | 0 <= j < n && Decode(clips[j]).Some? :: ContentHash(Decode(clips[j]).value, mac) in stored
  }

  /** One undisturbed run brings every readable clip of the bundle into history
      exactly when no clip new to this machine names a format twice. */
  lemma {:induction false} ConvergesIff(clips: seq<BundleClip>, n: nat, present: set<nat>, mac: string -> nat)
    requires n <= |clips|
    ensures AllStored(clips, n, present + Run(clips, n, present, mac, false).added, mac)
       <==> NewClipsAreRestorable(clips, n, present, mac)
  {
    hide Decode, ContentHash, DistinctNames, Run, NewAt;
    var stored := present + Run(clips, n, present, mac, false).added;
    if NewClipsAreRestorable(clips, n, present, mac) {
      forall j | 0 <= j < n && Decode(clips[j]).Some?
        ensures ContentHash(Decode(clips[j]).value, mac) in stored
      {
        var hash := ContentHash(Decode(clips[j]).value, mac);
        AddsRestorableContent(clips, n, present, mac, hash);
        if hash !in present {
          var k := FirstOfItsContent(clips, j, present, mac, hash);
          assert StoredAt(clips, k, present, mac, hash);
        }
      }
    } else {
      NewIsReadable(clips, present, mac);
      var k :| 0 <= k < n && NewAt(clips, k, present, mac) && !DistinctNames(Decode(clips[k]).value.formats);
      UnrestorableIsNotStored(clips, n, k, present, mac);
    }
  }

  lemma {:induction false} NewIsReadable(clips: seq<BundleClip>, present: set<nat>, mac: string -> nat)
    ensures forall k | 0 <= k < |clips| && NewAt(clips, k, present, mac) :: Decode(clips[k]).Some?
  {
    hide Decode;
  }

  lemma {:induction false} UnrestorableIsNotStored(clips: seq<BundleClip>, n: nat, k: nat, present: set<nat>, mac: string -> nat)
    requires k < n <= |clips| && NewAt(clips, k, present, mac) && !DistinctNames(Decode(clips[k]).value.formats)
    ensures var hash := ContentHash(Decode(clips[k]).value, mac);
            Decode(clips[k]).Some? && hash !in present + Run(clips, n, present, mac, false).added
  {
    hide Decode, ContentHash, DistinctNames, Run;
    var hash := ContentHash(Decode(clips[k]).value, mac);
    AddsRestorableContent(clips, n, present, mac, hash);
    forall i | 0 <= i < n
      ensures !StoredAt(clips, i, present, mac, hash)
    {
      assert Wants(clips[k], mac, hash);
    }
  }

  /** A dry run calls the same clips duplicates; it promises as many imports as
      a real run makes exactly when every new clip is restorable. */
  lemma {:induction false} DryRunAgreesIff(clips: seq<BundleClip>, n: nat, present: set<nat>, mac: string -> nat)
    requires n <= |clips|
    ensures var (dry, actual) := (Run(clips, n, present, mac, true), Run(clips, n, present, mac, false));
            && dry.duplicates == actual.duplicates && dry.planned == actual.planned && dry.imported >= actual.imported
            && (dry.imported == actual.imported <==> NewClipsAreRestorable(clips, n, present, mac))
  {
    hide Decode, ContentHash, DistinctNames, NewAt;
    if n > 0 {
      DryRunAgreesIff(clips, n - 1, present, mac);
      RunMeets(clips, n - 1, present, mac, true);
      RunMeets(clips, n - 1, present, mac, false);
      if Decode(clips[n - 1]).Some? {
        NewExactlyWhenUnplanned(clips, n - 1, present, mac, true);
      } else {
        UnreadableIsNotNew(clips, n - 1, present, mac);
      }
      assert NewClipsAreRestorable(clips, n, present, mac) <==>
             NewClipsAreRestorable(clips, n - 1, present, mac)
             && (NewAt(clips, n - 1, present, mac) ==> DistinctNames(Decode(clips[n - 1]).value.formats)) by {
        hide Run;
      }
    }
  }

  lemma {:induction false} UnreadableIsNotNew(clips: seq<BundleClip>, k: nat, present: set<nat>, mac: string -> nat)
    requires k < |clips| && Decode(clips[k]).None?
    ensures !NewAt(clips, k, present, mac)
  {
    hide Decode;
  }

  /** Restoring the same bundle again imports nothing. */
  lemma {:induction false} SecondRunImportsNothing(clips: seq<BundleClip>, n: nat, present: set<nat>, mac: string -> nat)
    requires n <= |clips|
    ensures Run(clips, n, present + Run(clips, |clips|, present, mac, false).added, mac, false).imported == 0
  {
    hide Decode, ContentHash, DistinctNames, NewAt;
    var stored := present + Run(clips, |clips|, present, mac, false).added;
    if n > 0 {
      SecondRunImportsNothing(clips, n - 1, present, mac);
      if Decode(clips[n - 1]).Some? {
        NewExactlyWhenUnplanned(clips, n - 1, stored, mac, false);
        NothingNewIsRestorable(clips, n - 1, present, mac);
      }
    }
  }

  lemma {:induction false} NothingNewIsRestorable(clips: seq<BundleClip>, k: nat, present: set<nat>, mac: string -> nat)
    requires k < |clips|
    ensures var stored := present + Run(clips, |clips|, present, mac, false).added;
            NewAt(clips, k, stored, mac) ==> Decode(clips[k]).Some? && !DistinctNames(Decode(clips[k]).value.formats)
  {
    hide Decode, ContentHash, DistinctNames, Run;
    var stored := present + Run(clips, |clips|, present, mac, false).added;
    if NewAt(clips, k, stored, mac) {
      var hash := ContentHash(Decode(clips[k]).value, mac);
      AddsRestorableContent(clips, |clips|, present, mac, hash);
      assert !StoredAt(clips, k, present, mac, hash);
      assert NewAt(clips, k, present, mac) && Wants(clips[k], mac, hash);
    }
  }

  /** ... and calls every readable clip a duplicate once all are stored. */
  lemma {:induction false} StoredClipsAreDuplicates(clips: seq<BundleClip>, n: nat, present: set<nat>, mac: string -> nat,
                                                    dryRun: bool)
    requires n <= |clips| && AllStored(clips, n, present, mac)
    ensures var t := Run(clips, n, present, mac, dryRun);
            t.imported == 0 && t.added == {} && t.planned == {} && t.duplicates == Readable(clips, n)
  {
    hide Decode, ContentHash, DistinctNames;
    if n > 0 {
      StoredClipsAreDuplicates(clips, n - 1, present, mac, dryRun);
    }
  }

  function Readable(clips: seq<BundleClip>, n: nat): nat
    requires n <= |clips|
  {
    if n == 0 then 0 else Readable(clips, n - 1) + (if Decode(clips[n - 1]).Some? then 1 else 0)
  }

  /** A bundle of one clip that names a format twice: a dry run promises it, a
      real run never brings it in. */
  lemma {:induction false} RepeatedFormatIsNeverRestored(content: string, mac: string -> nat)
    ensures var twice := BundleFormat("html", Some("x"));
            var bundle := [BundleClip("text", Some(content), None, None, [twice, twice])];
            && Run(bundle, 1, {}, mac, true).imported == 1
            && Run(bundle, 1, {}, mac, false).imported == 0 && Run(bundle, 1, {}, mac, false).skipped == 1
  {
    var twice := BundleFormat("html", Some("x"));
    var bundle := [BundleClip("text", Some(content), None, None, [twice, twice])];
    var formats := DecodeFormats([twice, twice]).value;
    assert formats[0].name == formats[1].name;
    hide ContentHash;
    assert Run(bundle, 0, {}, mac, true) == Run(bundle, 0, {}, mac, false) == NOTHING_YET;
  }
}
