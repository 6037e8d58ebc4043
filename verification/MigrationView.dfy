/** What one step of the migration leaves alone, and what a whole start does to
    the clips: the parts of the argument that need no store. */
module MigrationView {
  import opened Wrappers
  import opened Envelope
  import opened ImageFiles
  import opened Migration

  // ------------------------------------------------ staging and the view of it

  /** A row names its managed file, and that is neither there nor staged: an
      older copy of the picture stands in for it. */
  predicate NamesLostFile(images: map<nat, ImageRow>, files: map<Path, Bytes>, uuid: nat) {
    NamesManaged(images, uuid) && Managed(uuid) !in files && Temp(uuid) !in files
  }

  lemma {:induction false} StagingBesideIsUnseen(images: map<nat, ImageRow>, files: map<Path, Bytes>, uuid: nat, b: Bytes)
    requires OwnFiles(images) && Managed(uuid) in files
    ensures SameForAll(images, Promoted(files), Promoted(files[Temp(uuid) := b]))
    ensures SameForAll(images, Promoted(files), Promoted(files - {Temp(uuid)}))
  {
    forall q: Path | !q.Temp?
      ensures q in Promoted(files) <==> q in Promoted(files[Temp(uuid) := b])
      ensures q in Promoted(files) <==> q in Promoted(files - {Temp(uuid)})
      ensures q in Promoted(files) ==> Promoted(files)[q] == Promoted(files[Temp(uuid) := b])[q]
      ensures q in Promoted(files) ==> Promoted(files)[q] == Promoted(files - {Temp(uuid)})[q]
    {
      PromotedAt(files, q);
      PromotedAt(files[Temp(uuid) := b], q);
      PromotedAt(files - {Temp(uuid)}, q);
    }
    hide Promoted;
  }

  /** In place of a lost file any staged bytes, a part of a file even, are what
      the next start reads, whatever other copy the clip has. */
  lemma {:induction false} StagedPartIsReadNext(key: Key, clip: Clip, images: map<nat, ImageRow>,
                                                files: map<Path, Bytes>, uuid: nat, part: Bytes)
    requires NamesLostFile(images, files, uuid)
    ensures ImageBytes(key, clip, RowOf(images, uuid), Promoted(files[Temp(uuid) := part]), false)
            == Some((Opened(key, part), Some(Managed(uuid))))
  {
    PromotedAt(files[Temp(uuid) := part], Managed(uuid));
    hide Promoted, Opened;
  }

  /** Promoting a staged file is what the view already shows. */
  lemma {:induction false} PromotionIsUnseen(images: map<nat, ImageRow>, files: map<Path, Bytes>, uuid: nat)
    requires OwnFiles(images) && Managed(uuid) !in files && Temp(uuid) in files
    ensures SameForAll(images, Promoted(files), Promoted(files[Managed(uuid) := files[Temp(uuid)]] - {Temp(uuid)}))
  {
    var after := files[Managed(uuid) := files[Temp(uuid)]] - {Temp(uuid)};
    forall q: Path | !q.Temp?
      ensures q in Promoted(files) <==> q in Promoted(after)
      ensures q in Promoted(files) ==> Promoted(files)[q] == Promoted(after)[q]
    {
      PromotedAt(files, q);
      PromotedAt(after, q);
    }
    hide Promoted;
  }

  /** Two directories that differ in one clip's two names only. */
  predicate SameElsewhere(files: map<Path, Bytes>, after: map<Path, Bytes>, uuid: nat) {
    files - {Managed(uuid), Temp(uuid)} == after - {Managed(uuid), Temp(uuid)}
  }

  lemma {:induction false} OthersSeeTheSame(images: map<nat, ImageRow>, files: map<Path, Bytes>, after: map<Path, Bytes>,
                                            uuid: nat)
    requires OwnFiles(images) && SameElsewhere(files, after, uuid)
    ensures SameForOthers(images, Promoted(files), Promoted(after), uuid)
  {
    forall q: Path | !q.Temp? && q != Managed(uuid)
      ensures q in Promoted(files) <==> q in Promoted(after)
      ensures q in Promoted(files) ==> Promoted(files)[q] == Promoted(after)[q]
    {
      PromotedAt(files, q);
      PromotedAt(after, q);
      ElsewhereAt(files, after, uuid, q);
      if q.Managed? {
        ElsewhereAt(files, after, uuid, Temp(q.uuid));
      }
    }
    hide Promoted, SameElsewhere;
  }

  lemma {:induction false} ElsewhereAt(files: map<Path, Bytes>, after: map<Path, Bytes>, uuid: nat, q: Path)
    requires SameElsewhere(files, after, uuid) && q != Managed(uuid) && q != Temp(uuid)
    ensures q in files <==> q in after
    ensures q in files ==> files[q] == after[q]
  {
    assert q in files <==> q in files - {Managed(uuid), Temp(uuid)};
    assert q in after <==> q in after - {Managed(uuid), Temp(uuid)};
  }

  ghost predicate NoTemps(files: map<Path, Bytes>) { forall u :: Temp(u) !in files }

  lemma {:induction false} PromotedIsPlain(images: map<nat, ImageRow>, files: map<Path, Bytes>)
    requires NoTemps(files)
    ensures SameForAll(images, files, Promoted(files))
  {
    forall q: Path
      ensures q in files <==> q in Promoted(files)
      ensures q in files ==> files[q] == Promoted(files)[q]
    {
      PromotedAt(files, q);
    }
    hide Promoted;
  }

  /** Only pictures are ever replaced, and only their bytes. */
  ghost predicate OnlyPicturesChange(orig: map<nat, Original>, now: map<nat, Original>) {
    now.Keys == orig.Keys
    && forall u | u in orig :: now[u] == orig[u] || (orig[u].image && now[u] == orig[u].(bytes := now[u].bytes))
  }

  /** Every picture is really under its managed name. */
  ghost predicate InPlace(now: map<nat, Original>, files: map<Path, Bytes>) {
    forall u | u in now && now[u].image :: Managed(u) in files
  }

  lemma {:induction false} PictureChanges(orig: map<nat, Original>, now: map<nat, Original>, uuid: nat, bytes: Bytes)
    requires OnlyPicturesChange(orig, now) && uuid in orig && orig[uuid].image
    ensures OnlyPicturesChange(orig, now[uuid := now[uuid].(bytes := bytes)])
  {
  }

  /** Of all clips only this one may have changed, to `bytes` if at all. */
  ghost predicate PictureBecomes(before: map<nat, Original>, after: map<nat, Original>, uuid: nat, bytes: Bytes) {
    && OthersAreTheSame(before, after, uuid)
    && (uuid in before ==> after[uuid] == before[uuid] || after[uuid] == before[uuid].(bytes := bytes))
  }

  ghost predicate OthersAreTheSame(before: map<nat, Original>, after: map<nat, Original>, uuid: nat) {
    after.Keys == before.Keys && forall v | v in before && v != uuid :: after[v] == before[v]
  }

  lemma {:induction false} WithStoredAt(key: Key, now: map<nat, Original>, images: map<nat, ImageRow>,
                                        files: map<Path, Bytes>, uuid: nat, stored: Bytes)
    ensures PictureBecomes(now, WithStored(key, now, images, uuid, stored), uuid, Opened(key, stored))
    ensures Managed(uuid) !in files && Temp(uuid) !in files && !NamesLostFile(images, files, uuid) ==>
              WithStored(key, now, images, uuid, stored) == now
  {
    hide Opened;
  }

  /** Everything a run may change, at one moment. */
  datatype Snapshot =
    Snapshot(clips: map<nat, Clip>, rows: map<nat, ImageRow>, files: map<Path, Bytes>, now: map<nat, Original>)

  function StoredPicture(s: Snapshot, uuid: nat): Option<Bytes> {
    if uuid in s.rows && s.rows[uuid].path.Some? && s.rows[uuid].path.value in s.files
    then Some(s.files[s.rows[uuid].path.value]) else None
  }

  /** Beside the file its row names the clip has another copy, of which a run
      would make the picture: it is not the same picture. */
  predicate HasOtherCopy(key: Key, s: Snapshot, uuid: nat) {
    && uuid in s.clips && s.clips[uuid].image && uuid in s.now
    && uuid in s.rows && s.rows[uuid].path.Some?
    && !MisreadIsSafe(key, s.clips[uuid], s.rows[uuid], s.now[uuid].bytes)
  }

  /** A failure to read this picture's file would yield another picture. */
  predicate MisreadIfUnreadable(key: Key, s: Snapshot, uuid: nat) {
    HasOtherCopy(key, s, uuid) && StoredPicture(s, uuid).Some?
  }

  /** A clip does not come to be in danger: it loses no file, and while its
      picture stays it gets no other copy. */
  predicate NoNewRisk(key: Key, u: nat, was: Snapshot, here: Snapshot) {
    && u in was.now && u in here.now
    && (NamesLostFile(here.rows, here.files, u) ==> NamesLostFile(was.rows, was.files, u))
    && (HasOtherCopy(key, here, u) && here.now[u] == was.now[u] ==> HasOtherCopy(key, was, u))
  }

  lemma {:induction false} NoRiskWithoutChange(key: Key, u: nat, was: Snapshot, here: Snapshot)
    requires u in was.now && u in here.now && was.clips == here.clips && was.rows == here.rows
    requires Managed(u) in was.files || Temp(u) in was.files ==> Managed(u) in here.files || Temp(u) in here.files
    ensures NoNewRisk(key, u, was, here)
  {
  }

  lemma {:induction false} SafeIsNoRisk(key: Key, u: nat, was: Snapshot, here: Snapshot)
    requires u in was.now && u in here.now && Managed(u) in here.files && !HasOtherCopy(key, here, u)
    ensures NoNewRisk(key, u, was, here)
  {
  }

  /** A step for one clip touches no other clip, its rows or its files. */
  ghost predicate LeavesOthers(uuid: nat, was: Snapshot, here: Snapshot) {
    OthersAreTheSame(was.now, here.now, uuid) && forall v | v != uuid :: SameFor(v, was, here)
  }

  predicate SameFor(v: nat, was: Snapshot, here: Snapshot) {
    && (v in was.clips <==> v in here.clips) && (v in was.clips ==> was.clips[v] == here.clips[v])
    && RowOf(was.rows, v) == RowOf(here.rows, v) && StoredPicture(was, v) == StoredPicture(here, v)
    && (Managed(v) in was.files <==> Managed(v) in here.files) && (Temp(v) in was.files <==> Temp(v) in here.files)
  }

  predicate OldName(rows: map<nat, ImageRow>, uuid: nat, path: Path) {
    path.Legacy? && uuid in rows && rows[uuid].path == Some(path)
  }

  /** The files change under the clip's own names, and its old file may go. */
  lemma {:induction false} OwnStepLeavesOthers(uuid: nat, was: Snapshot, here: Snapshot, mid: map<Path, Bytes>)
    requires OwnFiles(was.rows) && OthersAreTheSame(was.now, here.now, uuid) && SameElsewhere(was.files, mid, uuid)
    requires was.clips - {uuid} == here.clips - {uuid} && was.rows - {uuid} == here.rows - {uuid}
    requires here.files == mid || exists path: Path :: OldName(was.rows, uuid, path) && here.files == mid - {path}
    ensures LeavesOthers(uuid, was, here)
  {
    forall v | v != uuid
      ensures SameFor(v, was, here)
    {
      ElsewhereAt(was.files, mid, uuid, Managed(v));
      ElsewhereAt(was.files, mid, uuid, Temp(v));
      RowElsewhere(was.rows, here.rows, uuid, v);
      assert v in was.clips <==> v in was.clips - {uuid};
      assert v in here.clips <==> v in here.clips - {uuid};
      if StoredPicture(was, v).Some? || StoredPicture(here, v).Some? {
        ElsewhereAt(was.files, mid, uuid, was.rows[v].path.value);
      }
    }
  }

  lemma {:induction false} RowElsewhere(was: map<nat, ImageRow>, rows: map<nat, ImageRow>, uuid: nat, v: nat)
    requires was - {uuid} == rows - {uuid} && v != uuid
    ensures RowOf(was, v) == RowOf(rows, v)
  {
    assert v in was <==> v in was - {uuid};
    assert v in rows <==> v in rows - {uuid};
  }

  /** The directory once a staged file took its missing target's place or, the
      target being there, was removed. */
  function Swept(files: map<Path, Bytes>, uuid: nat): map<Path, Bytes>
    requires Temp(uuid) in files
  {
    (if Managed(uuid) in files then files else files[Managed(uuid) := files[Temp(uuid)]]) - {Temp(uuid)}
  }

  lemma {:induction false} OwnAfter(images: map<nat, ImageRow>, uuid: nat, image: bool)
    requires OwnFiles(images)
    ensures OwnFiles(ImagesAfter(images, uuid, image))
  {
    ManagedFilesAreOwn(images, uuid);
    hide OwnFiles;
  }

  lemma {:induction false} SameFields(key: Key, clip: Clip, o: Original, bytes: Bytes)
    ensures FieldsKept(key, clip, o) ==> FieldsKept(key, clip, o.(bytes := bytes))
    ensures TextsInTheClear(key, o) ==> TextsInTheClear(key, o.(bytes := bytes))
  {
    hide TextKept, IsEncryptedText;
  }

  ghost predicate AllPreviewable(preview: Bytes -> Option<Bytes>, now: map<nat, Original>) {
    forall u | u in now && now[u].image :: preview(now[u].bytes).Some?
  }

  /** What the loop of a run knows after its first `i` clips: each of them is
      done, and is what it was unless it was misread; the others are untouched. */
  ghost predicate Progress(key: Key, order: seq<nat>, fails: set<nat>, i: nat, done: set<nat>, start: Snapshot,
                           here: Snapshot)
    requires i <= |order|
  {
    && (forall k | 0 <= k < i :: Passed(key, order[k], order[k] in fails, done, start, here))
    && (forall k | i <= k < |order| :: Untouched(order[k], start, here))
  }

  predicate Passed(key: Key, u: nat, readFails: bool, done: set<nat>, start: Snapshot, here: Snapshot) {
    && NoNewRisk(key, u, start, here) && u in done && (here.now[u].image ==> Managed(u) in here.files)
    && (here.now[u] == start.now[u] <==> !(readFails && MisreadIfUnreadable(key, start, u)))
  }

  predicate Untouched(u: nat, start: Snapshot, here: Snapshot) {
    u in start.now && u in here.now && here.now[u] == start.now[u] && SameFor(u, start, here)
  }

  /** A clip may only change by being misread, or by half a staged file when its
      row named a lost one. */
  predicate ChangeIsExplained(key: Key, u: nat, readFails: bool, start: Snapshot, here: Snapshot) {
    && NoNewRisk(key, u, start, here)
    && (here.now[u] == start.now[u] || (readFails && MisreadIfUnreadable(key, start, u))
        || NamesLostFile(start.rows, start.files, u))
  }

  lemma {:induction false} ProgressStart(key: Key, order: seq<nat>, fails: set<nat>, done: set<nat>, start: Snapshot)
    requires forall u | u in order :: u in start.now
    ensures Progress(key, order, fails, 0, done, start, start)
  {
  }

  lemma {:induction false} ProgressStep(key: Key, order: seq<nat>, fails: set<nat>, i: nat, done: set<nat>,
                                        start: Snapshot, mid: Snapshot, here: Snapshot)
    requires i < |order| && Progress(key, order, fails, i, done, start, mid) && LeavesOthers(order[i], mid, here)
    requires forall k, l | 0 <= k < l < |order| :: order[k] != order[l]
    requires Passed(key, order[i], order[i] in fails, done + {order[i]}, mid, here)
    ensures Progress(key, order, fails, i + 1, done + {order[i]}, start, here)
  {
    hide Passed, Untouched, LeavesOthers;
    forall k | 0 <= k <= i
      ensures Passed(key, order[k], order[k] in fails, done + {order[i]}, start, here)
    {
      if k < i {
        assert Passed(key, order[k], order[k] in fails, done, start, mid);
        PassedStays(key, order[k], order[k] in fails, done, order[i], start, mid, here);
      } else {
        assert Untouched(order[i], start, mid);
        PassedFromStart(key, order[i], order[i] in fails, done + {order[i]}, start, mid, here);
      }
    }
    forall k | i < k < |order|
      ensures Untouched(order[k], start, here)
    {
      assert Untouched(order[k], start, mid);
      UntouchedStays(order[k], order[i], start, mid, here);
    }
  }

  lemma {:induction false} PassedStays(key: Key, u: nat, readFails: bool, done: set<nat>, other: nat, start: Snapshot,
                                       mid: Snapshot, here: Snapshot)
    requires Passed(key, u, readFails, done, start, mid) && LeavesOthers(other, mid, here) && u != other
    ensures Passed(key, u, readFails, done + {other}, start, here)
  {
    hide HasOtherCopy;
    assert SameFor(u, mid, here);
    RisksAlike(key, u, mid, here);
  }

  lemma {:induction false} PassedFromStart(key: Key, u: nat, readFails: bool, done: set<nat>, start: Snapshot,
                                           mid: Snapshot, here: Snapshot)
    requires Untouched(u, start, mid) && Passed(key, u, readFails, done, mid, here)
    ensures Passed(key, u, readFails, done, start, here)
  {
    hide HasOtherCopy;
    RisksAlike(key, u, start, mid);
  }

  lemma {:induction false} UntouchedStays(u: nat, other: nat, start: Snapshot, mid: Snapshot, here: Snapshot)
    requires Untouched(u, start, mid) && LeavesOthers(other, mid, here) && u != other
    ensures Untouched(u, start, here)
  {
    assert SameFor(u, mid, here);
  }

  lemma {:induction false} RisksAlike(key: Key, u: nat, start: Snapshot, mid: Snapshot)
    requires SameFor(u, start, mid) && u in start.now && u in mid.now && start.now[u] == mid.now[u]
    ensures MisreadIfUnreadable(key, start, u) <==> MisreadIfUnreadable(key, mid, u)
    ensures HasOtherCopy(key, start, u) <==> HasOtherCopy(key, mid, u)
    ensures NamesLostFile(start.rows, start.files, u) <==> NamesLostFile(mid.rows, mid.files, u)
  {
    hide MisreadIsSafe, Opened;
    assert RowOf(start.rows, u) == RowOf(mid.rows, u);
  }

  /** All clips through: exactly the misread ones have changed. */
  lemma {:induction false} ProgressEnd(key: Key, order: seq<nat>, fails: set<nat>, done: set<nat>, start: Snapshot,
                                       here: Snapshot)
    requires Progress(key, order, fails, |order|, done, start, here)
    ensures forall u | u in order :: Passed(key, u, u in fails, done, start, here)
    ensures forall u | u in order :: ChangeIsExplained(key, u, u in fails, start, here)
  {
    hide NoNewRisk, MisreadIfUnreadable, NamesLostFile;
    forall u | u in order
      ensures Passed(key, u, u in fails, done, start, here) && ChangeIsExplained(key, u, u in fails, start, here)
    {
      var k :| 0 <= k < |order| && order[k] == u;
      assert Passed(key, order[k], order[k] in fails, done, start, here);
    }
  }

  /** What a run leaves behind when it stops at clip `i`. */
  lemma {:induction false} StopIsExplained(key: Key, order: seq<nat>, fails: set<nat>, i: nat, done: set<nat>,
                                           start: Snapshot, mid: Snapshot, here: Snapshot)
    requires i < |order| && Progress(key, order, fails, i, done, start, mid) && LeavesOthers(order[i], mid, here)
    requires ChangeIsExplained(key, order[i], order[i] in fails, mid, here)
    ensures forall u | u in order :: ChangeIsExplained(key, u, u in fails, start, here)
  {
    hide HasOtherCopy, NamesLostFile, SameFor, StoredPicture;
    assert Untouched(order[i], start, mid);
    RisksAlike(key, order[i], start, mid);
    forall k | 0 <= k < |order|
      ensures ChangeIsExplained(key, order[k], order[k] in fails, start, here)
    {
      if order[k] != order[i] {
        assert k < i ==> Passed(key, order[k], order[k] in fails, done, start, mid);
        if k > i {
          assert Untouched(order[k], start, mid);
          RisksAlike(key, order[k], start, mid);
        }
        assert SameFor(order[k], mid, here);
        RisksAlike(key, order[k], mid, here);
      }
    }
  }

  lemma {:induction false} NextIsUntouched(key: Key, order: seq<nat>, fails: set<nat>, i: nat, done: set<nat>,
                                           start: Snapshot, mid: Snapshot)
    requires i < |order| && Progress(key, order, fails, i, done, start, mid)
    ensures order[i] in start.now && order[i] in mid.now && mid.now[order[i]] == start.now[order[i]]
  {
    assert Untouched(order[i], start, mid);
  }

  /** While every file can be read, nothing changes. */
  lemma {:induction false} CalmChangesNothing(key: Key, order: seq<nat>, i: nat, done: set<nat>, start: Snapshot,
                                              mid: Snapshot, here: Snapshot)
    requires i < |order| && Progress(key, order, {}, i, done, start, mid) && LeavesOthers(order[i], mid, here)
    requires order[i] in mid.now && order[i] in here.now && here.now[order[i]] == mid.now[order[i]]
    ensures forall u | u in order :: u in start.now && u in here.now && here.now[u] == start.now[u]
  {
    hide HasOtherCopy, NamesLostFile, SameFor;
    forall k | 0 <= k < |order|
      ensures order[k] in start.now && order[k] in here.now && here.now[order[k]] == start.now[order[k]]
    {
      assert k < i ==> Passed(key, order[k], false, done, start, mid);
      assert k >= i ==> Untouched(order[k], start, mid);
    }
  }

  lemma {:induction false} StaysWithoutTemps(uuid: nat, was: Snapshot, here: Snapshot)
    requires LeavesOthers(uuid, was, here) && NoTemps(was.files) && Temp(uuid) !in here.files
    ensures NoTemps(here.files)
  {
    forall v
      ensures Temp(v) !in here.files
    {
      assert v != uuid ==> SameFor(v, was, here);
    }
  }

  lemma {:induction false} RemovalIsUnseen(images: map<nat, ImageRow>, files: map<Path, Bytes>, path: Path)
    requires path.Legacy? && forall u | u in images :: images[u].path != Some(path)
    ensures SameForAll(images, Promoted(files), Promoted(files - {path}))
  {
    forall q: Path | q != path
      ensures q in Promoted(files) <==> q in Promoted(files - {path})
      ensures q in Promoted(files) ==> Promoted(files)[q] == Promoted(files - {path})[q]
    {
      PromotedAt(files, q);
      PromotedAt(files - {path}, q);
    }
    hide Promoted;
  }
}
