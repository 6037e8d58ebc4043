/** The import loop against a database and an image directory in which any
    step, and any attempt to undo one, may fail. */
module ImportRun {
  import opened Wrappers
  import opened ClipIdentity
  import opened ImageFiles
  import opened Import

  datatype Row = Row(kind: string, hash: nat, expired: bool)

  datatype ImportResult = ImportResult(total: nat, imported: nat, duplicates: nat, errors: nat)

  function Hashes(rows: map<nat, Row>): set<nat> { set u | u in rows :: rows[u].hash }

  /** `clips.content_hash` is unique. */
  ghost predicate OneRowPerContent(rows: map<nat, Row>) {
    forall u, v | u in rows && v in rows && rows[u].hash == rows[v].hash :: u == v
  }

  /** Every picture that is not marked expired has its file, and the file is
      the very picture its row's hash identifies. */
  ghost predicate PicturesInPlace(rows: map<nat, Row>, files: map<Path, string>, mac: string -> nat) {
    forall u | u in rows && rows[u].kind == "image" && !rows[u].expired ::
      Managed(u) in files && rows[u].hash == mac(Material("image", files[Managed(u)], []))
  }

  /** Every original on disk belongs to a row. */
  ghost predicate NoStrays(rows: map<nat, Row>, files: map<Path, string>) {
    forall u | Managed(u) in files :: u in rows
  }

  ghost predicate Fresh(rows: map<nat, Row>, images: set<nat>, formats: map<nat, seq<Format>>, files: map<Path, string>,
                        nextUuid: nat)
  {
    && (forall u | u in rows :: u < nextUuid)
    && images <= rows.Keys && formats.Keys <= rows.Keys
    && (forall p: Path | p in files && !p.Legacy? :: p.uuid < nextUuid)
  }

  lemma {:induction false} PictureHash(d: Decoded, mac: string -> nat)
    requires d.kind == "image" && d.fullImage.Some?
    ensures ContentHash(d, mac) == mac(Material("image", d.fullImage.value, []))
  {
    assert Fields(d.kind, d.fullImage.value, d.formats) == Fields("image", d.fullImage.value, []);
  }

  datatype Contents = Contents(rows: map<nat, Row>, images: set<nat>, formats: map<nat, seq<Format>>,
                               files: map<Path, string>, nextUuid: nat)

  /** What was there stays exactly as it was, and with every removal working no
      original is left without a row. */
  ghost predicate Grew(before: Contents, after: Contents, removalsWork: bool) {
    && before.nextUuid <= after.nextUuid
    && (forall u | u in before.rows :: u in after.rows && after.rows[u] == before.rows[u])
    && (forall u | u in before.formats :: u in after.formats && after.formats[u] == before.formats[u])
    && before.images <= after.images
    && (forall p | p in before.files :: p in after.files && after.files[p] == before.files[p])
    && (removalsWork && NoStrays(before.rows, before.files) ==> NoStrays(after.rows, after.files))
  }

  lemma {:induction false} GrewTwice(a: Contents, b: Contents, c: Contents, removalsWork: bool)
    requires Grew(a, b, removalsWork) && Grew(b, c, removalsWork)
    ensures Grew(a, c, removalsWork)
  {
    hide NoStrays;
  }

  class Database {
    const mac: string -> nat
    /** Removing a file never fails, whatever else does. */
    const removalsWork: bool
    var rows: map<nat, Row>
    /** The clips whose original is indexed. */
    var images: set<nat>
    var formats: map<nat, seq<Format>>
    var files: map<Path, string>
    var nextUuid: nat

    ghost predicate Valid()
      reads this
    {
      && OneRowPerContent(rows)
      && PicturesInPlace(rows, files, mac)
      && Fresh(rows, images, formats, files, nextUuid)
    }

    constructor (mac: string -> nat, removalsWork: bool)
      ensures Valid() && rows == map[] && files == map[]
    {
      this.mac, this.removalsWork := mac, removalsWork;
      rows, images, formats, files, nextUuid := map[], {}, map[], map[], 0;
    }

    // -------------------------------------------------------- primitive steps

    method Fails(calm: bool) returns (fails: bool)
      ensures calm ==> !fails
    {
      fails := *;
      fails := fails && !calm;
    }

    method RemoveImportedOriginal(uuid: nat, calm: bool)
      requires Valid() && uuid !in rows
      modifies this`files
      ensures Valid()
      ensures files == old(files) - {Managed(uuid)} || (!removalsWork && !calm && files == old(files))
    {
      var fails: bool := *;
      if !fails || removalsWork || calm {
        files := files - {Managed(uuid)};
      }
    }

    /** Undo an inserted row. Its file goes only if the row did. */
    method RollBack(uuid: nat, hasFile: bool, calm: bool)
      requires Valid() && uuid in rows
      modifies this
      ensures Valid() && nextUuid == old(nextUuid)
      ensures RolledBack(old(rows), old(images), old(formats), old(files), uuid, hasFile, calm)
    {
      hide OneRowPerContent, PicturesInPlace;
      var fails := Fails(calm);
      if fails {
        return;
      }
      RowGoes(rows, files, mac, uuid);
      rows, images, formats := rows - {uuid}, images - {uuid}, formats - {uuid};
      if hasFile {
        RemoveImportedOriginal(uuid, calm);
      }
    }

    ghost predicate RolledBack(oldRows: map<nat, Row>, oldImages: set<nat>, oldFormats: map<nat, seq<Format>>,
                               oldFiles: map<Path, string>, uuid: nat, hasFile: bool, calm: bool)
      reads this
    {
      || (!calm && rows == oldRows && images == oldImages && formats == oldFormats && files == oldFiles)
      || (rows == oldRows - {uuid} && images == oldImages - {uuid} && formats == oldFormats - {uuid}
          && (files == (if hasFile then oldFiles - {Managed(uuid)} else oldFiles) || (!removalsWork && !calm && files == oldFiles)))
    }

    /** Write the encrypted original under its own name. A failure may leave
        the staged copy behind, never a file under the managed name. */
    method PersistImportedOriginal(uuid: nat, picture: string, calm: bool) returns (ok: bool)
      requires Valid() && uuid < nextUuid && uuid !in rows
      modifies this`files
      ensures Valid() && (calm ==> ok)
      ensures ok ==> files == old(files)[Managed(uuid) := picture]
      ensures !ok ==> files == old(files) || files == old(files)[Temp(uuid) := picture]
    {
      hide OneRowPerContent;
      var fails := Fails(calm);
      if fails {
        var leftTemp: bool := *;
        if leftTemp {
          files := files[Temp(uuid) := picture];
        }
        return false;
      }
      files := files[Managed(uuid) := picture];
      ok := true;
    }

    /** The formats one by one; the table's key refuses a repeated name. */
    method PersistImportedFormats(uuid: nat, wanted: seq<Format>, calm: bool) returns (ok: bool)
      requires Valid() && uuid in rows && uuid !in formats
      modifies this`formats
      ensures Valid() && formats - {uuid} == old(formats)
      ensures ok ==> DistinctNames(wanted) && uuid in formats && formats[uuid] == wanted
      ensures calm ==> ok == DistinctNames(wanted)
    {
      hide OneRowPerContent, PicturesInPlace;
      formats := formats[uuid := []];
      for k := 0 to |wanted|
        invariant Valid() && uuid in formats && formats - {uuid} == old(formats)
        invariant formats[uuid] == wanted[..k] && DistinctNames(wanted[..k])
      {
        var fails := Fails(calm);
        if fails {
          return false;
        }
        if exists j :: 0 <= j < k && wanted[j].name == wanted[k].name {
          return false;
        }
        assert wanted[..k + 1] == wanted[..k] + [wanted[k]];
        formats := formats[uuid := formats[uuid] + [wanted[k]]];
      }
      assert wanted[..|wanted|] == wanted;
      ok := true;
    }

    method InsertRow(uuid: nat, row: Row, calm: bool) returns (ok: bool)
      requires Valid() && uuid < nextUuid && uuid !in rows && row.hash !in Hashes(rows)
      requires row.kind == "image" && !row.expired ==>
        Managed(uuid) in files && row.hash == mac(Material("image", files[Managed(uuid)], []))
      modifies this`rows
      ensures Valid() && (calm ==> ok) && rows == if ok then old(rows)[uuid := row] else old(rows)
    {
      hide OneRowPerContent, PicturesInPlace;
      var fails := Fails(calm);
      if fails {
        return false;
      }
      RowArrives(rows, files, mac, uuid, row);
      rows := rows[uuid := row];
      ok := true;
    }

    method IndexImportedOriginal(uuid: nat, calm: bool) returns (ok: bool)
      requires Valid() && uuid in rows
      modifies this`images
      ensures Valid() && (calm ==> ok) && images == old(images) + (if ok then {uuid} else {})
    {
      hide OneRowPerContent, PicturesInPlace;
      var fails := Fails(calm);
      ok := !fails;
      if ok {
        images := images + {uuid};
      }
    }

    // -------------------------------------------------------------- one clip

    /** What restoring one clip may leave: nothing of it, or its row, which is
        missing parts only if taking it back failed too. */
    twostate predicate Restored(d: Decoded, hash: nat, imported: bool, calm: bool)
      reads this
    {
      var uuid := old(nextUuid);
      && Valid() && uuid <= nextUuid <= uuid + 1
      && (rows == old(rows) || rows == old(rows)[uuid := RowFor(d, hash)])
      && images - {uuid} == old(images) && formats - {uuid} == old(formats)
      && files - {Managed(uuid), Temp(uuid)} == old(files)
      && ((removalsWork || calm) && uuid !in rows ==> Managed(uuid) !in files)
      && (imported ==> uuid in rows && uuid in formats && formats[uuid] == d.formats && DistinctNames(d.formats)
                       && (uuid in images <==> d.fullImage.Some?))
      && (calm ==> imported == DistinctNames(d.formats) && (!imported ==> rows == old(rows)))
    }

    function RowFor(d: Decoded, hash: nat): (row: Row)
      ensures row.hash == hash
    {
      Row(d.kind, hash, d.kind == "image" && d.fullImage.None?)
    }

    method RestoreClip(d: Decoded, folder: bool, hash: nat, calm: bool) returns (imported: bool, errors: nat)
      requires Valid() && hash == ContentHash(d, mac) && hash !in Hashes(rows)
      requires d.fullImage.Some? ==> d.kind == "image"
      modifies this
      ensures Restored(d, hash, imported, calm) && (!imported ==> errors > 0)
    {
      hide OneRowPerContent, PicturesInPlace, ContentHash, Material, Hashes, DistinctNames, Fresh;
      NextUuidIsFresh(rows, images, formats, files, nextUuid);
      var prepared;
      prepared, errors := Prepare(folder, calm);
      if !prepared {
        return false, errors;
      }
      imported := RestoreParts(d, hash, calm);
      if !imported {
        errors := errors + 1;
      }
    }

    /** The folder, whose failure is only noted, and the encryption. */
    method Prepare(folder: bool, calm: bool) returns (ok: bool, errors: nat)
      ensures (!ok ==> errors > 0) && (calm ==> ok && errors == 0)
    {
      errors := 0;
      if folder {
        var folderFails := Fails(calm);
        if folderFails { errors := 1; }
      }
      var encryptFails := Fails(calm);
      ok := !encryptFails;
      if !ok { errors := errors + 1; }
    }

    method RestoreParts(d: Decoded, hash: nat, calm: bool) returns (imported: bool)
      requires Valid() && hash == ContentHash(d, mac) && hash !in Hashes(rows)
      requires d.fullImage.Some? ==> d.kind == "image"
      modifies this
      ensures Restored(d, hash, imported, calm)
    {
      hide OneRowPerContent, PicturesInPlace, ContentHash, Material, Hashes, DistinctNames, Fresh;
      NextUuidIsFresh(rows, images, formats, files, nextUuid);
      var uuid := nextUuid;
      NextUuid();
      if d.fullImage.Some? {
        PictureHash(d, mac);
        var stored := PersistImportedOriginal(uuid, d.fullImage.value, calm);
        if !stored {
          return false;
        }
      }
      imported := RestoreRow(uuid, d, hash, calm);
    }

    method NextUuid()
      requires Valid()
      modifies this`nextUuid
      ensures Valid() && nextUuid == old(nextUuid) + 1
    {
      hide OneRowPerContent, PicturesInPlace;
      nextUuid := nextUuid + 1;
    }

    /** From the row insert on, with the original already in place. */
    method RestoreRow(uuid: nat, d: Decoded, hash: nat, calm: bool) returns (imported: bool)
      requires Valid() && uuid < nextUuid && uuid !in rows && hash !in Hashes(rows)
      requires d.fullImage.Some? ==>
        d.kind == "image" && Managed(uuid) in files && hash == mac(Material("image", files[Managed(uuid)], []))
      modifies this
      ensures Valid() && nextUuid == old(nextUuid)
      ensures rows == old(rows) || rows == old(rows)[uuid := RowFor(d, hash)]
      ensures images - {uuid} == old(images) && formats - {uuid} == old(formats)
      ensures files == old(files) || (d.fullImage.Some? && uuid !in rows && files == old(files) - {Managed(uuid)})
      ensures d.fullImage.Some? && (removalsWork || calm) && uuid !in rows ==> Managed(uuid) !in files
      ensures imported ==> uuid in rows && uuid in formats && formats[uuid] == d.formats && DistinctNames(d.formats)
      ensures imported ==> (uuid in images <==> d.fullImage.Some?)
      ensures calm ==> imported == DistinctNames(d.formats) && (!imported ==> rows == old(rows))
    {
      hide OneRowPerContent, PicturesInPlace, Material, Hashes, DistinctNames;
      var inserted := InsertRow(uuid, RowFor(d, hash), calm);
      if !inserted {
        if d.fullImage.Some? {
          RemoveImportedOriginal(uuid, calm);
        }
        return false;
      }
      if d.fullImage.Some? {
        var indexed := IndexImportedOriginal(uuid, calm);
        if !indexed {
          RollBack(uuid, true, calm);
          return false;
        }
      }
      imported := PersistImportedFormats(uuid, d.formats, calm);
      if !imported {
        RollBack(uuid, d.fullImage.Some?, calm);
      }
    }

    ghost function Now(): Contents
      reads this
    {
      Contents(rows, images, formats, files, nextUuid)
    }

    /** From an earlier state to now, nothing that was there has changed. */
    twostate predicate OnlyGrew(calm: bool)
      reads this
    {
      Grew(old(Now()), Now(), removalsWork || calm)
    }

    method RestoreNewClip(d: Decoded, folder: bool, hash: nat, calm: bool) returns (imported: bool, errors: nat)
      requires Valid() && hash == ContentHash(d, mac) && hash !in Hashes(rows)
      requires d.fullImage.Some? ==> d.kind == "image"
      modifies this
      ensures Valid() && OnlyGrew(calm) && (!imported ==> errors > 0)
      ensures old(Hashes(rows)) <= Hashes(rows) <= old(Hashes(rows)) + {hash}
      ensures calm ==> imported == DistinctNames(d.formats)
      ensures calm ==> Hashes(rows) == old(Hashes(rows)) + (if imported then {hash} else {})
    {
      hide OneRowPerContent, PicturesInPlace, ContentHash, Material, DistinctNames, Fresh, Hashes, NoStrays, RowFor;
      ghost var uuid := nextUuid;
      NextUuidIsFresh(rows, images, formats, files, uuid);
      imported, errors := RestoreClip(d, folder, hash, calm);
      FilesGrew(old(rows), rows, old(files), files, uuid, removalsWork || calm);
      FormatsGrew(old(formats), formats, uuid);
      HashesGrew(old(rows), uuid, RowFor(d, hash), hash);
    }

    /** What a run has counted over its first `i` clips. */
    ghost predicate Accounted(clips: seq<BundleClip>, i: nat, present: set<nat>, dryRun: bool, calm: bool,
                              r: ImportResult, skipped: nat, planned: set<nat>)
      requires i <= |clips|
      reads this
    {
      && r.total == |clips| && i == r.imported + r.duplicates + skipped && skipped <= r.errors
      && present <= Hashes(rows) && (planned == {} ==> Hashes(rows) == present)
      && (AllStored(clips, |clips|, present, mac) ==>
            planned == {} && r.imported == 0 && r.duplicates == Readable(clips, i))
      && (calm ==> var t := Run(clips, i, present, mac, dryRun);
                   Matches(r, skipped, t) && planned == t.planned && Hashes(rows) == present + t.added)
    }

    method ImportClip(clips: seq<BundleClip>, i: nat, ghost present: set<nat>, dryRun: bool, calm: bool,
                      before: ImportResult, ghost skippedBefore: nat, plannedBefore: set<nat>)
      returns (ok: bool, r: ImportResult, ghost skipped: nat, planned: set<nat>)
      requires Valid() && i < |clips| && Accounted(clips, i, present, dryRun, calm, before, skippedBefore, plannedBefore)
      modifies this
      ensures Valid() && OnlyGrew(calm) && (dryRun ==> Now() == old(Now())) && (calm ==> ok)
      ensures ok ==> Accounted(clips, i + 1, present, dryRun, calm, r, skipped, planned)
    {
      hide OneRowPerContent, PicturesInPlace, Fresh, Grew, Decode, ContentHash, Hashes, DistinctNames, Run, AllStored, Readable;
      NothingGrew(Now(), removalsWork || calm);
      RunStep(clips, i, present, mac, dryRun);
      ok, r, skipped, planned := true, before, skippedBefore, plannedBefore;
      var decoded := Decode(clips[i]);
      if decoded.None? {
        r, skipped := r.(errors := r.errors + 1), skipped + 1;
        return;
      }
      var d := decoded.value;
      var hash := ContentHash(d, mac);
      var lookupFails := Fails(calm);
      if lookupFails {
        ok := false;
        return;
      }
      if hash in Hashes(rows) || hash in planned {
        r := r.(duplicates := r.duplicates + 1);
        return;
      }
      planned := planned + {hash};
      if dryRun {
        r := r.(imported := r.imported + 1);
        return;
      }
      OnlyPicturesHaveOriginals(clips[i]);
      var imported, errors := RestoreNewClip(d, clips[i].folder.Some?, hash, calm);
      r := r.(errors := r.errors + errors, imported := r.imported + if imported then 1 else 0);
      skipped := skipped + if imported then 0 else 1;
    }

    /** Restore a bundle, or with `dryRun` count what restoring would do. Only
        a failed lookup ends the run early. */
    method ImportBackup(clips: seq<BundleClip>, dryRun: bool, calm: bool)
      returns (result: Option<ImportResult>, ghost skipped: nat)
      requires Valid()
      modifies this
      ensures Valid() && OnlyGrew(calm)
      ensures dryRun ==> Now() == old(Now())
      ensures result.Some? ==> result.value.total == |clips| == result.value.imported + result.value.duplicates + skipped
      ensures result.Some? ==> skipped <= result.value.errors
      ensures result.Some? && AllStored(clips, |clips|, old(Hashes(rows)), mac) ==>
        result.value.imported == 0 && result.value.duplicates == Readable(clips, |clips|)
      ensures calm ==> result.Some? && Matches(result.value, skipped, Run(clips, |clips|, old(Hashes(rows)), mac, dryRun))
      ensures calm ==> Hashes(rows) == old(Hashes(rows)) + Run(clips, |clips|, old(Hashes(rows)), mac, dryRun).added
      ensures calm && Run(clips, |clips|, old(Hashes(rows)), mac, dryRun).added == {} ==> rows == old(rows)
    {
      hide OneRowPerContent, PicturesInPlace, Fresh, Grew, Decode, ContentHash, Hashes, DistinctNames, Run, AllStored, Readable;
      RunStarts(clips, Hashes(rows), mac, dryRun);
      ghost var present := Hashes(rows);
      var r := ImportResult(|clips|, 0, 0, 0);
      var planned: set<nat> := {};
      skipped := 0;
      NothingGrew(Now(), removalsWork || calm);
      for i := 0 to |clips|
        invariant Valid() && OnlyGrew(calm) && (dryRun ==> Now() == old(Now()))
        invariant Accounted(clips, i, present, dryRun, calm, r, skipped, planned)
      {
        ghost var before := Now();
        var ok;
        ok, r, skipped, planned := ImportClip(clips, i, present, dryRun, calm, r, skipped, planned);
        GrewTwice(old(Now()), before, Now(), removalsWork || calm);
        if !ok {
          return None, 0;
        }
      }
      result := Some(r);
      SameHashesSameRows(old(Now()), Now(), removalsWork || calm);
    }
  }

  /** Any number of restores in which any step may fail, an undisturbed one, and
      the same again: nothing that was there changes and no content has two rows.
      Whatever the earlier ones left, the bundle is all there exactly when no
      clip of it that was still new then names a format twice, and the last
      restore imports nothing. */
  method RestoreRepeatedly(db: Database, earlier: seq<seq<BundleClip>>, clips: seq<BundleClip>)
    returns (result: ImportResult, again: ImportResult, ghost present: set<nat>)
    requires db.Valid()
    modifies db
    ensures db.Valid() && OneRowPerContent(db.rows) && Grew(old(db.Now()), db.Now(), db.removalsWork)
    ensures old(Hashes(db.rows)) <= present <= Hashes(db.rows)
    ensures AllStored(clips, |clips|, Hashes(db.rows), db.mac) <==> NewClipsAreRestorable(clips, |clips|, present, db.mac)
    ensures NewClipsAreRestorable(clips, |clips|, old(Hashes(db.rows)), db.mac) ==>
              AllStored(clips, |clips|, Hashes(db.rows), db.mac)
    ensures again.imported == 0
  {
    hide OneRowPerContent, PicturesInPlace, Fresh, Grew, Decode, Hashes, Run, AllStored, NewClipsAreRestorable;
    ghost var start := db.Now();
    NothingGrew(start, db.removalsWork);
    for i := 0 to |earlier|
      invariant db.Valid() && Grew(start, db.Now(), db.removalsWork)
    {
      ghost var before := db.Now();
      var _, _ := db.ImportBackup(earlier[i], false, false);
      GrewTwice(start, before, db.Now(), db.removalsWork);
    }
    present := Hashes(db.rows);
    GrewHashes(start, db.Now(), db.removalsWork);
    RestorableStays(clips, |clips|, start.rows, db.rows, db.mac);
    ghost var faulty := db.Now();
    var restored, _ := db.ImportBackup(clips, false, true);
    result := restored.value;
    GrewCalmly(start, faulty, db.Now(), db.removalsWork);
    ConvergesIff(clips, |clips|, present, db.mac);
    ghost var whole := db.Now();
    var repeated, _ := db.ImportBackup(clips, false, true);
    again := repeated.value;
    SecondRunImportsNothing(clips, |clips|, present, db.mac);
    NothingImportedNothingAdded(clips, |clips|, Hashes(whole.rows), db.mac);
    GrewCalmly(start, whole, db.Now(), db.removalsWork);
  }

  lemma {:induction false} SameHashesSameRows(before: Contents, after: Contents, removalsWork: bool)
    requires Grew(before, after, removalsWork) && OneRowPerContent(after.rows)
    ensures Hashes(after.rows) == Hashes(before.rows) ==> after.rows == before.rows
  {
    if Hashes(after.rows) == Hashes(before.rows) {
      forall u | u in after.rows
        ensures u in before.rows
      {
        assert after.rows[u].hash in Hashes(after.rows);
        var v :| v in before.rows && before.rows[v].hash == after.rows[u].hash;
      }
    }
  }

  lemma {:induction false} GrewHashes(before: Contents, after: Contents, removalsWork: bool)
    requires Grew(before, after, removalsWork)
    ensures Hashes(before.rows) <= Hashes(after.rows)
  {
    forall hash | hash in Hashes(before.rows)
      ensures hash in Hashes(after.rows)
    {
      var u :| u in before.rows && before.rows[u].hash == hash;
      assert after.rows[u].hash == hash;
    }
  }

  lemma {:induction false} GrewCalmly(a: Contents, b: Contents, c: Contents, removalsWork: bool)
    requires Grew(a, b, removalsWork) && Grew(b, c, true)
    ensures Grew(a, c, removalsWork)
  {
    hide NoStrays;
  }

  lemma {:induction false} RestorableStays(clips: seq<BundleClip>, n: nat, before: map<nat, Row>, after: map<nat, Row>,
                                           mac: string -> nat)
    requires n <= |clips| && Hashes(before) <= Hashes(after)
    ensures NewClipsAreRestorable(clips, n, Hashes(before), mac) ==> NewClipsAreRestorable(clips, n, Hashes(after), mac)
  {
    hide Decode, ContentHash, DistinctNames, Hashes;
    assert forall k | 0 <= k < n && NewAt(clips, k, Hashes(after), mac) :: NewAt(clips, k, Hashes(before), mac);
    NewIsReadable(clips, Hashes(after), mac);
  }

  lemma {:induction false} NothingImportedNothingAdded(clips: seq<BundleClip>, n: nat, present: set<nat>, mac: string -> nat)
    requires n <= |clips|
    ensures Run(clips, n, present, mac, false).imported == 0 ==> Run(clips, n, present, mac, false).added == {}
  {
    hide Decode, ContentHash, DistinctNames;
    if n > 0 {
      NothingImportedNothingAdded(clips, n - 1, present, mac);
    }
  }

  lemma {:induction false} RunStarts(clips: seq<BundleClip>, present: set<nat>, mac: string -> nat, dryRun: bool)
    ensures Run(clips, 0, present, mac, dryRun) == NOTHING_YET && Readable(clips, 0) == 0
  {
  }

  lemma {:induction false} RunStep(clips: seq<BundleClip>, i: nat, present: set<nat>, mac: string -> nat, dryRun: bool)
    requires i < |clips|
    ensures Run(clips, i + 1, present, mac, dryRun) == Count(Run(clips, i, present, mac, dryRun), clips[i], present, mac, dryRun)
    ensures Readable(clips, i + 1) == Readable(clips, i) + (if Decode(clips[i]).Some? then 1 else 0)
    ensures AllStored(clips, |clips|, present, mac) && Decode(clips[i]).Some? ==>
      ContentHash(Decode(clips[i]).value, mac) in present
  {
    hide Decode, ContentHash, Count;
  }

  predicate Matches(r: ImportResult, skipped: nat, t: Tally) {
    r.imported == t.imported && r.duplicates == t.duplicates && skipped == t.skipped
  }

  lemma {:induction false} OnlyPicturesHaveOriginals(clip: BundleClip)
    requires Decode(clip).Some?
    ensures Decode(clip).value.fullImage.Some? ==> Decode(clip).value.kind == "image"
  {
    hide DecodeFormats;
  }

  lemma {:induction false} NothingGrew(c: Contents, removalsWork: bool)
    ensures Grew(c, c, removalsWork)
  {
    hide NoStrays;
  }

  lemma {:induction false} FilesGrew(before: map<nat, Row>, rows: map<nat, Row>, oldFiles: map<Path, string>,
                                     files: map<Path, string>, uuid: nat, removalsWork: bool)
    requires files - {Managed(uuid), Temp(uuid)} == oldFiles && (removalsWork && uuid !in rows ==> Managed(uuid) !in files)
    requires forall u | u in before :: u in rows
    ensures forall p | p in oldFiles :: p in files && files[p] == oldFiles[p]
    ensures removalsWork && NoStrays(before, oldFiles) ==> NoStrays(rows, files)
  {
    assert forall p | p in oldFiles :: p in files - {Managed(uuid), Temp(uuid)};
    assert forall p: Path | p in files && p != Managed(uuid) && p != Temp(uuid) :: p in files - {Managed(uuid), Temp(uuid)};
  }

  lemma {:induction false} FormatsGrew(before: map<nat, seq<Format>>, formats: map<nat, seq<Format>>, uuid: nat)
    requires formats - {uuid} == before
    ensures forall u | u in before :: u in formats && formats[u] == before[u]
  {
    assert forall u | u in before :: u in formats - {uuid};
  }

  lemma {:induction false} HashesGrew(before: map<nat, Row>, uuid: nat, row: Row, hash: nat)
    requires uuid !in before && row.hash == hash
    ensures Hashes(before[uuid := row]) == Hashes(before) + {hash}
  {
    var after := before[uuid := row];
    forall h | h in Hashes(before) + {hash}
      ensures h in Hashes(after)
    {
      if h == hash {
        assert after[uuid].hash == hash;
      } else {
        var u :| u in before && before[u].hash == h;
        assert after[u].hash == h;
      }
    }
  }

  lemma {:induction false} NextUuidIsFresh(rows: map<nat, Row>, images: set<nat>, formats: map<nat, seq<Format>>,
                                           files: map<Path, string>, nextUuid: nat)
    requires Fresh(rows, images, formats, files, nextUuid)
    ensures nextUuid !in rows && nextUuid !in images && nextUuid !in formats
    ensures Managed(nextUuid) !in files && Temp(nextUuid) !in files
  {
  }

  lemma {:induction false} RowArrives(rows: map<nat, Row>, files: map<Path, string>, mac: string -> nat, uuid: nat, row: Row)
    requires OneRowPerContent(rows) && PicturesInPlace(rows, files, mac) && uuid !in rows && row.hash !in Hashes(rows)
    requires row.kind == "image" && !row.expired ==>
      Managed(uuid) in files && row.hash == mac(Material("image", files[Managed(uuid)], []))
    ensures OneRowPerContent(rows[uuid := row]) && PicturesInPlace(rows[uuid := row], files, mac)
  {
    hide Material;
    assert forall u | u in rows :: rows[u].hash in Hashes(rows);
  }

  lemma {:induction false} RowGoes(rows: map<nat, Row>, files: map<Path, string>, mac: string -> nat, uuid: nat)
    requires OneRowPerContent(rows) && PicturesInPlace(rows, files, mac)
    ensures OneRowPerContent(rows - {uuid}) && PicturesInPlace(rows - {uuid}, files, mac)
    ensures PicturesInPlace(rows - {uuid}, files - {Managed(uuid)}, mac)
  {
    hide Material;
  }
}
